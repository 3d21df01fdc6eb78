/** The dispatcher with the one-step predictor as its model. An external event that sets no
    input makes the predictor forget the step it has offered. */
module OneStepRuns {
  import opened Fmi
  import opened TimedQueue
  import opened Dispatcher
  import opened DispatcherProofs
  import opened OneStepPredictor

  datatype Setup = Setup(config: Config, ids: seq<PortID>, inputs: set<PortID>, start: real, outputs: seq<Value>)

  /** `settled` holds the outputs that were fetched after the latest delivered step;
      `made` and `delivered` count the steps of the model. */
  datatype System = System(base: State, model: Model, settled: seq<Value>, made: nat, delivered: nat)

  ghost predicate WellPosed(u: Setup) {
    |u.outputs| == |u.ids| && forall i :: 0 <= i < |u.ids| ==> u.ids[i] !in u.inputs
  }

  function Initial(u: Setup, clock: int): System {
    System(InitialState(clock), Model(u.start, u.outputs, None), u.outputs, 0, 0)
  }

  function Contents(vars: seq<Variable>): (values: seq<Value>)
    ensures |values| == |vars|
  {
    seq(|vars|, i requires 0 <= i < |vars| => vars[i].value)
  }

  /** The outputs that the step behind a prediction has fetched. */
  function Fetched(image: seq<Value>, p: Event): seq<Value> {
    if p.vars == [] then image else Contents(p.vars)
  }

  /** The prediction is what the predictor offers, after a step if there was no offer. */
  predicate IsPrediction(u: Setup, m: Model, p: Event) {
    var fetched := Fetched(m.image, p);
    |fetched| == |u.ids| && Offer(PredictNext(u.ids, m, p.time, fetched)) == Prediction(p.time, p.vars)
  }

  predicate CanStep(u: Setup, sys: System, step: Step) {
    && Enabled(sys.base, step)
    && (step.Predict? ==> IsPrediction(u, sys.model, step.prediction))
  }

  function Proceed(u: Setup, sys: System, step: Step): System
    requires CanStep(u, sys, step)
  {
    var base := Apply(u.config, sys.base, step);
    match step
    case Predict(p) =>
      sys.(base := base,
           model := PredictNext(u.ids, sys.model, p.time, Fetched(sys.model.image, p)),
           made := sys.made + (if sys.model.cache.None? then 1 else 0))
    case Begin =>
      var e := sys.base.control.next;
      var model := Trigger(sys.model, u.inputs, e.ev);
      if e.predicted then System(base, model, sys.model.image, sys.made, sys.delivered + 1)
      else sys.(base := base, model := model)
    case _ => sys.(base := base)
  }

  predicate IsSystemRun(u: Setup, clock: int, steps: seq<Step>)
    decreases |steps|, 0
  {
    steps == [] ||
    var n := |steps| - 1;
    IsSystemRun(u, clock, steps[..n]) && CanStep(u, SystemAfter(u, clock, steps[..n]), steps[n])
  }

  function SystemAfter(u: Setup, clock: int, steps: seq<Step>): System
    requires IsSystemRun(u, clock, steps)
    decreases |steps|, 1
  {
    if steps == [] then Initial(u, clock)
    else Proceed(u, SystemAfter(u, clock, steps[..|steps| - 1]), steps[|steps| - 1])
  }

  lemma {:induction false} SystemRunIsRun(u: Setup, clock: int, steps: seq<Step>)
    requires IsSystemRun(u, clock, steps)
    ensures IsRun(u.config, clock, steps)
    ensures StateAfter(u.config, clock, steps) == SystemAfter(u, clock, steps).base
  {
    if steps != [] {
      SystemRunIsRun(u, clock, steps[..|steps| - 1]);
    }
  }

  // ----- what the listeners have seen

  predicate IsPredictedBegin(a: Action) {
    a.stage == Begun && a.entry.predicted
  }

  predicate IsPredictedRegistration(a: Action) {
    a.stage == Registered && a.entry.predicted
  }

  /** The values of the last non-empty model event that was distributed, or the initial
      outputs. */
  function LastShown(u: Setup, history: seq<Action>): seq<Value> {
    if history == [] then u.outputs
    else
      var last := history[|history| - 1];
      if IsPredictedBegin(last) && last.entry.ev.vars != [] then Contents(last.entry.ev.vars)
      else LastShown(u, history[..|history| - 1])
  }

  /** The distribution of an event that sets no input. */
  predicate Clears(u: Setup, a: Action) {
    a.stage == Begun && !Touches(a.entry.ev, u.inputs)
  }

  /** How many external events without inputs were distributed. */
  function Dropped(u: Setup, history: seq<Action>): nat {
    if history == [] then 0
    else
      var last := history[|history| - 1];
      Dropped(u, history[..|history| - 1]) + (if Clears(u, last) && !last.entry.predicted then 1 else 0)
  }

  /** The predictions since the last event without inputs was distributed. */
  function SinceCleared(u: Setup, history: seq<Action>): set<Event> {
    if history == [] then {}
    else
      var n := |history| - 1;
      if Clears(u, history[n]) then {}
      else SinceCleared(u, history[..n]) + (if IsPredictedRegistration(history[n]) then {history[n].entry.ev} else {})
  }

  predicate Outstanding(control: Control) {
    control.Adding? || control.Checking? || control.Waiting? || control.Holding?
  }

  predicate Offers(cache: Option<Prediction>, p: Event) {
    cache == Some(Prediction(p.time, p.vars))
  }

  ghost predicate OneStepInv(u: Setup, sys: System) {
    var (m, control, h) := (sys.model, sys.base.control, sys.base.history);
    && |m.image| == |u.ids| == |sys.settled| == |LastShown(u, h)|
    && (m.cache.Some? ==> m.cache.value.vars == [] || m.cache.value.vars == Pair(u.ids, m.image))
    && sys.made == sys.delivered + Dropped(u, h) + (if m.cache.Some? then 1 else 0)
    && (forall p :: p in SinceCleared(u, h) ==> Offers(m.cache, p))
    && (Outstanding(control) ==> Offers(m.cache, control.p))
  }

  lemma ModelEventsSetNoInput(u: Setup, p: Event, values: seq<Value>)
    requires WellPosed(u) && |values| == |u.ids| && (p.vars == [] || p.vars == Pair(u.ids, values))
    ensures !Touches(p, u.inputs)
  {
  }

  lemma HistoryStep(u: Setup, history: seq<Action>, a: Action)
    ensures LastShown(u, history + [a])
         == if IsPredictedBegin(a) && a.entry.ev.vars != [] then Contents(a.entry.ev.vars) else LastShown(u, history)
    ensures Dropped(u, history + [a]) == Dropped(u, history) + (if Clears(u, a) && !a.entry.predicted then 1 else 0)
    ensures SinceCleared(u, history + [a])
         == if Clears(u, a) then {}
            else SinceCleared(u, history) + (if IsPredictedRegistration(a) then {a.entry.ev} else {})
  {
    assert (history + [a])[..|history|] == history;
  }

  predicate IsQuiet(a: Action) {
    a.stage != Begun && !IsPredictedRegistration(a)
  }

  predicate SameFor(u: Setup, history: seq<Action>, longer: seq<Action>) {
    && LastShown(u, longer) == LastShown(u, history)
    && Dropped(u, longer) == Dropped(u, history)
    && SinceCleared(u, longer) == SinceCleared(u, history)
  }

  lemma {:induction false} HistorySkips(u: Setup, history: seq<Action>, more: seq<Action>)
    requires forall i :: 0 <= i < |more| ==> IsQuiet(more[i])
    ensures SameFor(u, history, history + more)
  {
    if more == [] {
      assert history + more == history;
    } else {
      var n := |more| - 1;
      assert history + more == (history + more[..n]) + [more[n]];
      HistorySkips(u, history, more[..n]);
      HistoryStep(u, history + more[..n], more[n]);
    }
  }

  lemma QuietSteps(c: Config, s: State, step: Step)
    requires Enabled(s, step) && !step.Begin? && !step.Predict?
    ensures var h := Apply(c, s, step).history;
            s.history <= h && forall i :: |s.history| <= i < |h| ==> IsQuiet(h[i])
  {
  }

  lemma QuietHistory(u: Setup, s: State, step: Step)
    requires Enabled(s, step) && !step.Begin? && !step.Predict?
    ensures SameFor(u, s.history, Apply(u.config, s, step).history)
  {
    QuietSteps(u.config, s, step);
    var h := Apply(u.config, s, step).history;
    assert h == s.history + h[|s.history|..];
    HistorySkips(u, s.history, h[|s.history|..]);
  }

  lemma PredictStep(u: Setup, sys: System, p: Event)
    requires WellPosed(u) && OneStepInv(u, sys) && CanStep(u, sys, Predict(p))
    ensures OneStepInv(u, Proceed(u, sys, Predict(p)))
  {
    var a := Action(Registered, Entry(p, true), sys.base.clock);
    HistoryStep(u, sys.base.history, a);
    PredictModel(u, sys.model, p);
    assert Proceed(u, sys, Predict(p)).base == sys.base.(control := Adding(p), history := sys.base.history + [a]);
  }

  /** The model after a prediction is the one that offers it. */
  lemma PredictModel(u: Setup, m: Model, p: Event)
    requires |m.image| == |u.ids| && IsPrediction(u, m, p)
    requires m.cache.Some? ==> m.cache.value.vars == [] || m.cache.value.vars == Pair(u.ids, m.image)
    ensures var m' := PredictNext(u.ids, m, p.time, Fetched(m.image, p));
            && Offers(m'.cache, p) && |m'.image| == |u.ids| && (m.cache.Some? ==> m' == m)
            && (m'.cache.value.vars == [] || m'.cache.value.vars == Pair(u.ids, m'.image))
  {
  }

  lemma BeginStep(u: Setup, sys: System)
    requires WellPosed(u) && OneStepInv(u, sys) && CanStep(u, sys, Begin) && QueueInv(u.config, sys.base)
    ensures OneStepInv(u, Proceed(u, sys, Begin))
  {
    var e := sys.base.control.next;
    HistoryStep(u, sys.base.history, Action(Begun, e, sys.base.clock));
    if e.predicted {
      ModelEventsSetNoInput(u, e.ev, sys.model.image);
    }
  }

  lemma QuietControl(c: Config, s: State, step: Step)
    requires Enabled(s, step) && !step.Begin? && !step.Predict?
    ensures var t := Apply(c, s, step).control; Outstanding(t) ==> Outstanding(s.control) && t.p == s.control.p
  {
  }

  lemma QuietStep(u: Setup, sys: System, step: Step)
    requires OneStepInv(u, sys) && CanStep(u, sys, step) && !step.Begin? && !step.Predict?
    ensures OneStepInv(u, Proceed(u, sys, step))
  {
    QuietHistory(u, sys.base, step);
    QuietControl(u.config, sys.base, step);
    SameSystem(u, sys, Apply(u.config, sys.base, step));
  }

  lemma SameSystem(u: Setup, sys: System, t: State)
    requires OneStepInv(u, sys) && SameFor(u, sys.base.history, t.history)
    requires Outstanding(t.control) ==> Outstanding(sys.base.control) && t.control.p == sys.base.control.p
    ensures OneStepInv(u, sys.(base := t))
  {
  }

  lemma StepInv(u: Setup, sys: System, step: Step)
    requires WellPosed(u) && OneStepInv(u, sys) && CanStep(u, sys, step) && QueueInv(u.config, sys.base)
    ensures OneStepInv(u, Proceed(u, sys, step))
  {
    match step
    case Predict(p) => PredictStep(u, sys, p);
    case Begin => BeginStep(u, sys);
    case _ => QuietStep(u, sys, step);
  }

  lemma {:induction false} SystemInv(u: Setup, clock: int, steps: seq<Step>)
    requires WellPosed(u) && IsSystemRun(u, clock, steps)
    ensures OneStepInv(u, SystemAfter(u, clock, steps))
    ensures QueueInv(u.config, SystemAfter(u, clock, steps).base)
  {
    SystemRunIsRun(u, clock, steps);
    RunInv(u.config, clock, steps);
    if steps != [] {
      var n := |steps| - 1;
      SystemInv(u, clock, steps[..n]);
      StepInv(u, SystemAfter(u, clock, steps[..n]), steps[n]);
    }
  }

  /** Every step that the model made was delivered, or is on offer, or was forgotten because
      of an external event without inputs. A new step is made only when none is on offer. If
      all external events set inputs, steps wait for the delivery of the one before. */
  lemma StepsWaitForDelivery(u: Setup, clock: int, steps: seq<Step>)
    requires WellPosed(u) && IsSystemRun(u, clock, steps)
    ensures var sys := SystemAfter(u, clock, steps);
            && sys.made == sys.delivered + Dropped(u, sys.base.history) + (if sys.model.cache.Some? then 1 else 0)
            && (sys.model.cache.None? <==> sys.made == sys.delivered + Dropped(u, sys.base.history))
  {
    SystemInv(u, clock, steps);
  }

  /** As long as no event without inputs is distributed, the predictor repeats itself: all
      its predictions have the same time and the same values. */
  lemma PredictionsRepeat(u: Setup, clock: int, steps: seq<Step>, i: nat, j: nat)
    requires WellPosed(u) && IsSystemRun(u, clock, steps)
    requires var h := SystemAfter(u, clock, steps).base.history;
             && i < j < |h| && IsPredictedRegistration(h[i]) && IsPredictedRegistration(h[j])
             && forall k :: i < k < j ==> !Clears(u, h[k])
    ensures var h := SystemAfter(u, clock, steps).base.history;
            h[i].entry.ev.time == h[j].entry.ev.time && h[i].entry.ev.vars == h[j].entry.ev.vars
    decreases |steps|
  {
    var n := |steps| - 1;
    var before := SystemAfter(u, clock, steps[..n]);
    var (h, h') := (before.base.history, SystemAfter(u, clock, steps).base.history);
    SystemInv(u, clock, steps[..n]);
    HistoryGrows(u.config, before.base, steps[n]);
    if j < |h| {
      PredictionsRepeat(u, clock, steps[..n], i, j);
    } else {
      assert steps[n].Predict? && j == |h|;
      InSinceCleared(u, h, i);
    }
  }

  lemma HistoryGrows(c: Config, s: State, step: Step)
    requires Enabled(s, step)
    ensures var h := Apply(c, s, step).history;
            && s.history <= h
            && (forall i :: |s.history| <= i < |h| && IsPredictedRegistration(h[i]) ==>
                  step.Predict? && i == |s.history| && h[i].entry.ev == step.prediction)
  {
  }

  lemma {:induction false} InSinceCleared(u: Setup, history: seq<Action>, i: nat)
    requires i < |history| && IsPredictedRegistration(history[i])
    requires forall k :: i < k < |history| ==> !Clears(u, history[k])
    ensures history[i].entry.ev in SinceCleared(u, history)
  {
    if i < |history| - 1 {
      InSinceCleared(u, history[..|history| - 1], i);
    }
  }
}
