/** Which external events may occur so that suppressing model events that change nothing
    never hides a change from the listeners. */
module OneStepSuppression {
  import opened Fmi
  import opened TimeConversion
  import opened TimedQueue
  import opened Dispatcher
  import opened DispatcherProofs
  import opened OneStepPredictor
  import opened OneStepRuns

  /** The event sets an input, or it ends the simulation. */
  predicate IsHarmless(u: Setup, e: Event) {
    Touches(e, u.inputs) || e.time >= u.config.stopTime
  }

  ghost predicate RegistersOnly(steps: seq<Step>, allowed: Event -> bool) {
    forall i :: 0 <= i < |steps| && steps[i].Register? ==> allowed(steps[i].external)
  }

  /** The last non-empty model event that the listeners have seen, or the initial outputs,
      equals what was fetched after the latest delivered step. */
  predicate IsLossless(u: Setup, sys: System) {
    LastShown(u, sys.base.history) == sys.settled
  }

  // ----- harmless events lose nothing

  /** The last event is distributed, or about to be the last one. */
  predicate IsLast(u: Setup, control: Control) {
    control.Stopped? || (control.Notifying? && control.next.ev.time >= u.config.stopTime)
  }

  ghost predicate ExternalsAreHarmless(u: Setup, s: State) {
    && (forall e :: e in s.pending || e in s.queue ==> e.predicted || IsHarmless(u, e.ev))
    && (s.control.Holding? || s.control.Notifying? ==> s.control.next.predicted || IsHarmless(u, s.control.next.ev))
  }

  ghost predicate LosslessInv(u: Setup, sys: System) {
    && IsLossless(u, sys) && ExternalsAreHarmless(u, sys.base)
    && (!IsLast(u, sys.base.control) ==>
          if sys.model.cache.None? then sys.model.image == sys.settled
          else |sys.model.image| == |u.ids| && sys.model.cache.value.vars == Changes(u.ids, sys.settled, sys.model.image))
  }

  lemma StepKeepsHarmless(u: Setup, s: State, step: Step)
    requires Enabled(s, step) && QueueInv(u.config, s) && ExternalsAreHarmless(u, s)
    requires step.Register? ==> IsHarmless(u, step.external)
    ensures ExternalsAreHarmless(u, Apply(u.config, s, step))
  {
    if step.AddPrediction? {
      InsertQueue(u.config, s, Entry(s.control.p, true));
    } else if step.AddExternal? {
      var e := Entry(step.external, false);
      InsertQueue(u.config, s.(pending := s.pending - {e}), e);
    }
  }

  lemma LosslessPredict(u: Setup, sys: System, p: Event)
    requires OneStepInv(u, sys) && LosslessInv(u, sys) && CanStep(u, sys, Predict(p)) && QueueInv(u.config, sys.base)
    ensures LosslessInv(u, Proceed(u, sys, Predict(p)))
  {
    StepKeepsHarmless(u, sys.base, Predict(p));
    HistoryStep(u, sys.base.history, Action(Registered, Entry(p, true), sys.base.clock));
  }

  lemma LosslessBegin(u: Setup, sys: System)
    requires WellPosed(u) && OneStepInv(u, sys) && LosslessInv(u, sys)
    requires CanStep(u, sys, Begin) && QueueInv(u.config, sys.base)
    ensures LosslessInv(u, Proceed(u, sys, Begin))
  {
    var e := sys.base.control.next;
    StepKeepsHarmless(u, sys.base, Begin);
    HistoryStep(u, sys.base.history, Action(Begun, e, sys.base.clock));
    if e.predicted {
      ModelEventsSetNoInput(u, e.ev, sys.model.image);
      assert e.ev.vars != [] ==> Contents(e.ev.vars) == sys.model.image;
    }
  }

  lemma LosslessStep(u: Setup, sys: System, step: Step)
    requires WellPosed(u) && OneStepInv(u, sys) && LosslessInv(u, sys)
    requires CanStep(u, sys, step) && QueueInv(u.config, sys.base)
    requires step.Register? ==> IsHarmless(u, step.external)
    ensures LosslessInv(u, Proceed(u, sys, step))
  {
    match step
    case Predict(p) => LosslessPredict(u, sys, p);
    case Begin => LosslessBegin(u, sys);
    case _ =>
      QuietHistory(u, sys.base, step);
      StepKeepsHarmless(u, sys.base, step);
  }

  lemma {:induction false} LosslessRun(u: Setup, clock: int, steps: seq<Step>)
    requires WellPosed(u) && IsSystemRun(u, clock, steps) && RegistersOnly(steps, e => IsHarmless(u, e))
    ensures LosslessInv(u, SystemAfter(u, clock, steps))
  {
    if steps != [] {
      var n := |steps| - 1;
      assert forall i :: 0 <= i < n ==> steps[..n][i] == steps[i];
      LosslessRun(u, clock, steps[..n]);
      SystemInv(u, clock, steps[..n]);
      LosslessStep(u, SystemAfter(u, clock, steps[..n]), steps[n]);
    }
  }

  /** If every external event sets an input or ends the simulation, suppressing events that
      change nothing is lossless. */
  lemma SuppressionIsLossless(u: Setup, clock: int, steps: seq<Step>)
    requires WellPosed(u) && IsSystemRun(u, clock, steps) && RegistersOnly(steps, e => IsHarmless(u, e))
    ensures IsLossless(u, SystemAfter(u, clock, steps))
  {
    LosslessRun(u, clock, steps);
  }

  // ----- any other event can hide a change

  /** A value of the same type that differs. */
  function Other(value: Value): (other: Value)
    ensures other != value && TypeOf(other) == TypeOf(value)
  {
    match value
    case RealValue(bits) => RealValue(if bits == 0 then 1 else 0)
    case IntegerValue(n) => IntegerValue(if n == 0 then 1 else 0)
    case BooleanValue(flag) => BooleanValue(if flag == 0 then 1 else 0)
    case StringValue(chars) => StringValue(if chars == [] then [0] else [])
  }

  predicate RegistersJust(steps: seq<Step>, e: Event) {
    forall i :: 0 <= i < |steps| && steps[i].Register? ==> steps[i].external == e
  }

  lemma OneMoreStep(u: Setup, clock: int, steps: seq<Step>, step: Step) returns (longer: seq<Step>)
    requires IsSystemRun(u, clock, steps) && CanStep(u, SystemAfter(u, clock, steps), step)
    ensures longer == steps + [step] && IsSystemRun(u, clock, longer)
    ensures SystemAfter(u, clock, longer) == Proceed(u, SystemAfter(u, clock, steps), step)
    ensures forall e :: RegistersJust(steps, e) && (step.Register? ==> step.external == e) ==> RegistersJust(longer, e)
  {
    longer := steps + [step];
    assert longer[..|steps|] == steps;
  }

  predicate IsAbout(history: seq<Action>, entries: set<Entry>) {
    forall i :: 0 <= i < |history| ==> history[i].entry in entries
  }

  lemma {:induction false} OthersAreNew(history: seq<Action>, entries: set<Entry>, e: Entry)
    requires IsAbout(history, entries) && e !in entries
    ensures PhaseOf(history, e) == New
  {
    if history != [] {
      OthersAreNew(history[..|history| - 1], entries, e);
    }
  }

  /** Where a run has got to: nothing is pending, and no change has been shown. */
  predicate IsAt(u: Setup, sys: System, control: Control, queue: seq<Entry>, model: Model, entries: set<Entry>) {
    && sys.base.control == control && sys.base.queue == queue && sys.base.pending == {} && sys.model == model
    && IsAbout(sys.base.history, entries) && LastShown(u, sys.base.history) == u.outputs
  }

  lemma PredictAt(u: Setup, sys: System, model: Model, entries: set<Entry>, p: Event)
    requires IsAt(u, sys, Predicting, [], model, entries) && IsPrediction(u, model, p) && Entry(p, true) !in entries
    ensures CanStep(u, sys, Predict(p))
    ensures IsAt(u, Proceed(u, sys, Predict(p)), Adding(p), [],
                 PredictNext(u.ids, model, p.time, Fetched(model.image, p)), entries + {Entry(p, true)})
  {
    OthersAreNew(sys.base.history, entries, Entry(p, true));
    HistoryStep(u, sys.base.history, Action(Registered, Entry(p, true), sys.base.clock));
  }

  lemma AddPredictionAt(u: Setup, sys: System, model: Model, entries: set<Entry>, p: Event)
    requires IsAt(u, sys, Adding(p), [], model, entries) && Entry(p, true) in entries
    ensures IsAt(u, Proceed(u, sys, AddPrediction), Checking(p), [Entry(p, true)], model, entries)
  {
    QuietHistory(u, sys.base, AddPrediction);
    assert Add(u.config.eps, [], Entry(p, true)) == Insertion([Entry(p, true)], [], true);
  }

  /** The dispatcher asks for a prediction and adds it to an empty queue. */
  lemma OfferStep(u: Setup, clock: int, steps: seq<Step>, model: Model, entries: set<Entry>, p: Event)
    returns (longer: seq<Step>)
    requires IsSystemRun(u, clock, steps) && IsAt(u, SystemAfter(u, clock, steps), Predicting, [], model, entries)
    requires IsPrediction(u, model, p) && Entry(p, true) !in entries
    ensures IsSystemRun(u, clock, longer) && forall e :: RegistersJust(steps, e) ==> RegistersJust(longer, e)
    ensures IsAt(u, SystemAfter(u, clock, longer), Checking(p), [Entry(p, true)],
                 PredictNext(u.ids, model, p.time, Fetched(model.image, p)), entries + {Entry(p, true)})
    ensures SystemAfter(u, clock, longer).settled == SystemAfter(u, clock, steps).settled
  {
    PredictAt(u, SystemAfter(u, clock, steps), model, entries, p);
    var once := OneMoreStep(u, clock, steps, Predict(p));
    AddPredictionAt(u, SystemAfter(u, clock, once), PredictNext(u.ids, model, p.time, Fetched(model.image, p)),
                    entries + {Entry(p, true)}, p);
    longer := OneMoreStep(u, clock, once, AddPrediction);
  }

  /** The external event is on its way to the queue. */
  lemma RegisterAt(u: Setup, sys: System, model: Model, entries: set<Entry>, p: Event, queue: seq<Entry>, e: Event)
    requires IsAt(u, sys, Checking(p), queue, model, entries) && Entry(e, false) !in entries
    ensures CanStep(u, sys, Register(e))
    ensures var t := Proceed(u, sys, Register(e));
            && t.base.pending == {Entry(e, false)}
            && IsAt(u, t.(base := t.base.(pending := {})), Checking(p), queue, model, entries + {Entry(e, false)})
  {
    OthersAreNew(sys.base.history, entries, Entry(e, false));
    QuietHistory(u, sys.base, Register(e));
  }

  lemma AddExternalAt(u: Setup, sys: System, model: Model, entries: set<Entry>, p: Event, e: Event)
    requires sys.base.pending == {Entry(e, false)} && Entry(p, true) in entries && Entry(e, false) in entries
    requires IsAt(u, sys.(base := sys.base.(pending := {})), Checking(p), [Entry(p, true)], model, entries)
    requires p.time > e.time + u.config.eps
    ensures IsAt(u, Proceed(u, sys, AddExternal(e)), Checking(p), [Entry(e, false)], model, entries)
  {
    QuietHistory(u, sys.base, AddExternal(e));
    assert [Entry(p, true)][1..] == [];
    assert Add(u.config.eps, [Entry(p, true)], Entry(e, false)) == Insertion([Entry(e, false)], [Entry(p, true)], true);
  }

  /** An external event arrives before the prediction and makes it obsolete. */
  lemma OvertakeStep(u: Setup, clock: int, steps: seq<Step>, model: Model, entries: set<Entry>, p: Event, e: Event)
    returns (longer: seq<Step>)
    requires IsSystemRun(u, clock, steps)
    requires IsAt(u, SystemAfter(u, clock, steps), Checking(p), [Entry(p, true)], model, entries)
    requires Entry(p, true) in entries && Entry(e, false) !in entries && p.time > e.time + u.config.eps
    ensures IsSystemRun(u, clock, longer) && (RegistersJust(steps, e) ==> RegistersJust(longer, e))
    ensures IsAt(u, SystemAfter(u, clock, longer), Checking(p), [Entry(e, false)], model, entries + {Entry(e, false)})
    ensures SystemAfter(u, clock, longer).settled == SystemAfter(u, clock, steps).settled
  {
    RegisterAt(u, SystemAfter(u, clock, steps), model, entries, p, [Entry(p, true)], e);
    var once := OneMoreStep(u, clock, steps, Register(e));
    AddExternalAt(u, SystemAfter(u, clock, once), model, entries + {Entry(e, false)}, p, e);
    longer := OneMoreStep(u, clock, once, AddExternal(e));
  }

  /** Time passes until the only event in the queue is due. */
  lemma TickAt(u: Setup, sys: System, model: Model, entries: set<Entry>, p: Event, x: Entry) returns (step: Step)
    requires IsAt(u, sys, Checking(p), [x], model, entries)
    ensures step.Tick? && CanStep(u, sys, step)
    ensures var t := Proceed(u, sys, step);
            IsAt(u, t, Checking(p), [x], model, entries) && !IsFuture(t.base.epoch, t.base.clock, x.ev.time)
  {
    var due := SystemTime(sys.base.epoch, x.ev.time);
    step := Tick(if sys.base.clock < due then due else sys.base.clock);
  }

  lemma CheckAt(u: Setup, sys: System, model: Model, entries: set<Entry>, p: Event, x: Entry)
    requires IsAt(u, sys, Checking(p), [x], model, entries) && x in entries
    requires !IsFuture(sys.base.epoch, sys.base.clock, x.ev.time)
    ensures IsAt(u, Proceed(u, sys, Check), Holding(p, x), [], model, entries)
  {
    QuietHistory(u, sys.base, Check);
  }

  lemma DeliverStep(u: Setup, clock: int, steps: seq<Step>, model: Model, entries: set<Entry>, p: Event, x: Entry)
    returns (longer: seq<Step>)
    requires IsSystemRun(u, clock, steps)
    requires IsAt(u, SystemAfter(u, clock, steps), Checking(p), [x], model, entries) && x in entries
    ensures IsSystemRun(u, clock, longer) && forall e :: RegistersJust(steps, e) ==> RegistersJust(longer, e)
    ensures IsAt(u, SystemAfter(u, clock, longer), Holding(p, x), [], model, entries)
    ensures SystemAfter(u, clock, longer).settled == SystemAfter(u, clock, steps).settled
  {
    var tick := TickAt(u, SystemAfter(u, clock, steps), model, entries, p, x);
    var once := OneMoreStep(u, clock, steps, tick);
    CheckAt(u, SystemAfter(u, clock, once), model, entries, p, x);
    longer := OneMoreStep(u, clock, once, Check);
  }

  lemma BeginAt(u: Setup, sys: System, model: Model, entries: set<Entry>, p: Event, x: Entry)
    requires IsAt(u, sys, Holding(p, x), [], model, entries) && x in entries
    requires !Touches(x.ev, u.inputs) && (x.predicted ==> x.ev.vars == [])
    ensures var t := Proceed(u, sys, Begin);
            && IsAt(u, t, Notifying(p, x), [], model.(cache := None), entries)
            && t.settled == if x.predicted then model.image else sys.settled
  {
    HistoryStep(u, sys.base.history, Action(Begun, x, sys.base.clock));
  }

  lemma BeginDistribution(u: Setup, clock: int, steps: seq<Step>, model: Model, entries: set<Entry>, p: Event, x: Entry)
    returns (longer: seq<Step>)
    requires IsSystemRun(u, clock, steps) && x in entries
    requires IsAt(u, SystemAfter(u, clock, steps), Holding(p, x), [], model, entries)
    requires !Touches(x.ev, u.inputs) && (x.predicted ==> x.ev.vars == [])
    ensures IsSystemRun(u, clock, longer) && forall e :: RegistersJust(steps, e) ==> RegistersJust(longer, e)
    ensures IsAt(u, SystemAfter(u, clock, longer), Notifying(p, x), [], model.(cache := None), entries)
    ensures SystemAfter(u, clock, longer).settled
         == if x.predicted then model.image else SystemAfter(u, clock, steps).settled
  {
    BeginAt(u, SystemAfter(u, clock, steps), model, entries, p, x);
    longer := OneMoreStep(u, clock, steps, Begin);
  }

  lemma EndAt(u: Setup, sys: System, model: Model, entries: set<Entry>, p: Event, x: Entry)
    requires IsAt(u, sys, Notifying(p, x), [], model, entries) && x in entries && x.ev.time < u.config.stopTime
    ensures IsAt(u, Proceed(u, sys, End), Predicting, [], model, entries)
  {
    QuietHistory(u, sys.base, End);
  }

  lemma EndDistribution(u: Setup, clock: int, steps: seq<Step>, model: Model, entries: set<Entry>, p: Event, x: Entry)
    returns (longer: seq<Step>)
    requires IsSystemRun(u, clock, steps) && x in entries && x.ev.time < u.config.stopTime
    requires IsAt(u, SystemAfter(u, clock, steps), Notifying(p, x), [], model, entries)
    ensures IsSystemRun(u, clock, longer) && forall e :: RegistersJust(steps, e) ==> RegistersJust(longer, e)
    ensures IsAt(u, SystemAfter(u, clock, longer), Predicting, [], model, entries)
    ensures SystemAfter(u, clock, longer).settled == SystemAfter(u, clock, steps).settled
  {
    EndAt(u, SystemAfter(u, clock, steps), model, entries, p, x);
    longer := OneMoreStep(u, clock, steps, End);
  }

  /** The model makes a step that changes its outputs, but the event comes first. */
  lemma OvertakenOffer(u: Setup, clock: int, e: Event, values: seq<Value>, p: Event) returns (steps: seq<Step>)
    requires |u.outputs| == |u.ids| == |values| && values != u.outputs
    requires p.vars == Pair(u.ids, values) && p.vars != [] && p.time > e.time + u.config.eps
    ensures IsSystemRun(u, clock, steps) && RegistersJust(steps, e)
    ensures IsAt(u, SystemAfter(u, clock, steps), Checking(p), [Entry(e, false)],
                 Model(p.time, values, Some(Prediction(p.time, p.vars))), {Entry(p, true), Entry(e, false)})
  {
    assert IsSystemRun(u, clock, []);
    var start := OneMoreStep(u, clock, [], Start(0.0));
    var model := Model(u.start, u.outputs, None);
    assert Contents(p.vars) == values;
    var offered := OfferStep(u, clock, start, model, {}, p);
    assert {} + {Entry(p, true)} == {Entry(p, true)};
    steps := OvertakeStep(u, clock, offered, Model(p.time, values, Some(Prediction(p.time, p.vars))),
                          {Entry(p, true)}, p, e);
    assert {Entry(p, true)} + {Entry(e, false)} == {Entry(p, true), Entry(e, false)};
  }

  /** The event is distributed, and the predictor forgets the step. */
  lemma ForgottenStep(u: Setup, clock: int, e: Event, values: seq<Value>, p: Event) returns (steps: seq<Step>)
    requires !IsHarmless(u, e) && |u.outputs| == |u.ids| == |values| && values != u.outputs
    requires p.vars == Pair(u.ids, values) && p.vars != [] && p.time > e.time + u.config.eps
    ensures IsSystemRun(u, clock, steps) && RegistersJust(steps, e)
    ensures IsAt(u, SystemAfter(u, clock, steps), Predicting, [], Model(p.time, values, None),
                 {Entry(p, true), Entry(e, false)})
  {
    var (x, entries) := (Entry(e, false), {Entry(p, true), Entry(e, false)});
    var stepped := Model(p.time, values, Some(Prediction(p.time, p.vars)));
    var overtaken := OvertakenOffer(u, clock, e, values, p);
    var held := DeliverStep(u, clock, overtaken, stepped, entries, p, x);
    var begun := BeginDistribution(u, clock, held, stepped, entries, p, x);
    steps := EndDistribution(u, clock, begun, stepped.(cache := None), entries, p, x);
  }

  /** The next step changes nothing more, so an empty event is offered and distributed. */
  lemma EmptyOffer(u: Setup, clock: int, steps: seq<Step>, model: Model, entries: set<Entry>, q: Event)
    returns (longer: seq<Step>)
    requires IsSystemRun(u, clock, steps) && IsAt(u, SystemAfter(u, clock, steps), Predicting, [], model, entries)
    requires model.cache.None? && |model.image| == |u.ids| && q.vars == [] && Entry(q, true) !in entries
    ensures IsSystemRun(u, clock, longer) && forall e :: RegistersJust(steps, e) ==> RegistersJust(longer, e)
    ensures LastShown(u, SystemAfter(u, clock, longer).base.history) == u.outputs
    ensures SystemAfter(u, clock, longer).settled == model.image
  {
    var (x, all) := (Entry(q, true), entries + {Entry(q, true)});
    var stepped := Model(q.time, model.image, Some(Prediction(q.time, [])));
    var offered := OfferStep(u, clock, steps, model, entries, q);
    var held := DeliverStep(u, clock, offered, stepped, all, q, x);
    longer := BeginDistribution(u, clock, held, stepped, all, q, x);
  }

  /** Why the condition is needed: after any other event, a run goes on in which the outputs
      have changed, but the listeners are told that nothing has. */
  lemma ChangesGetLost(u: Setup, clock: int, e: Event) returns (steps: seq<Step>)
    requires WellPosed(u) && u.ids != [] && !IsHarmless(u, e)
    ensures IsSystemRun(u, clock, steps) && RegistersJust(steps, e)
    ensures !IsLossless(u, SystemAfter(u, clock, steps))
  {
    var values := u.outputs[0 := Other(u.outputs[0])];
    assert values[0] != u.outputs[0];
    var p := Event(0, e.time + u.config.eps + 1.0, Pair(u.ids, values));
    var q := Event(1, p.time + 1.0, []);
    var forgotten := ForgottenStep(u, clock, e, values, p);
    steps := EmptyOffer(u, clock, forgotten, Model(p.time, values, None), {Entry(p, true), Entry(e, false)}, q);
  }

  // ----- the condition

  /** Without outputs there is nothing to lose. */
  lemma NoOutputsNoLoss(u: Setup, clock: int, steps: seq<Step>)
    requires WellPosed(u) && u.ids == [] && IsSystemRun(u, clock, steps)
    ensures IsLossless(u, SystemAfter(u, clock, steps))
  {
    SystemInv(u, clock, steps);
  }

  ghost predicate AreLossless(u: Setup, allowed: Event -> bool) {
    forall clock, steps :: IsSystemRun(u, clock, steps) && RegistersOnly(steps, allowed) ==>
      IsLossless(u, SystemAfter(u, clock, steps))
  }

  ghost predicate AreHarmless(u: Setup, allowed: Event -> bool) {
    forall e :: allowed(e) ==> IsHarmless(u, e)
  }

  /** Suppression is lossless in every run with the allowed external events if and only if
      each of them sets an input or ends the simulation, or the model has no outputs. */
  lemma LosslessExactlyWithInputs(u: Setup, allowed: Event -> bool)
    requires WellPosed(u)
    ensures AreLossless(u, allowed) <==> u.ids == [] || AreHarmless(u, allowed)
  {
    if u.ids == [] {
      forall clock, steps | IsSystemRun(u, clock, steps) && RegistersOnly(steps, allowed)
        ensures IsLossless(u, SystemAfter(u, clock, steps))
      {
        NoOutputsNoLoss(u, clock, steps);
      }
    } else if AreHarmless(u, allowed) {
      forall clock, steps | IsSystemRun(u, clock, steps) && RegistersOnly(steps, allowed)
        ensures IsLossless(u, SystemAfter(u, clock, steps))
      {
        SuppressionIsLossless(u, clock, steps);
      }
    } else {
      var e :| allowed(e) && !IsHarmless(u, e);
      var steps := ChangesGetLost(u, 0, e);
      assert RegistersOnly(steps, allowed);
    }
  }
}
