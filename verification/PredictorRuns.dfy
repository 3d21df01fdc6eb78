/** The dispatcher with the multi-step predictor as its model. A solver error ends a run;
    everything below holds up to that point. */
module PredictorRuns {
  import opened Fmi
  import opened TimedQueue
  import opened Dispatcher
  import opened DispatcherProofs
  import opened EventPredictor

  /** Input and output ports are disjoint because both mappings draw them from one source. */
  datatype Setup = Setup(config: Config, settings: Settings, inputs: set<PortID>, outputs: set<PortID>, start: real)

  /** `lazy` says whether the prediction of the current iteration is a lazy event. */
  datatype System = System(base: State, model: Model, lazy: bool)

  ghost predicate WellPosed(u: Setup) {
    u.inputs !! u.outputs && 0.0 <= u.start
  }

  function Initial(u: Setup, clock: int): System {
    System(InitialState(clock), Model(u.start, u.start, false, false), false)
  }

  /** The variables of an event that was made from the model's outputs. */
  predicate CarriesOutputs(u: Setup, ev: Event) {
    forall i :: 0 <= i < |ev.vars| ==> ev.vars[i].port in u.outputs
  }

  /** The prediction is what the predictor makes of the solver's answer. */
  predicate IsPrediction(u: Setup, m: Model, p: Event) {
    CarriesOutputs(u, p) &&
    if PredictsDirectly(u.settings, m) then p.time == m.current else m.current <= p.time
  }

  predicate CanStep(u: Setup, sys: System, step: Step) {
    Enabled(sys.base, step) && (step.Predict? ==> IsPrediction(u, sys.model, step.prediction))
  }

  /** The predictor is the first listener. It reads a lazy event, which settles the state,
      and is triggered if the event sets one of its inputs. */
  function Listen(u: Setup, m: Model, e: Entry, lazy: bool): Model {
    var read := if e.predicted && lazy then Settle(m) else m;
    if Touches(e.ev, u.inputs) then Trigger(u.settings, read, e.ev.time) else read
  }

  function Step(u: Setup, sys: System, step: Step): System
    requires CanStep(u, sys, step)
  {
    var base := Apply(u.config, sys.base, step);
    match step
    case Predict(p) =>
      System(base, PredictNext(u.settings, sys.model, p.time), !PredictsDirectly(u.settings, sys.model))
    case Begin => System(base, Listen(u, sys.model, sys.base.control.next, sys.lazy), sys.lazy)
    case _ => System(base, sys.model, sys.lazy)
  }

  predicate IsSystemRun(u: Setup, clock: int, steps: seq<Step>)
    decreases |steps|, 0
  {
    steps == [] ||
    var n := |steps| - 1;
    IsSystemRun(u, clock, steps[..n]) && CanStep(u, SystemAfter(u, clock, steps[..n]), steps[n])
  }

  function SystemAfter(u: Setup, clock: int, steps: seq<Step>): System
    requires IsSystemRun(u, clock, steps)
    decreases |steps|, 1
  {
    if steps == [] then Initial(u, clock)
    else Step(u, SystemAfter(u, clock, steps[..|steps| - 1]), steps[|steps| - 1])
  }

  lemma {:induction false} SystemRunIsRun(u: Setup, clock: int, steps: seq<Step>)
    requires IsSystemRun(u, clock, steps)
    ensures IsRun(u.config, clock, steps)
    ensures StateAfter(u.config, clock, steps) == SystemAfter(u, clock, steps).base
  {
    if steps != [] {
      SystemRunIsRun(u, clock, steps[..|steps| - 1]);
    }
  }

  predicate Outstanding(control: Control) {
    control.Adding? || control.Checking? || control.Waiting? || control.Holding?
  }

  ghost predicate ModelInv(u: Setup, sys: System) {
    var (m, control) := (sys.model, sys.base.control);
    && 0.0 <= m.current <= m.lastPredicted
    && (m.populated ==> m.current == m.lastPredicted)
    && (m.directPending ==> m.current == m.lastPredicted && !m.populated)
    && (Outstanding(control) ==>
          && CarriesOutputs(u, control.p) && !m.directPending
          && (if sys.lazy then control.p.time == m.lastPredicted && !m.populated
              else control.p.time == m.current == m.lastPredicted))
    && (control.Notifying? && control.next.predicted && sys.lazy ==>
          control.next.ev.time == m.current && m.populated)
  }

  lemma OutputsAreNoInputs(u: Setup, ev: Event)
    requires WellPosed(u) && CarriesOutputs(u, ev)
    ensures !Touches(ev, u.inputs)
  {
  }

  lemma StepModelInv(u: Setup, sys: System, step: Step)
    requires WellPosed(u) && CanStep(u, sys, step)
    requires QueueInv(u.config, sys.base) && ModelInv(u, sys)
    ensures ModelInv(u, Step(u, sys, step))
    ensures sys.model.current <= Step(u, sys, step).model.current
  {
    if step.Begin? && sys.base.control.next.predicted {
      OutputsAreNoInputs(u, sys.base.control.p);
    }
  }

  lemma {:induction false} SystemInv(u: Setup, clock: int, steps: seq<Step>)
    requires WellPosed(u) && IsSystemRun(u, clock, steps)
    ensures ModelInv(u, SystemAfter(u, clock, steps))
    ensures QueueInv(u.config, SystemAfter(u, clock, steps).base)
  {
    SystemRunIsRun(u, clock, steps);
    RunInv(u.config, clock, steps);
    if steps != [] {
      var n := |steps| - 1;
      SystemInv(u, clock, steps[..n]);
      StepModelInv(u, SystemAfter(u, clock, steps[..n]), steps[n]);
    }
  }

  /** Whenever the dispatcher is about to hand out a lazy event, it is the latest one that
      was predicted: reading it cannot report an outdated event, none of the assertions of
      the query fails, and the same holds for every later reader of the same event. */
  lemma LazyEventsAreNeverOutdated(u: Setup, clock: int, steps: seq<Step>)
    requires WellPosed(u) && IsSystemRun(u, clock, steps)
    ensures var sys := SystemAfter(u, clock, steps);
            var control := sys.base.control;
            (control.Holding? || control.Notifying?) && control.next.predicted && sys.lazy ==>
              && control.next.ev.time == sys.model.lastPredicted
              && !IsOutdated(u.settings, sys.model, control.next.ev.time)
              && MayQuery(u.settings, sys.model, control.next.ev.time)
              && (control.Notifying? ==> Settle(sys.model) == sys.model)
  {
    SystemInv(u, clock, steps);
  }

  /** The solver is asked to update its state to a time between the current one and the
      prediction, never beyond the latter. */
  lemma UpdatesStayWithinThePrediction(u: Setup, clock: int, steps: seq<Step>)
    requires WellPosed(u) && IsSystemRun(u, clock, steps)
    requires SystemAfter(u, clock, steps).base.control.Holding?
    ensures var sys := SystemAfter(u, clock, steps);
            var next := sys.base.control.next;
            && (Touches(next.ev, u.inputs) ==> !next.predicted)
            && sys.model.current <= Align(u.settings, sys.model.current, next.ev.time)
            && Align(u.settings, sys.model.current, next.ev.time) <= sys.model.lastPredicted
  {
    SystemInv(u, clock, steps);
    OutputsAreNoInputs(u, SystemAfter(u, clock, steps).base.control.p);
  }

  /** The model's clock as a function of the distributed events alone. */
  function Replay(u: Setup, history: seq<Action>): real {
    if history == [] then u.start
    else
      var n := |history| - 1;
      var before := Replay(u, history[..n]);
      var (stage, e) := (history[n].stage, history[n].entry);
      if stage != Begun then before
      else if e.predicted then e.ev.time
      else if Touches(e.ev, u.inputs) then Align(u.settings, before, e.ev.time)
      else before
  }

  lemma ReplaySkips(u: Setup, history: seq<Action>, more: seq<Action>)
    requires forall i :: 0 <= i < |more| ==> more[i].stage != Begun
    ensures Replay(u, history + more) == Replay(u, history)
  {
    if more == [] {
      assert history + more == history;
    } else {
      assert (history + more)[..|history + more| - 1] == history + more[..|more| - 1];
      ReplaySkips(u, history, more[..|more| - 1]);
    }
  }

  lemma ReplayBegun(u: Setup, history: seq<Action>, a: Action)
    requires a.stage == Begun
    ensures Replay(u, history + [a])
         == if a.entry.predicted then a.entry.ev.time
            else if Touches(a.entry.ev, u.inputs) then Align(u.settings, Replay(u, history), a.entry.ev.time)
            else Replay(u, history)
  {
    assert (history + [a])[..|history|] == history;
  }

  /** What a step other than Begin adds to the history does not concern the model. */
  lemma OnlyBeginBegins(c: Config, s: State, step: Step)
    requires Enabled(s, step) && !step.Begin?
    ensures var h := Apply(c, s, step).history;
            && s.history <= h
            && (forall i :: |s.history| <= i < |h| ==> h[i].stage != Begun)
  {
  }

  lemma StepReplay(u: Setup, sys: System, step: Step)
    requires WellPosed(u) && CanStep(u, sys, step)
    requires QueueInv(u.config, sys.base) && ModelInv(u, sys)
    requires sys.model.current == Replay(u, sys.base.history)
    ensures Step(u, sys, step).model.current == Replay(u, Step(u, sys, step).base.history)
  {
    var before := sys.base.history;
    if step.Begin? {
      ReplayBegun(u, before, Action(Begun, sys.base.control.next, sys.base.clock));
      OutputsAreNoInputs(u, sys.base.control.p);
    } else {
      OnlyBeginBegins(u.config, sys.base, step);
      var after := Apply(u.config, sys.base, step).history;
      assert after == before + after[|before|..];
      ReplaySkips(u, before, after[|before|..]);
    }
  }

  /** The model's clock depends only on what was distributed: predictions that were
      discarded leave no trace. */
  lemma {:induction false} DiscardedPredictionsLeaveNoTrace(u: Setup, clock: int, steps: seq<Step>)
    requires WellPosed(u) && IsSystemRun(u, clock, steps)
    ensures var sys := SystemAfter(u, clock, steps); sys.model.current == Replay(u, sys.base.history)
  {
    if steps != [] {
      var n := |steps| - 1;
      DiscardedPredictionsLeaveNoTrace(u, clock, steps[..n]);
      SystemInv(u, clock, steps[..n]);
      StepReplay(u, SystemAfter(u, clock, steps[..n]), steps[n]);
    }
  }

  /** The model's clock never runs backwards, even when late events arrive. */
  lemma {:induction false} ModelClockNeverRunsBackwards(u: Setup, clock: int, steps: seq<Step>, k: nat)
    requires WellPosed(u) && IsSystemRun(u, clock, steps) && k <= |steps|
    ensures IsSystemRun(u, clock, steps[..k])
    ensures SystemAfter(u, clock, steps[..k]).model.current <= SystemAfter(u, clock, steps).model.current
    decreases |steps|
  {
    if k == |steps| {
      assert steps[..k] == steps;
    } else {
      var n := |steps| - 1;
      assert steps[..n][..k] == steps[..k];
      ModelClockNeverRunsBackwards(u, clock, steps[..n], k);
      SystemInv(u, clock, steps[..n]);
      StepModelInv(u, SystemAfter(u, clock, steps[..n]), steps[n]);
    }
  }

  /** What a distribution does to the model. Its own event brings it to the event's time. An
      external event with an input brings it to that event's time if this is clearly after
      the current one; otherwise the model stays where it is. Other events, and all other
      steps of the threads, do not move it. */
  lemma DistributionMovesModel(u: Setup, clock: int, steps: seq<Step>)
    requires WellPosed(u) && steps != [] && IsSystemRun(u, clock, steps)
    ensures var n := |steps| - 1;
            var (before, after) := (SystemAfter(u, clock, steps[..n]).model, SystemAfter(u, clock, steps).model);
            if steps[n] != Begin then after.current == before.current
            else
              var next := SystemAfter(u, clock, steps[..n]).base.control.next;
              if next.predicted then after.current == next.ev.time
              else if exists i :: 0 <= i < |next.ev.vars| && next.ev.vars[i].port in u.inputs then
                && after.lastPredicted == after.current
                && after.current == if next.ev.time > before.current + u.settings.resolution then next.ev.time
                                    else before.current
              else after == before
  {
    var n := |steps| - 1;
    var sys := SystemAfter(u, clock, steps[..n]);
    SystemInv(u, clock, steps[..n]);
    if steps[n].Begin? && sys.base.control.next.predicted {
      OutputsAreNoInputs(u, sys.base.control.p);
    }
  }

  /** An external event with an input was distributed, and no prediction was made since. */
  function InputPending(u: Setup, history: seq<Action>): bool {
    if history == [] then false
    else
      var n := |history| - 1;
      var (stage, e) := (history[n].stage, history[n].entry);
      if stage == Begun && !e.predicted && Touches(e.ev, u.inputs) then true
      else if stage == Registered && e.predicted then false
      else InputPending(u, history[..n])
  }

  lemma InputPendingStep(u: Setup, history: seq<Action>, a: Action)
    ensures InputPending(u, history + [a])
         == if a.stage == Begun && !a.entry.predicted && Touches(a.entry.ev, u.inputs) then true
            else if a.stage == Registered && a.entry.predicted then false
            else InputPending(u, history)
  {
    assert (history + [a])[..|history|] == history;
  }

  lemma {:induction false} InputPendingSkips(u: Setup, history: seq<Action>, more: seq<Action>)
    requires forall i :: 0 <= i < |more| ==> more[i].stage != Begun && !(more[i].stage == Registered && more[i].entry.predicted)
    ensures InputPending(u, history + more) == InputPending(u, history)
  {
    if more == [] {
      assert history + more == history;
    } else {
      var n := |more| - 1;
      assert history + more == (history + more[..n]) + [more[n]];
      InputPendingSkips(u, history, more[..n]);
      InputPendingStep(u, history + more[..n], more[n]);
    }
  }

  lemma InsertIsQuiet(c: Config, s: State, entry: Entry)
    ensures var h := Insert(c, s, entry).history;
            s.history <= h && forall i :: |s.history| <= i < |h| ==> h[i].stage == Added || h[i].stage == Outdated
  {
  }

  lemma QuietSteps(c: Config, s: State, step: Step)
    requires Enabled(s, step) && !step.Begin? && !step.Predict?
    ensures var h := Apply(c, s, step).history;
            && s.history <= h
            && (forall i :: |s.history| <= i < |h| ==>
                  h[i].stage != Begun && !(h[i].stage == Registered && h[i].entry.predicted))
  {
    if step.AddPrediction? {
      InsertIsQuiet(c, s, Entry(s.control.p, true));
    } else if step.AddExternal? {
      InsertIsQuiet(c, s.(pending := s.pending - {Entry(step.external, false)}), Entry(step.external, false));
    }
  }

  lemma StepPending(u: Setup, sys: System, step: Step)
    requires WellPosed(u) && CanStep(u, sys, step) && QueueInv(u.config, sys.base) && ModelInv(u, sys)
    requires sys.model.directPending <==> InputPending(u, sys.base.history)
    ensures Step(u, sys, step).model.directPending <==> InputPending(u, Step(u, sys, step).base.history)
  {
    var h := sys.base.history;
    if step.Predict? {
      InputPendingStep(u, h, Action(Registered, Entry(step.prediction, true), sys.base.clock));
    } else if step.Begin? {
      InputPendingStep(u, h, Action(Begun, sys.base.control.next, sys.base.clock));
      OutputsAreNoInputs(u, sys.base.control.p);
    } else {
      QuietSteps(u.config, sys.base, step);
      var after := Apply(u.config, sys.base, step).history;
      assert after == h + after[|h|..];
      InputPendingSkips(u, h, after[|h|..]);
    }
  }

  /** If outputs are assumed to depend directly on inputs, the first prediction after an
      external event with an input is made at the current time of the model and already has
      its variables; all other predictions are the solver's. */
  lemma {:induction false} DirectOutputsFollowInputs(u: Setup, clock: int, steps: seq<Step>)
    requires WellPosed(u) && IsSystemRun(u, clock, steps)
    ensures var sys := SystemAfter(u, clock, steps); sys.model.directPending <==> InputPending(u, sys.base.history)
    ensures steps != [] && steps[|steps| - 1].Predict? ==>
              var (before, after) := (SystemAfter(u, clock, steps[..|steps| - 1]), SystemAfter(u, clock, steps));
              && (after.lazy <==> !(u.settings.assumeDirect && InputPending(u, before.base.history)))
              && (!after.lazy ==> steps[|steps| - 1].prediction.time == before.model.current)
              && (after.lazy ==> after.model.lastPredicted == steps[|steps| - 1].prediction.time)
  {
    if steps != [] {
      var n := |steps| - 1;
      DirectOutputsFollowInputs(u, clock, steps[..n]);
      SystemInv(u, clock, steps[..n]);
      StepPending(u, SystemAfter(u, clock, steps[..n]), steps[n]);
    }
  }
}
