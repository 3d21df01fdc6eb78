/** The dispatcher object together with each of the predictor objects, driven along any
    schedule of the threads and any answers of the solver. */
module Simulation {
  import opened Fmi
  import opened Dispatcher
  import opened DispatcherProofs
  import opened EventLoop
  import Images
  import M = EventPredictor
  import MR = PredictorRuns
  import O = OneStepPredictor
  import OR = OneStepRuns

  // ----- the multi-step predictor

  ghost predicate AreInputs(inputIDs: seq<seq<PortID>>, inputs: set<PortID>) {
    forall port :: port in inputs <==> exists t :: 0 <= t < |inputIDs| && port in inputIDs[t]
  }

  lemma MentionsMeansTouches(inputIDs: seq<seq<PortID>>, inputs: set<PortID>, ev: Event)
    requires AreInputs(inputIDs, inputs)
    ensures Touches(ev, inputs) <==> exists t :: 0 <= t < |inputIDs| && Images.Mentions(ev.vars, inputIDs[t])
  {
    if Touches(ev, inputs) {
      var i :| 0 <= i < |ev.vars| && ev.vars[i].port in inputs;
      var t :| 0 <= t < |inputIDs| && ev.vars[i].port in inputIDs[t];
      assert Images.Mentions(ev.vars, inputIDs[t]);
    }
  }

  /** The objects stand for the state of the system, and the predictor can go on with it. */
  ghost predicate Represents(u: MR.Setup, dispatcher: EventDispatcher, predictor: M.Predictor, lazy: bool,
                             sys: MR.System)
    reads dispatcher, dispatcher.queue, predictor
  {
    && dispatcher.Configuration() == u.config && dispatcher.Represents(sys.base)
    && predictor.Valid() && predictor.settings == u.settings && AreInputs(predictor.inputIDs, u.inputs)
    && predictor.View() == sys.model && lazy == sys.lazy
  }

  /** The predictor's part of asking for a prediction. */
  method AskMultiStep(u: MR.Setup, dispatcher: EventDispatcher, predictor: M.Predictor, lazy: bool, p: Event,
                      ghost sys: MR.System) returns (lazy': bool)
    requires Represents(u, dispatcher, predictor, lazy, sys) && MR.IsPrediction(u, sys.model, p)
    modifies predictor
    ensures predictor.Valid() && predictor.View() == M.PredictNext(u.settings, sys.model, p.time)
    ensures lazy' <==> !M.PredictsDirectly(u.settings, sys.model)
  {
    var source := predictor.PredictNextEvent(Some(p.time), p.id, p.vars);
    assert source.value == if source.value.Lazy? then M.Lazy(p.time) else M.Static(p);
    lazy' := source.value.Lazy?;
  }

  /** The predictor's part of a distribution: reading the event and reacting to it succeed. */
  method TriggerMultiStep(u: MR.Setup, dispatcher: EventDispatcher, predictor: M.Predictor, lazy: bool,
                          ghost sys: MR.System)
    requires Represents(u, dispatcher, predictor, lazy, sys) && MR.WellPosed(u) && sys.base.control.Holding?
    requires MR.ModelInv(u, sys) && QueueInv(u.config, sys.base)
    modifies predictor
    ensures predictor.Valid() && predictor.View() == MR.Listen(u, sys.model, sys.base.control.next, sys.lazy)
  {
    var next := dispatcher.control.next;
    var source := if next.predicted && lazy then M.Lazy(next.ev.time) else M.Static(next.ev);
    MentionsMeansTouches(predictor.inputIDs, u.inputs, next.ev);
    var r := predictor.EventTriggered(source, predictor.lastPredicted, next.ev.vars);
  }

  method TakeMultiStep(u: MR.Setup, dispatcher: EventDispatcher, predictor: M.Predictor, lazy: bool, step: Step,
                       ghost sys: MR.System) returns (lazy': bool)
    requires Represents(u, dispatcher, predictor, lazy, sys) && MR.WellPosed(u) && MR.CanStep(u, sys, step)
    requires MR.ModelInv(u, sys) && Inv(u.config, sys.base)
    modifies dispatcher, dispatcher.queue, predictor
    ensures Represents(u, dispatcher, predictor, lazy', MR.Step(u, sys, step))
  {
    lazy' := lazy;
    if step.Predict? {
      lazy' := AskMultiStep(u, dispatcher, predictor, lazy, step.prediction, sys);
    } else if step.Begin? {
      TriggerMultiStep(u, dispatcher, predictor, lazy, sys);
    }
    dispatcher.Take(step, sys.base);
  }

  method SimulateMultiStep(u: MR.Setup, dispatcher: EventDispatcher, predictor: M.Predictor, schedule: seq<Step>)
    returns (lazy: bool)
    requires MR.WellPosed(u) && MR.IsSystemRun(u, dispatcher.clock, schedule)
    requires Represents(u, dispatcher, predictor, false, MR.Initial(u, dispatcher.clock))
    modifies dispatcher, dispatcher.queue, predictor
    ensures Represents(u, dispatcher, predictor, lazy, MR.SystemAfter(u, old(dispatcher.clock), schedule))
  {
    ghost var start := dispatcher.clock;
    assert schedule[..0] == [];
    lazy := false;
    var n := 0;
    while n < |schedule|
      invariant 0 <= n <= |schedule| && MR.IsSystemRun(u, start, schedule[..n])
      invariant Represents(u, dispatcher, predictor, lazy, MR.SystemAfter(u, start, schedule[..n]))
    {
      MultiStepPrefix(u, start, schedule, n + 1);
      assert schedule[..n + 1][..n] == schedule[..n];
      ghost var sys := MR.SystemAfter(u, start, schedule[..n]);
      MR.SystemInv(u, start, schedule[..n]);
      MR.SystemRunIsRun(u, start, schedule[..n]);
      RunInv(u.config, start, schedule[..n]);
      lazy := TakeMultiStep(u, dispatcher, predictor, lazy, schedule[n], sys);
      n := n + 1;
    }
    assert schedule[..n] == schedule;
  }

  lemma {:induction false} MultiStepPrefix(u: MR.Setup, clock: int, steps: seq<Step>, n: nat)
    requires MR.IsSystemRun(u, clock, steps) && n <= |steps|
    ensures MR.IsSystemRun(u, clock, steps[..n])
    decreases |steps|
  {
    if n == |steps| {
      assert steps[..n] == steps;
    } else {
      assert steps[..|steps| - 1][..n] == steps[..n];
      MultiStepPrefix(u, clock, steps[..|steps| - 1], n);
    }
  }

  // ----- the one-step predictor

  ghost predicate RepresentsOneStep(u: OR.Setup, dispatcher: EventDispatcher, predictor: O.Predictor, sys: OR.System)
    reads dispatcher, dispatcher.queue, predictor
  {
    && dispatcher.Configuration() == u.config && dispatcher.Represents(sys.base)
    && predictor.Valid() && predictor.outputIDs == u.ids && predictor.inputIDs == u.inputs
    && predictor.View() == sys.model
  }

  /** Every new step of the model reaches the end that the predictor has set for it. */
  ghost predicate StepsComplete(u: OR.Setup, predictor: O.Predictor, clock: int, steps: seq<Step>)
    requires OR.IsSystemRun(u, clock, steps)
  {
    steps == [] ||
    var n := |steps| - 1;
    StepsComplete(u, predictor, clock, steps[..n]) && Completes(predictor, OR.SystemAfter(u, clock, steps[..n]), steps[n])
  }

  predicate Completes(predictor: O.Predictor, sys: OR.System, step: Step) {
    step.Predict? && sys.model.cache.None? ==> predictor.EndsStep(sys.model.fmuTime, step.prediction.time)
  }

  /** Every single value that was fetched. */
  function Each(values: seq<Value>): (fetched: seq<Option<Value>>)
    ensures |fetched| == |values| && O.AreFetched(fetched) && O.ValuesOf(fetched) == values
  {
    seq(|values|, k requires 0 <= k < |values| => Some(values[k]))
  }

  method AskOneStep(u: OR.Setup, dispatcher: EventDispatcher, predictor: O.Predictor, p: Event, ghost sys: OR.System)
    requires RepresentsOneStep(u, dispatcher, predictor, sys) && OR.IsPrediction(u, sys.model, p)
    requires Completes(predictor, sys, Predict(p))
    modifies predictor
    ensures predictor.Valid()
    ensures predictor.View() == O.PredictNext(u.ids, sys.model, p.time, OR.Fetched(sys.model.image, p))
  {
    var answers := [Some(p.time)];
    assert predictor.cache.None? ==> predictor.IsLastAnswer(answers, predictor.fmuTime, 0);
    var offer, last := predictor.PredictNextEvent(answers, Each(OR.Fetched(predictor.image, p)));
    assert predictor.IsLastAnswer(answers, sys.model.fmuTime, last) ==> last == 0;
  }

  method TriggerOneStep(u: OR.Setup, dispatcher: EventDispatcher, predictor: O.Predictor, ghost sys: OR.System)
    requires RepresentsOneStep(u, dispatcher, predictor, sys) && sys.base.control.Holding?
    modifies predictor
    ensures predictor.Valid() && predictor.View() == O.Trigger(sys.model, u.inputs, sys.base.control.next.ev)
  {
    var ev := dispatcher.control.next.ev;
    var r := predictor.EventTriggered(ev, seq(|ev.vars|, i => true));
  }

  method TakeOneStep(u: OR.Setup, dispatcher: EventDispatcher, predictor: O.Predictor, step: Step, ghost sys: OR.System)
    requires RepresentsOneStep(u, dispatcher, predictor, sys) && OR.CanStep(u, sys, step) && Inv(u.config, sys.base)
    requires Completes(predictor, sys, step)
    modifies dispatcher, dispatcher.queue, predictor
    ensures RepresentsOneStep(u, dispatcher, predictor, OR.Proceed(u, sys, step))
  {
    if step.Predict? {
      AskOneStep(u, dispatcher, predictor, step.prediction, sys);
    } else if step.Begin? {
      TriggerOneStep(u, dispatcher, predictor, sys);
    }
    dispatcher.Take(step, sys.base);
  }

  method SimulateOneStep(u: OR.Setup, dispatcher: EventDispatcher, predictor: O.Predictor, schedule: seq<Step>)
    requires OR.IsSystemRun(u, dispatcher.clock, schedule)
    requires StepsComplete(u, predictor, dispatcher.clock, schedule)
    requires RepresentsOneStep(u, dispatcher, predictor, OR.Initial(u, dispatcher.clock))
    modifies dispatcher, dispatcher.queue, predictor
    ensures RepresentsOneStep(u, dispatcher, predictor, OR.SystemAfter(u, old(dispatcher.clock), schedule))
  {
    ghost var start := dispatcher.clock;
    assert schedule[..0] == [];
    var n := 0;
    while n < |schedule|
      invariant 0 <= n <= |schedule| && OR.IsSystemRun(u, start, schedule[..n])
      invariant RepresentsOneStep(u, dispatcher, predictor, OR.SystemAfter(u, start, schedule[..n]))
    {
      OneStepPrefix(u, predictor, start, schedule, n + 1);
      assert schedule[..n + 1][..n] == schedule[..n];
      ghost var sys := OR.SystemAfter(u, start, schedule[..n]);
      OR.SystemRunIsRun(u, start, schedule[..n]);
      RunInv(u.config, start, schedule[..n]);
      TakeOneStep(u, dispatcher, predictor, schedule[n], sys);
      n := n + 1;
    }
    assert schedule[..n] == schedule;
  }

  lemma {:induction false} OneStepPrefix(u: OR.Setup, predictor: O.Predictor, clock: int, steps: seq<Step>, n: nat)
    requires OR.IsSystemRun(u, clock, steps) && StepsComplete(u, predictor, clock, steps) && n <= |steps|
    ensures OR.IsSystemRun(u, clock, steps[..n]) && StepsComplete(u, predictor, clock, steps[..n])
    decreases |steps|
  {
    if n == |steps| {
      assert steps[..n] == steps;
    } else {
      assert steps[..|steps| - 1][..n] == steps[..n];
      OneStepPrefix(u, predictor, clock, steps[..|steps| - 1], n);
    }
  }
}
