/** What holds in every run, for every interleaving of the subscriber threads with the
    dispatcher, every tolerance and every prediction the model may come up with. */
module DispatcherTheorems {
  import opened Fmi
  import opened TimeConversion
  import opened TimedQueue
  import opened Dispatcher
  import opened DispatcherProofs

  /** At most one prediction is queued. It is the current one, it is at the front, and it is
      at most one tolerance after its neighbour and two after anything else. External events
      are in order up to one tolerance. Hence no assertion of an insertion can fail. */
  lemma QueueStaysOrdered(c: Config, clock: int, steps: seq<Step>)
    requires IsRun(c, clock, steps)
    ensures var s := StateAfter(c, clock, steps);
            && (forall i :: 0 <= i < |s.queue| && s.queue[i].predicted ==>
                  i == 0 && HoldsPrediction(s.control) && s.queue[i].ev == s.control.p)
            && (forall i, j :: 0 <= i < j < |s.queue| ==>
                  s.queue[i].ev.time <= s.queue[j].ev.time + (if s.queue[i].predicted then 2.0 * c.eps else c.eps))
            && (forall i :: 0 < i < |s.queue| ==> s.queue[i - 1].ev.time <= s.queue[i].ev.time + c.eps)
  {
    RunInv(c, clock, steps);
    var s := StateAfter(c, clock, steps);
    forall i, j | 0 <= i < j < |s.queue|
      ensures s.queue[i].ev.time <= s.queue[j].ev.time + (if s.queue[i].predicted then 2.0 * c.eps else c.eps)
    {
      OrderBounds(c.eps, s.queue, i, j);
    }
  }

  /** The dispatcher never queues a second prediction: removing a concurrent or a future one
      while adding a prediction is dead code in every run. The prediction goes to the front,
      or it is deleted because the front is more than the tolerance before it. */
  lemma PredictionsNeverMeet(c: Config, clock: int, steps: seq<Step>)
    requires IsRun(c, clock, steps) && StateAfter(c, clock, steps).control.Adding?
    ensures var s := StateAfter(c, clock, steps);
            var (p, q) := (Entry(s.control.p, true), s.queue);
            && (forall i :: 0 <= i < |q| ==> !q[i].predicted)
            && !FrontIsFuture(c.eps, q, p.ev.time) && !FrontIsConcurrent(c.eps, q, p.ev.time)
            && Apply(c, s, AddPrediction).queue
               == if q != [] && q[0].ev.time < p.ev.time - c.eps then q else [p] + q
  {
    RunInv(c, clock, steps);
    var s := StateAfter(c, clock, steps);
    AddFirstPrediction(c.eps, s.queue, Entry(s.control.p, true));
  }

  /** `get` never finds an empty queue, and what it hands out is the prediction of the
      iteration or an external event strictly before it. The model is never asked to step
      past its own prediction. */
  lemma GetDeliversPredictionOrEarlier(c: Config, clock: int, steps: seq<Step>)
    requires IsRun(c, clock, steps)
    ensures var s := StateAfter(c, clock, steps);
            && (s.control.Checking? ==> s.queue != [] && !Poll(s.queue, s.epoch, s.clock).WaitForEvent?)
            && (s.control.Waiting? ==> s.queue != [])
            && (s.control.Holding? || s.control.Notifying? ==>
                  s.control.next == Entry(s.control.p, true) ||
                  (!s.control.next.predicted && s.control.next.ev.time < s.control.p.time))
  {
    RunInv(c, clock, steps);
  }

  /** `get` hands out the front once the simulation clock has reached its time, and waits as
      long as the clock is at least a tick behind it. */
  lemma GetTakesTheDueFront(c: Config, clock: int, steps: seq<Step>)
    requires IsRun(c, clock, steps) && StateAfter(c, clock, steps).control.Checking?
    ensures var s := StateAfter(c, clock, steps);
            var (t, now) := (Apply(c, s, Check), SimulationTime(s.epoch, s.clock));
            && s.queue != []
            && (now >= s.queue[0].ev.time ==>
                  t.control == Holding(s.control.p, s.queue[0]) && t.queue == s.queue[1..]
                  && t.history == s.history + [Action(Delivered, s.queue[0], s.clock)])
            && (now <= s.queue[0].ev.time - 0.000001 ==>
                  t.control.Waiting? && t.queue == s.queue && t.history == s.history)
  {
    RunInv(c, clock, steps);
    var s := StateAfter(c, clock, steps);
    FutureMeansClockIsBehind(s.epoch, s.clock, s.queue[0].ev.time);
  }

  ghost predicate ReachedStopTime(c: Config, history: seq<Action>) {
    exists i :: 0 <= i < |history| && history[i].stage == Ended && history[i].entry.ev.time >= c.stopTime
  }

  /** The dispatcher ends if and only if it has distributed an event that is not before the
      stop time. */
  lemma {:induction false} StopsAtStopTime(c: Config, clock: int, steps: seq<Step>)
    requires IsRun(c, clock, steps)
    ensures var s := StateAfter(c, clock, steps); s.control.Stopped? <==> ReachedStopTime(c, s.history)
  {
    if steps != [] {
      var n := |steps| - 1;
      StopsAtStopTime(c, clock, steps[..n]);
      StepStops(c, StateAfter(c, clock, steps[..n]), steps[n]);
    }
  }

  lemma StepStops(c: Config, s: State, step: Step)
    requires Enabled(s, step) && (s.control.Stopped? <==> ReachedStopTime(c, s.history))
    ensures var t := Apply(c, s, step); t.control.Stopped? <==> ReachedStopTime(c, t.history)
  {
    var t := Apply(c, s, step);
    assert s.history <= t.history;
    if ReachedStopTime(c, s.history) {
      var i :| 0 <= i < |s.history| && s.history[i].stage == Ended && s.history[i].entry.ev.time >= c.stopTime;
      assert t.history[i] == s.history[i];
    }
    if step.End? {
      assert t.history[|s.history|] == Action(Ended, s.control.next, s.clock);
    }
  }

  /** No wake-up is lost: a consumer that sleeps without a pending signal sleeps exactly
      until the current front is due. */
  lemma NoLostWakeUp(c: Config, clock: int, steps: seq<Step>)
    requires IsRun(c, clock, steps)
    ensures var s := StateAfter(c, clock, steps);
            s.control.Waiting? && !s.control.signalled ==>
              s.queue != [] && s.control.due == Some(SystemTime(s.epoch, s.queue[0].ev.time))
  {
    RunInv(c, clock, steps);
  }

  /** Nothing is delivered while the simulation clock is a tick or more behind it. */
  lemma NothingDeliveredEarly(c: Config, clock: int, steps: seq<Step>, i: nat)
    requires IsRun(c, clock, steps)
    requires var s := StateAfter(c, clock, steps); i < |s.history| && s.history[i].stage == Delivered
    ensures var s := StateAfter(c, clock, steps);
            SimulationTime(s.epoch, s.history[i].clock) > s.history[i].entry.ev.time - 0.000001
  {
    RunInv(c, clock, steps);
    var s := StateAfter(c, clock, steps);
    FutureMeansClockIsBehind(s.epoch, s.history[i].clock, s.history[i].entry.ev.time);
  }

  /** If an event is delivered although it belongs more than two tolerances before one that
      was delivered earlier, then it was added only after that earlier delivery. */
  lemma LateDeliveriesWereAddedLate(c: Config, clock: int, steps: seq<Step>, i: nat, j: nat)
    requires IsRun(c, clock, steps)
    requires var h := StateAfter(c, clock, steps).history;
             && i < j < |h| && h[i].stage == Delivered && h[j].stage == Delivered
             && h[j].entry.ev.time < h[i].entry.ev.time - 2.0 * c.eps
    ensures var h := StateAfter(c, clock, steps).history;
            && (exists k :: i < k < j && h[k].stage == Added && h[k].entry == h[j].entry)
            && (forall k :: 0 <= k < |h| && h[k].stage == Added && h[k].entry == h[j].entry ==> k > i)
  {
    RunInv(c, clock, steps);
    var h := StateAfter(c, clock, steps).history;
    var e := h[j].entry;
    assert AddedBetween(h, i + 1, j, e);
    var k :| i < k < j && h[k].stage == Added && h[k].entry == e;
    forall k' | 0 <= k' < |h| && h[k'].stage == Added && h[k'].entry == e
      ensures k' > i
    {
      assert PhaseFits(StateAfter(c, clock, steps), e);
      if k' < k {
        AddedOnce(h, k', k, e);
        assert false;
      }
    }
  }

  // ----- the life of an event

  /** The stages an entry has gone through, in order. */
  function StagesOf(history: seq<Action>, entry: Entry): seq<Stage> {
    if history == [] then []
    else
      var last := history[|history| - 1];
      StagesOf(history[..|history| - 1], entry) + (if last.entry == entry then [last.stage] else [])
  }

  /** The positions of all records of the entry, in order. */
  predicate ArePositions(history: seq<Action>, e: Entry, positions: seq<int>) {
    && (forall k, l :: 0 <= k < l < |positions| ==> positions[k] < positions[l])
    && (forall k :: 0 <= k < |positions| ==> 0 <= positions[k] < |history| && history[positions[k]].entry == e)
    && (forall i :: 0 <= i < |history| && history[i].entry == e ==> i in positions)
  }

  lemma OnePositionMore(before: seq<Action>, a: Action, e: Entry, positions: seq<int>)
    requires ArePositions(before, e, positions)
    ensures a.entry != e ==> ArePositions(before + [a], e, positions)
    ensures a.entry == e ==> ArePositions(before + [a], e, positions + [|before|])
  {
    var history := before + [a];
    forall i | 0 <= i < |history| && history[i].entry == e
      ensures i in positions || (i == |before| && a.entry == e)
    {
      if i < |before| {
        assert before[i].entry == e;
      }
    }
  }

  function StagesAt(history: seq<Action>, positions: seq<int>): (stages: seq<Stage>)
    requires forall k :: 0 <= k < |positions| ==> 0 <= positions[k] < |history|
    ensures |stages| == |positions| && forall k :: 0 <= k < |stages| ==> stages[k] == history[positions[k]].stage
  {
    seq(|positions|, k requires 0 <= k < |positions| => history[positions[k]].stage)
  }

  lemma OneMoreStage(history: seq<Action>, positions: seq<int>)
    requires history != [] && forall k :: 0 <= k < |positions| ==> 0 <= positions[k] < |history| - 1
    ensures var n := |history| - 1;
            && StagesAt(history, positions) == StagesAt(history[..n], positions)
            && StagesAt(history, positions + [n]) == StagesAt(history, positions) + [history[n].stage]
  {
  }

  /** The stages of an entry are those of all its records, in their order. */
  lemma {:induction false} StagesByPosition(history: seq<Action>, e: Entry) returns (positions: seq<int>)
    ensures ArePositions(history, e, positions) && StagesOf(history, e) == StagesAt(history, positions)
  {
    positions := [];
    if history != [] {
      var n := |history| - 1;
      positions := StagesByPosition(history[..n], e);
      OnePositionMore(history[..n], history[n], e, positions);
      assert history == history[..n] + [history[n]];
      OneMoreStage(history, positions);
      if history[n].entry == e {
        positions := positions + [n];
      }
    }
  }

  function Life(phase: Phase): seq<Stage>
    requires phase != Misused
  {
    match phase
    case New => []
    case Known => [Registered]
    case Queued => [Registered, Added]
    case Discarded => [Registered, Added, Outdated]
    case Held => [Registered, Added, Delivered]
    case Announced => [Registered, Added, Delivered, Begun]
    case Gone => [Registered, Added, Delivered, Begun, Ended]
  }

  lemma {:induction false} PhaseTellsStages(history: seq<Action>, e: Entry)
    requires PhaseOf(history, e) != Misused
    ensures StagesOf(history, e) == Life(PhaseOf(history, e))
  {
    if history != [] {
      PhaseTellsStages(history[..|history| - 1], e);
    }
  }

  /** Once queued, an entry can never become merely known again. */
  lemma {:induction false} PhaseOnlyAdvances(history: seq<Action>, n: nat, e: Entry)
    requires n <= |history| && PhaseOf(history[..n], e) !in {New, Known}
    ensures PhaseOf(history, e) !in {New, Known}
    decreases |history|
  {
    if n == |history| {
      assert history[..n] == history;
    } else {
      assert history[..|history| - 1][..n] == history[..n];
      PhaseOnlyAdvances(history[..|history| - 1], n, e);
    }
  }

  lemma {:induction false} PrefixIsNotMisused(history: seq<Action>, n: nat, e: Entry)
    requires n <= |history| && PhaseOf(history, e) != Misused
    ensures PhaseOf(history[..n], e) != Misused
    decreases |history|
  {
    if n == |history| {
      assert history[..n] == history;
    } else {
      assert history[..|history| - 1][..n] == history[..n];
      PrefixIsNotMisused(history[..|history| - 1], n, e);
    }
  }

  lemma AddedOnce(history: seq<Action>, k: nat, l: nat, e: Entry)
    requires k < l < |history| && PhaseOf(history, e) != Misused
    requires history[k].stage == Added && history[k].entry == e && history[l].entry == e
    ensures history[l].stage != Added
  {
    PhaseAfterAction(history[..k], history[k], e);
    assert history[..k] + [history[k]] == history[..k + 1] == history[..l][..k + 1];
    PhaseOnlyAdvances(history[..l], k + 1, e);
    PhaseAfterAction(history[..l], history[l], e);
    assert history[..l] + [history[l]] == history[..l + 1];
    PrefixIsNotMisused(history, l + 1, e);
  }

  predicate Deletes(stage: Stage) {
    stage == Outdated || stage == Ended
  }

  lemma {:induction false} QueuedWasAdded(history: seq<Action>, e: Entry) returns (k: nat)
    requires PhaseOf(history, e) == Queued
    ensures k < |history| && history[k].stage == Added && history[k].entry == e
  {
    var n := |history| - 1;
    if history[n].stage == Added && history[n].entry == e {
      k := n;
    } else {
      k := QueuedWasAdded(history[..n], e);
    }
  }

  lemma PredictionIsRejected(c: Config, s: State, i: nat) returns (k: nat)
    requires s.control.Adding? && Ordered(c.eps, s.queue) && NoPredictions(s.queue)
    requires s.queue != [] ==> PhaseOf(s.history, s.queue[0]) == Queued
    requires var t := Apply(c, s, AddPrediction); |s.history| <= i < |t.history| && t.history[i].stage == Outdated
    ensures k < |s.history| && s.history[k].stage == Added && !s.history[k].entry.predicted
    ensures s.history[k].entry.ev.time < Apply(c, s, AddPrediction).history[i].entry.ev.time - c.eps
  {
    AddFirstPrediction(c.eps, s.queue, Entry(s.control.p, true));
    k := QueuedWasAdded(s.history, s.queue[0]);
  }

  lemma ExternalOutdates(c: Config, s: State, external: Event, i: nat)
    requires Enabled(s, AddExternal(external))
    requires var t := Apply(c, s, AddExternal(external));
             |s.history| <= i < |t.history| && t.history[i].stage == Outdated
    ensures var h := Apply(c, s, AddExternal(external)).history;
            && |s.history| < i && h[|s.history|] == Action(Added, Entry(external, false), s.clock)
            && external.time < h[i].entry.ev.time - c.eps
  {
    TimedQueue.ExternalOutdates(c.eps, s.queue, Entry(external, false));
  }

  /** A prediction is only ever deleted because of an external event that was added before and
      that is more than the tolerance before it. */
  lemma {:induction false} OnlyEarlierEventsOutdate(c: Config, clock: int, steps: seq<Step>, i: nat)
    requires IsRun(c, clock, steps)
    requires var h := StateAfter(c, clock, steps).history; i < |h| && h[i].stage == Outdated
    ensures var h := StateAfter(c, clock, steps).history;
            exists k :: 0 <= k < i && h[k].stage == Added && !h[k].entry.predicted
                        && h[k].entry.ev.time < h[i].entry.ev.time - c.eps
  {
    var n := |steps| - 1;
    var s := StateAfter(c, clock, steps[..n]);
    if i < |s.history| {
      HistoryGrows(c, s, steps[n]);
      OnlyEarlierEventsOutdate(c, clock, steps[..n], i);
      var k :| 0 <= k < i && s.history[k].stage == Added && !s.history[k].entry.predicted
               && s.history[k].entry.ev.time < s.history[i].entry.ev.time - c.eps;
      assert StateAfter(c, clock, steps).history[k] == s.history[k];
    } else {
      RunInv(c, clock, steps[..n]);
      HistoryGrows(c, s, steps[n]);
      if steps[n].AddPrediction? {
        if s.queue != [] {
          assert PhaseFits(s, s.queue[0]);
        }
        var k := PredictionIsRejected(c, s, i);
        assert StateAfter(c, clock, steps).history[k] == s.history[k];
      } else {
        ExternalOutdates(c, s, steps[n].external, i);
      }
    }
  }

  lemma HistoryGrows(c: Config, s: State, step: Step)
    requires Enabled(s, step)
    ensures s.history <= Apply(c, s, step).history
  {
  }

  /** A step adds at most one entry, and records that first. */
  lemma AddedFirst(c: Config, s: State, step: Step, l: nat)
    requires Enabled(s, step)
    requires var t := Apply(c, s, step); |s.history| <= l < |t.history| && t.history[l].stage == Added
    ensures l == |s.history|
    ensures if step.AddPrediction? then Apply(c, s, step).history[l].entry == Entry(s.control.p, true)
            else step.AddExternal? && Apply(c, s, step).history[l].entry == Entry(step.external, false)
  {
  }

  /** An entry gets into the queue only once, when it is added. */
  lemma QueuedBefore(c: Config, s: State, step: Step, p: Entry, k: nat, l: nat)
    requires Inv(c, s) && Enabled(s, step)
    requires var t := Apply(c, s, step);
             && k < l < |t.history| && t.history[k].stage == Added && t.history[k].entry == p
             && t.history[l].stage == Added && p in t.queue
    ensures p in s.queue && k < |s.history|
  {
    var t := Apply(c, s, step);
    StepInv(c, s, step);
    HistoryGrows(c, s, step);
    if l >= |s.history| {
      AddedFirst(c, s, step, l);
    }
    if p !in s.queue {
      InsertIsRecorded(c, s, step, p);
      assert PhaseFits(t, p);
      AddedOnce(t.history, k, |s.history|, p);
    }
  }

  /** A prediction that was added is no longer queued once an external event follows that is
      more than the tolerance before it. */
  lemma {:induction false} EarlierEventsOutdate(c: Config, clock: int, steps: seq<Step>, k: nat, l: nat)
    requires IsRun(c, clock, steps)
    requires var h := StateAfter(c, clock, steps).history;
             && k < l < |h| && h[k].stage == Added && h[k].entry.predicted
             && h[l].stage == Added && h[l].entry.ev.time < h[k].entry.ev.time - c.eps
    ensures var s := StateAfter(c, clock, steps); s.history[k].entry !in s.queue
  {
    var n := |steps| - 1;
    var (s, t) := (StateAfter(c, clock, steps[..n]), StateAfter(c, clock, steps));
    var p := t.history[k].entry;
    RunInv(c, clock, steps[..n]);
    if p in t.queue {
      QueuedBefore(c, s, steps[n], p, k, l);
      HistoryGrows(c, s, steps[n]);
      assert t.history[k] == s.history[k];
      if l < |s.history| {
        EarlierEventsOutdate(c, clock, steps[..n], k, l);
      } else {
        AddedFirst(c, s, steps[n], l);
        LaterPredictionLeaves(c.eps, s.queue, t.history[l].entry, p);
      }
    }
  }

  /** Conservation: every added event is in exactly one of three places - still queued, on
      its way to the listeners, or outdated - it is queued only once, and only predictions
      are ever outdated. An event object is deleted by the queue or after its distribution,
      but never twice. */
  lemma EventsAreConserved(c: Config, clock: int, steps: seq<Step>, e: Entry)
    requires IsRun(c, clock, steps)
    ensures var s := StateAfter(c, clock, steps);
            var stages := StagesOf(s.history, e);
            && (Added in stages ==>
                  || (multiset(s.queue)[e] == 1 && Delivered !in stages && Outdated !in stages)
                  || (e !in s.queue && Delivered in stages && Outdated !in stages)
                  || (e !in s.queue && Delivered !in stages && Outdated in stages))
            && (Outdated in stages ==> e.predicted)
            && (forall i, j :: 0 <= i < j < |stages| ==> !(Deletes(stages[i]) && Deletes(stages[j])))
  {
    RunInv(c, clock, steps);
    var s := StateAfter(c, clock, steps);
    assert PhaseFits(s, e);
    PhaseTellsStages(s.history, e);
    LifeHasOneEnd(PhaseOf(s.history, e));
  }

  lemma LifeHasOneEnd(phase: Phase)
    requires phase != Misused
    ensures var stages := Life(phase);
            && (Added in stages <==> phase !in {New, Known})
            && (Delivered in stages <==> phase in {Held, Announced, Gone})
            && (Outdated in stages <==> phase == Discarded)
            && (forall i, j :: 0 <= i < j < |stages| ==> !(Deletes(stages[i]) && Deletes(stages[j])))
  {
  }

  lemma LifeIsInOrder(phase: Phase)
    requires phase != Misused
    ensures if phase == Discarded then Life(phase) == [Registered, Added, Outdated]
            else Life(phase) <= [Registered, Added, Delivered, Begun, Ended]
  {
  }

  /** The log of an event is one registration, then begin and end of its distribution, or
      the note that it is outdated, in this order. */
  lemma LogFollowsTheLifeOfAnEvent(c: Config, clock: int, steps: seq<Step>, e: Entry)
    requires IsRun(c, clock, steps)
    ensures var stages := StagesOf(StateAfter(c, clock, steps).history, e);
            || stages <= [Registered, Added, Delivered, Begun, Ended]
            || (stages == [Registered, Added, Outdated] && e.predicted)
  {
    RunInv(c, clock, steps);
    var s := StateAfter(c, clock, steps);
    assert PhaseFits(s, e);
    PhaseTellsStages(s.history, e);
    LifeIsInOrder(PhaseOf(s.history, e));
  }
}
