/** Every step of the dispatcher and of the subscriber threads keeps the invariant. */
module DispatcherProofs {
  import opened Fmi
  import opened TimeConversion
  import opened TimedQueue
  import opened Dispatcher

  lemma InsertQueue(c: Config, s: State, e: Entry)
    requires Ordered(c.eps, s.queue)
    requires e.predicted ==> NoPredictions(s.queue)
    ensures Ordered(c.eps, Insert(c, s, e).queue)
    ensures forall x :: x in Insert(c, s, e).queue ==> x in s.queue || x == e
  {
    AddConserves(c.eps, s.queue, e);
    if e.predicted {
      AddFirstPrediction(c.eps, s.queue, e);
    } else {
      AddExternalKeepsOrder(c.eps, s.queue, e);
    }
    var r := Add(c.eps, s.queue, e);
    forall x | x in r.queue
      ensures x in s.queue || x == e
    {
      assert multiset(r.queue)[x] > 0;
      assert (multiset(s.queue) + multiset{e})[x] > 0;
    }
  }

  lemma AddPredictionQueueInv(c: Config, s: State)
    requires QueueInv(c, s) && s.control.Adding?
    ensures QueueInv(c, Apply(c, s, AddPrediction))
  {
    var t := Apply(c, s, AddPrediction);
    InsertQueue(c, s, Entry(s.control.p, true));
    AddPredictionAwaits(c.eps, s.queue, s.control.p);
    forall i | 0 <= i < |t.queue| && t.queue[i].predicted
      ensures t.queue[i].ev == t.control.p
    {
      assert t.queue[i] in t.queue;
    }
  }

  lemma PredictionsStay(q: seq<Entry>, e: Entry, r: seq<Entry>, p: Event)
    requires !e.predicted && forall x :: x in r ==> x in q || x == e
    requires forall i :: 0 <= i < |q| && q[i].predicted ==> q[i].ev == p
    ensures forall i :: 0 <= i < |r| && r[i].predicted ==> r[i].ev == p
    ensures NoPredictions(q) ==> NoPredictions(r)
  {
    forall i | 0 <= i < |r| && r[i].predicted
      ensures r[i].ev == p && !NoPredictions(q)
    {
      assert r[i] in r && r[i] in q;
    }
  }

  lemma AddExternalQueueInv(c: Config, s: State, external: Event)
    requires QueueInv(c, s) && Enabled(s, AddExternal(external))
    ensures QueueInv(c, Apply(c, s, AddExternal(external)))
  {
    var (t, e) := (Apply(c, s, AddExternal(external)), Entry(external, false));
    InsertQueue(c, s.(pending := s.pending - {e}), e);
    if HoldsPrediction(s.control) {
      AddExternalStillAwaits(c.eps, s.queue, s.control.p, e);
      PredictionsStay(s.queue, e, t.queue, s.control.p);
    } else {
      PredictionsStay(s.queue, e, t.queue, e.ev);
    }
  }

  lemma CheckQueueInv(c: Config, s: State)
    requires QueueInv(c, s) && s.control.Checking?
    ensures QueueInv(c, Apply(c, s, Check))
  {
    if Poll(s.queue, s.epoch, s.clock).Deliver? {
      WithoutFrontIsOrdered(c.eps, s.queue);
    }
  }

  lemma StepQueueInv(c: Config, s: State, step: Step)
    requires QueueInv(c, s) && Enabled(s, step)
    ensures QueueInv(c, Apply(c, s, step))
  {
    match step
    case AddPrediction => AddPredictionQueueInv(c, s);
    case AddExternal(e) => AddExternalQueueInv(c, s, e);
    case Check => CheckQueueInv(c, s);
    case _ =>
  }

  lemma StepWakeUpInv(c: Config, s: State, step: Step)
    requires QueueInv(c, s) && WakeUpInv(s) && Enabled(s, step)
    ensures WakeUpInv(Apply(c, s, step))
  {
  }

  lemma StepDeliveredWhenDue(c: Config, s: State, step: Step)
    requires QueueInv(c, s) && DeliveredWhenDue(s) && Enabled(s, step)
    ensures DeliveredWhenDue(Apply(c, s, step))
  {
  }

  // ----- phases

  lemma PhaseAfterAction(history: seq<Action>, a: Action, e: Entry)
    ensures PhaseOf(history + [a], e)
         == if a.entry == e then Advance(PhaseOf(history, e), a.stage) else PhaseOf(history, e)
  {
    assert (history + [a])[..|history|] == history;
  }

  lemma PhaseAfterOutdated(history: seq<Action>, entries: seq<Entry>, clock: int, e: Entry)
    requires multiset(entries)[e] <= 1
    ensures PhaseOf(history + OutdatedActions(entries, clock), e)
         == if e in entries then Advance(PhaseOf(history, e), Outdated) else PhaseOf(history, e)
  {
    if entries == [] {
      assert history + OutdatedActions(entries, clock) == history;
    } else {
      var n := |entries| - 1;
      assert entries == entries[..n] + [entries[n]];
      var before := history + OutdatedActions(entries[..n], clock);
      assert history + OutdatedActions(entries, clock) == before + [Action(Outdated, entries[n], clock)];
      PhaseAfterOutdated(history, entries[..n], clock, e);
      PhaseAfterAction(before, Action(Outdated, entries[n], clock), e);
    }
  }

  /** What an insertion does to an arbitrary entry: it advances by the stages it goes
      through and is afterwards in the queue or discarded, never both. */
  lemma InsertPhase(c: Config, s: State, inserted: Entry, e: Entry)
    requires multiset(s.queue)[e] + (if e == inserted then 1 else 0) <= 1
    ensures var r := Add(c.eps, s.queue, inserted);
            var before := PhaseOf(s.history, e);
            var added := if e == inserted then Advance(before, Added) else before;
            var t := Insert(c, s, inserted);
            && multiset(r.queue)[e] + (if e in r.outdated then 1 else 0)
               == multiset(s.queue)[e] + (if e == inserted then 1 else 0)
            && (e in r.outdated ==> e.predicted)
            && PhaseOf(t.history, e) == if e in r.outdated then Advance(added, Outdated) else added
  {
    var r := Add(c.eps, s.queue, inserted);
    AddConserves(c.eps, s.queue, inserted);
    OnlyPredictionsOutdated(c.eps, s.queue, inserted);
    assert (multiset(s.queue) + multiset{inserted})[e] == (multiset(r.queue) + multiset(r.outdated))[e];
    PhaseAfterAction(s.history, Action(Added, inserted, s.clock), e);
    PhaseAfterOutdated(Record(s, Added, inserted), r.outdated, s.clock, e);
  }

  lemma RecordPhase(c: Config, s: State, step: Step, e: Entry)
    requires Enabled(s, step) && PhaseFits(s, e)
    requires step.Begin? || step.End?
    ensures PhaseFits(Apply(c, s, step), e)
  {
    PhaseAfterAction(s.history, Action(if step.Begin? then Begun else Ended, s.control.next, s.clock), e);
  }

  lemma RegisterPhase(c: Config, s: State, step: Step, e: Entry)
    requires Enabled(s, step) && PhaseFits(s, e)
    requires step.Predict? || step.Register?
    ensures PhaseFits(Apply(c, s, step), e)
  {
    var entry := if step.Predict? then Entry(step.prediction, true) else Entry(step.external, false);
    PhaseAfterAction(s.history, Action(Registered, entry, s.clock), e);
  }

  lemma CheckPhase(c: Config, s: State, e: Entry)
    requires PhaseFits(s, e) && s.control.Checking?
    ensures PhaseFits(Apply(c, s, Check), e)
  {
    var t := Apply(c, s, Check);
    if t.control.Holding? {
      assert s.queue == [s.queue[0]] + t.queue;
      PhaseAfterAction(s.history, Action(Delivered, s.queue[0], s.clock), e);
    }
  }

  lemma InsertedFits(s: State, t: State, inserted: Entry, e: Entry, outdated: bool)
    requires PhaseFits(s, e)
    requires inserted in s.pending || (s.control.Adding? && inserted == Entry(s.control.p, true))
    requires t.pending == s.pending - {inserted}
    requires if s.control.Adding? && inserted == Entry(s.control.p, true)
             then t.control.Checking?
             else t.control == s.control || (s.control.Waiting? && t.control.Waiting?)
    requires multiset(t.queue)[e] + (if outdated then 1 else 0)
             == multiset(s.queue)[e] + (if e == inserted then 1 else 0)
    requires outdated ==> e.predicted
    requires var before := PhaseOf(s.history, e);
             var added := if e == inserted then Advance(before, Added) else before;
             PhaseOf(t.history, e) == if outdated then Advance(added, Outdated) else added
    ensures PhaseFits(t, e)
  {
  }

  lemma AddPredictionPhase(c: Config, s: State, e: Entry)
    requires s.control.Adding? && PhaseFits(s, e) && PhaseFits(s, Entry(s.control.p, true))
    ensures PhaseFits(Apply(c, s, AddPrediction), e)
  {
    var inserted := Entry(s.control.p, true);
    InsertPhase(c, s, inserted, e);
    assert s.pending == s.pending - {inserted};
    InsertedFits(s, Apply(c, s, AddPrediction), inserted, e, e in Add(c.eps, s.queue, inserted).outdated);
  }

  lemma AddExternalPhase(c: Config, s: State, x: Event, e: Entry)
    requires PhaseFits(s, e) && Entry(x, false) in s.pending
    ensures PhaseFits(Apply(c, s, AddExternal(x)), e)
  {
    var inserted := Entry(x, false);
    InsertPhase(c, s.(pending := s.pending - {inserted}), inserted, e);
    InsertedFits(s, Apply(c, s, AddExternal(x)), inserted, e, e in Add(c.eps, s.queue, inserted).outdated);
  }

  lemma StepPhase(c: Config, s: State, step: Step, e: Entry)
    requires PhaseInv(s) && Enabled(s, step)
    ensures PhaseFits(Apply(c, s, step), e)
  {
    assert PhaseFits(s, e);
    match step
    case Check => CheckPhase(c, s, e);
    case AddPrediction =>
      assert PhaseFits(s, Entry(s.control.p, true));
      AddPredictionPhase(c, s, e);
    case AddExternal(x) => AddExternalPhase(c, s, x, e);
    case Predict(_) => RegisterPhase(c, s, step, e);
    case Register(_) => RegisterPhase(c, s, step, e);
    case Begin => RecordPhase(c, s, step, e);
    case End => RecordPhase(c, s, step, e);
    case _ =>
  }

  // ----- late events

  lemma AddedBetweenGrows(history: seq<Action>, longer: seq<Action>, from: nat, to: nat, to': nat, e: Entry)
    requires to <= |history| && to <= to' <= |longer| && history <= longer
    requires AddedBetween(history, from, to, e)
    ensures AddedBetween(longer, from, to', e)
  {
    var k :| from <= k < to && history[k].stage == Added && history[k].entry == e;
    assert longer[k] == history[k];
  }

  lemma StepLateInv(c: Config, s: State, step: Step)
    requires QueueInv(c, s) && LateInv(c, s) && Enabled(s, step)
    ensures LateInv(c, Apply(c, s, step))
  {
    var t := Apply(c, s, step);
    assert s.history <= t.history;
    forall i, e | 0 <= i < |t.history| && t.history[i].stage == Delivered && e in t.queue
                  && Overtaken(c, t.history[i].entry, e)
      ensures AddedBetween(t.history, i + 1, |t.history|, e)
    {
      LateStillAccounted(c, s, step, i, e);
    }
  }

  /** The steps that put something into the queue leave a trace of it. */
  lemma InsertIsRecorded(c: Config, s: State, step: Step, e: Entry)
    requires QueueInv(c, s) && Enabled(s, step)
    requires e in Apply(c, s, step).queue && e !in s.queue
    ensures var t := Apply(c, s, step);
            |s.history| < |t.history| && t.history[|s.history|] == Action(Added, e, s.clock)
  {
    if step.AddPrediction? {
      InsertQueue(c, s, Entry(s.control.p, true));
    } else if step.AddExternal? {
      InsertQueue(c, s.(pending := s.pending - {Entry(step.external, false)}), Entry(step.external, false));
    }
  }

  /** What is delivered is the front, and the order keeps it within two tolerances of
      everything that stays behind. */
  lemma NothingOvertakenAtDelivery(c: Config, s: State, step: Step)
    requires QueueInv(c, s) && Enabled(s, step)
    ensures var t := Apply(c, s, step);
            forall i, e :: |s.history| <= i < |t.history| && t.history[i].stage == Delivered && e in t.queue
                           ==> !Overtaken(c, t.history[i].entry, e)
  {
    if step.Check? && s.queue != [] {
      forall j | 0 < j < |s.queue|
        ensures !Overtaken(c, s.queue[0], s.queue[j])
      {
        OrderBounds(c.eps, s.queue, 0, j);
      }
    }
  }

  lemma LateStillAccounted(c: Config, s: State, step: Step, i: nat, e: Entry)
    requires QueueInv(c, s) && LateInv(c, s) && Enabled(s, step)
    requires var t := Apply(c, s, step);
             && i < |t.history| && t.history[i].stage == Delivered && e in t.queue
             && Overtaken(c, t.history[i].entry, e)
    ensures var t := Apply(c, s, step); AddedBetween(t.history, i + 1, |t.history|, e)
  {
    var t := Apply(c, s, step);
    NothingOvertakenAtDelivery(c, s, step);
    if e in s.queue {
      AddedBetweenGrows(s.history, t.history, i + 1, |s.history|, |t.history|, e);
    } else {
      InsertIsRecorded(c, s, step, e);
    }
  }

  lemma DeliveryIsTheFront(c: Config, s: State, step: Step, j: nat)
    requires Enabled(s, step)
    requires var h := Apply(c, s, step).history; |s.history| <= j < |h| && h[j].stage == Delivered
    ensures s.queue != [] && j == |s.history| && Apply(c, s, step).history[j].entry == s.queue[0]
  {
  }

  lemma StepLateDeliveries(c: Config, s: State, step: Step)
    requires QueueInv(c, s) && LateInv(c, s) && LateDeliveries(c, s.history) && Enabled(s, step)
    ensures LateDeliveries(c, Apply(c, s, step).history)
  {
    var t := Apply(c, s, step);
    forall i, j | 0 <= i < j < |t.history| && t.history[i].stage == Delivered && t.history[j].stage == Delivered
                  && Overtaken(c, t.history[i].entry, t.history[j].entry)
      ensures AddedBetween(t.history, i + 1, j, t.history[j].entry)
    {
      if j < |s.history| {
        AddedBetweenGrows(s.history, t.history, i + 1, j, j, s.history[j].entry);
      } else {
        DeliveryIsTheFront(c, s, step, j);
        assert t.history[i] == s.history[i] && s.queue[0] in s.queue;
        AddedBetweenGrows(s.history, t.history, i + 1, |s.history|, j, s.queue[0]);
      }
    }
  }

  // ----- runs

  lemma StepInv(c: Config, s: State, step: Step)
    requires Inv(c, s) && Enabled(s, step)
    ensures Inv(c, Apply(c, s, step))
  {
    StepQueueInv(c, s, step);
    StepWakeUpInv(c, s, step);
    StepDeliveredWhenDue(c, s, step);
    forall e ensures PhaseFits(Apply(c, s, step), e) { StepPhase(c, s, step, e); }
    StepLateInv(c, s, step);
    StepLateDeliveries(c, s, step);
  }

  /** Every state of every run satisfies the invariant. */
  lemma {:induction false} RunInv(c: Config, clock: int, steps: seq<Step>)
    requires IsRun(c, clock, steps)
    ensures Inv(c, StateAfter(c, clock, steps))
  {
    if steps != [] {
      var n := |steps| - 1;
      RunInv(c, clock, steps[..n]);
      StepInv(c, StateAfter(c, clock, steps[..n]), steps[n]);
    }
  }
}
