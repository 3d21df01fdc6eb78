/** The stage log of a run is a trace that the timing reader accepts. */
module TimingTrace {
  import opened Fmi
  import opened TimeConversion
  import opened TimedQueue
  import opened Dispatcher
  import opened DispatcherProofs
  import T = TimingReader

  function CodeOf(a: Action): Option<T.Code> {
    match a.stage
    case Registered => Some(if a.entry.predicted then T.Prediction else T.RealTimeGeneration)
    case Outdated => Some(T.Outdated)
    case Begun => Some(T.BeginOfDistribution)
    case Ended => Some(T.EndOfDistribution)
    case Added => None
    case Delivered => None
  }

  /** The log prints times with a limited number of digits. `printed` is any such rounding, so
      that different times may look equal in the log. */
  type Printing = real -> real

  function LogOf(printed: Printing, epoch: int, a: Action): seq<T.Record> {
    var code := CodeOf(a);
    if code.None? then []
    else [T.Record(printed(a.entry.ev.time), printed(SimulationTime(epoch, a.clock)), code.value)]
  }

  function TraceOf(printed: Printing, epoch: int, history: seq<Action>): seq<T.Record> {
    if history == [] then []
    else TraceOf(printed, epoch, history[..|history| - 1]) + LogOf(printed, epoch, history[|history| - 1])
  }

  predicate IsLive(phase: Phase) {
    phase in {Known, Queued, Held, Announced}
  }

  /** No event is used out of order, and only predictions are discarded. */
  ghost predicate Orderly(history: seq<Action>) {
    forall e :: PhaseOf(history, e) != Misused && (PhaseOf(history, e) == Discarded ==> e.predicted)
  }

  /** The registered events that are not finalized yet. */
  function LiveEntries(history: seq<Action>): set<Entry> {
    if history == [] then {}
    else
      var n := |history| - 1;
      var (before, last) := (LiveEntries(history[..n]), history[n]);
      if last.stage == Registered then before + {last.entry}
      else if last.stage == Outdated || last.stage == Ended then before - {last.entry}
      else before
  }

  function LiveAt(printed: Printing, history: seq<Action>, time: real): set<Entry> {
    set e | e in LiveEntries(history) && printed(e.ev.time) == time
  }

  lemma OrderlyPrefix(history: seq<Action>, a: Action)
    requires Orderly(history + [a])
    ensures Orderly(history)
    ensures Advance(PhaseOf(history, a.entry), a.stage) != Misused
    ensures a.stage == Outdated ==> a.entry.predicted
  {
    forall e
      ensures PhaseOf(history, e) != Misused && (PhaseOf(history, e) == Discarded ==> e.predicted)
    {
      PhaseAfterAction(history, a, e);
    }
    PhaseAfterAction(history, a, a.entry);
  }

  lemma {:induction false} LiveEntriesAreLive(history: seq<Action>, e: Entry)
    requires Orderly(history)
    ensures e in LiveEntries(history) <==> IsLive(PhaseOf(history, e))
  {
    if history != [] {
      var n := |history| - 1;
      assert history == history[..n] + [history[n]];
      OrderlyPrefix(history[..n], history[n]);
      LiveEntriesAreLive(history[..n], e);
    }
  }

  /** What the trace says about a printed time agrees with the events behind it. */
  ghost predicate Agrees(printed: Printing, epoch: int, history: seq<Action>, time: real) {
    var trace := TraceOf(printed, epoch, history);
    var sole := T.SoleEntry(trace, time);
    && T.Live(trace, time) == |LiveAt(printed, history, time)|
    && (sole.Some? ==> forall e :: e in LiveAt(printed, history, time) ==> StampsAgree(history, e, sole.value))
  }

  predicate StampsAgree(history: seq<Action>, e: Entry, entry: T.TimingEntry) {
    entry.predicted == e.predicted && (PhaseOf(history, e) == Announced ==> entry.begin.Some?)
  }

  lemma LiveAtStep(printed: Printing, history: seq<Action>, a: Action, time: real)
    requires Orderly(history + [a])
    ensures var before := LiveAt(printed, history, time);
            var after := LiveAt(printed, history + [a], time);
            if printed(a.entry.ev.time) != time then after == before
            else if a.stage == Registered then a.entry !in before && after == before + {a.entry}
            else if a.stage == Outdated || a.stage == Ended then a.entry in before && after == before - {a.entry}
            else after == before
  {
    OrderlyPrefix(history, a);
    LiveEntriesAreLive(history, a.entry);
    assert (history + [a])[..|history|] == history;
  }

  lemma TraceStep(printed: Printing, epoch: int, history: seq<Action>, a: Action)
    ensures TraceOf(printed, epoch, history + [a]) == TraceOf(printed, epoch, history) + LogOf(printed, epoch, a)
  {
    assert (history + [a])[..|history|] == history;
  }

  /** What an action does to the live count and to the open entry of its time. */
  predicate IsEntryStep(a: Action, live: int, sole: Option<T.TimingEntry>, live': int, sole': Option<T.TimingEntry>) {
    match a.stage
    case Registered =>
      live' == live + 1 && (sole'.Some? ==> live == 0 && sole'.value.predicted == a.entry.predicted)
    case Outdated => live' == live - 1 && sole'.None?
    case Ended => live' == live - 1 && sole'.None?
    case Begun =>
      && live' == live
      && (sole'.Some? ==> sole.Some? && sole'.value.predicted == sole.value.predicted && sole'.value.begin.Some?)
    case _ => live' == live && sole' == sole
  }

  lemma LogStep(printed: Printing, epoch: int, trace: seq<T.Record>, a: Action, time: real)
    ensures var (live, sole) := (T.Live(trace, time), T.SoleEntry(trace, time));
            var after := trace + LogOf(printed, epoch, a);
            var (live', sole') := (T.Live(after, time), T.SoleEntry(after, time));
            if printed(a.entry.ev.time) != time then live' == live && sole' == sole
            else IsEntryStep(a, live, sole, live', sole')
  {
    var log := LogOf(printed, epoch, a);
    if log != [] {
      T.OneMoreRecord(trace, log[0], time);
      assert log == [log[0]];
    } else {
      assert trace + [] == trace;
    }
  }

  lemma RecordStep(printed: Printing, epoch: int, history: seq<Action>, a: Action, time: real)
    ensures var (before, after) := (TraceOf(printed, epoch, history), TraceOf(printed, epoch, history + [a]));
            var (live, sole) := (T.Live(before, time), T.SoleEntry(before, time));
            var (live', sole') := (T.Live(after, time), T.SoleEntry(after, time));
            if printed(a.entry.ev.time) != time then live' == live && sole' == sole
            else IsEntryStep(a, live, sole, live', sole')
  {
    TraceStep(printed, epoch, history, a);
    LogStep(printed, epoch, TraceOf(printed, epoch, history), a, time);
  }

  lemma LiveCountStep(printed: Printing, epoch: int, history: seq<Action>, a: Action, time: real)
    requires Orderly(history + [a])
    requires T.Live(TraceOf(printed, epoch, history), time) == |LiveAt(printed, history, time)|
    ensures T.Live(TraceOf(printed, epoch, history + [a]), time) == |LiveAt(printed, history + [a], time)|
  {
    RecordStep(printed, epoch, history, a, time);
    LiveAtStep(printed, history, a, time);
  }

  /** The stamps of the sole live event after an action, from those before. */
  lemma StampsFollow(history: seq<Action>, a: Action, e: Entry, live: set<Entry>, live': set<Entry>,
                     sole: Option<T.TimingEntry>, sole': Option<T.TimingEntry>)
    requires Orderly(history + [a]) && e in live' && sole'.Some?
    requires IsEntryStep(a, |live|, sole, |live'|, sole')
    requires sole.Some? ==> forall x :: x in live ==> StampsAgree(history, x, sole.value)
    requires if a.stage == Registered then a.entry !in live && live' == live + {a.entry}
             else if a.stage == Outdated || a.stage == Ended then live' == live - {a.entry}
             else live' == live
    ensures StampsAgree(history + [a], e, sole'.value)
  {
    OrderlyPrefix(history, a);
    PhaseAfterAction(history, a, e);
    if a.stage == Registered {
      assert live == {} && e == a.entry;
    } else {
      assert e in live && StampsAgree(history, e, sole.value);
    }
  }

  lemma StampsStep(printed: Printing, epoch: int, history: seq<Action>, a: Action, time: real, e: Entry)
    requires Orderly(history + [a]) && Agrees(printed, epoch, history, time)
    requires e in LiveAt(printed, history + [a], time)
    requires T.SoleEntry(TraceOf(printed, epoch, history + [a]), time).Some?
    ensures StampsAgree(history + [a], e, T.SoleEntry(TraceOf(printed, epoch, history + [a]), time).value)
  {
    RecordStep(printed, epoch, history, a, time);
    LiveAtStep(printed, history, a, time);
    LiveCountStep(printed, epoch, history, a, time);
    var (sole, sole') := (T.SoleEntry(TraceOf(printed, epoch, history), time),
                          T.SoleEntry(TraceOf(printed, epoch, history + [a]), time));
    var (live, live') := (LiveAt(printed, history, time), LiveAt(printed, history + [a], time));
    if printed(a.entry.ev.time) != time {
      PhaseAfterAction(history, a, e);
      assert e != a.entry;
    } else {
      StampsFollow(history, a, e, live, live', sole, sole');
    }
  }

  lemma {:induction false} HistoryAgrees(printed: Printing, epoch: int, history: seq<Action>, time: real)
    requires Orderly(history)
    ensures Agrees(printed, epoch, history, time)
  {
    if history != [] {
      var n := |history| - 1;
      assert history == history[..n] + [history[n]];
      OrderlyPrefix(history[..n], history[n]);
      HistoryAgrees(printed, epoch, history[..n], time);
      LiveCountStep(printed, epoch, history[..n], history[n], time);
      var sole := T.SoleEntry(TraceOf(printed, epoch, history), time);
      if sole.Some? {
        forall e | e in LiveAt(printed, history, time)
          ensures StampsAgree(history, e, sole.value)
        {
          StampsStep(printed, epoch, history[..n], history[n], time, e);
        }
      }
    }
  }

  /** A completed entry is ready for its consumers: the assertion of is_triggered holds, and
      an entry that was distributed has both stamps. */
  predicate IsComplete(entry: T.TimingEntry) {
    entry.MayBeAsked() && (entry.end.Some? ==> entry.begin.Some? && entry.triggered)
  }

  ghost predicate Readable(trace: seq<T.Record>) {
    T.WellFormed(trace) && forall k :: 0 <= k < |T.Completed(trace)| ==> IsComplete(T.Completed(trace)[k])
  }

  lemma ReadableStep(trace: seq<T.Record>, rec: T.Record, live: int, sole: Option<T.TimingEntry>)
    requires Readable(trace)
    requires live == T.Live(trace, rec.simTime) && sole == T.SoleEntry(trace, rec.simTime)
    requires T.Finalizes(rec, rec.simTime) ==>
               live >= 1 && (sole.Some? ==> IsComplete(T.Close(sole.value, rec)))
    ensures Readable(trace + [rec])
  {
    T.OneMoreRecordAccepted(trace, rec);
    assert (trace + [rec])[..|trace|] == trace;
  }

  lemma ClosedIsComplete(history: seq<Action>, a: Action, rec: T.Record, entry: T.TimingEntry)
    requires Orderly(history + [a]) && CodeOf(a) == Some(rec.code) && T.Finalizes(rec, rec.simTime)
    requires StampsAgree(history, a.entry, entry) && entry.end.None? && (entry.begin.Some? ==> entry.triggered)
    ensures IsComplete(T.Close(entry, rec))
  {
    OrderlyPrefix(history, a);
  }

  lemma SoleEntryIsOpen(trace: seq<T.Record>, time: real)
    ensures var sole := T.SoleEntry(trace, time);
            sole.Some? ==> sole.value.end.None? && (sole.value.begin.Some? ==> sole.value.triggered)
  {
  }

  /** What is finalized is live, and if nothing else shares its time, its entry is complete. */
  lemma FinalizedIsComplete(printed: Printing, epoch: int, history: seq<Action>, a: Action, rec: T.Record)
    requires Orderly(history + [a]) && LogOf(printed, epoch, a) == [rec] && T.Finalizes(rec, rec.simTime)
    ensures var trace := TraceOf(printed, epoch, history);
            var sole := T.SoleEntry(trace, rec.simTime);
            T.Live(trace, rec.simTime) >= 1 && (sole.Some? ==> IsComplete(T.Close(sole.value, rec)))
  {
    var (trace, live) := (TraceOf(printed, epoch, history), LiveAt(printed, history, rec.simTime));
    var sole := T.SoleEntry(trace, rec.simTime);
    OrderlyPrefix(history, a);
    HistoryAgrees(printed, epoch, history, rec.simTime);
    LiveAtStep(printed, history, a, rec.simTime);
    assert a.entry in live;
    if sole.Some? {
      SoleEntryIsOpen(trace, rec.simTime);
      ClosedIsComplete(history, a, rec, sole.value);
    }
  }

  lemma {:induction false} OrderlyHistoryIsReadable(printed: Printing, epoch: int, history: seq<Action>)
    requires Orderly(history)
    ensures Readable(TraceOf(printed, epoch, history))
  {
    if history != [] {
      var n := |history| - 1;
      var (before, a) := (history[..n], history[n]);
      assert history == before + [a];
      OrderlyPrefix(before, a);
      OrderlyHistoryIsReadable(printed, epoch, before);
      var (trace, log) := (TraceOf(printed, epoch, before), LogOf(printed, epoch, a));
      if log == [] {
        assert trace + log == trace;
      } else {
        var rec := log[0];
        assert log == [rec];
        if T.Finalizes(rec, rec.simTime) {
          FinalizedIsComplete(printed, epoch, before, a, rec);
        }
        ReadableStep(trace, rec, T.Live(trace, rec.simTime), T.SoleEntry(trace, rec.simTime));
      }
    }
  }

  lemma RunIsOrderly(c: Config, clock: int, steps: seq<Step>)
    requires IsRun(c, clock, steps)
    ensures Orderly(StateAfter(c, clock, steps).history)
  {
    RunInv(c, clock, steps);
    var s := StateAfter(c, clock, steps);
    forall e
      ensures PhaseOf(s.history, e) != Misused && (PhaseOf(s.history, e) == Discarded ==> e.predicted)
    {
      assert PhaseFits(s, e);
    }
  }

  /** The stage log of every run, however coarsely its times are printed, is a trace that the
      reader reads to the end without an error, and every entry it yields is complete. */
  lemma EveryRunIsReadable(c: Config, clock: int, steps: seq<Step>, printed: Printing)
    requires IsRun(c, clock, steps)
    ensures var s := StateAfter(c, clock, steps);
            var r := T.ReadTrace(false, TraceOf(printed, s.epoch, s.history));
            r.failure.None? && forall k :: 0 <= k < |r.entries| ==> IsComplete(r.entries[k])
  {
    RunIsOrderly(c, clock, steps);
    var s := StateAfter(c, clock, steps);
    OrderlyHistoryIsReadable(printed, s.epoch, s.history);
    T.ReaderYieldsSinglePeriods(false, TraceOf(printed, s.epoch, s.history));
  }

  // ----- an event that shares its printed time with no other

  ghost predicate IsAlone(printed: Printing, history: seq<Action>, e: Entry) {
    forall k :: 0 <= k < |history| && printed(history[k].entry.ev.time) == printed(e.ev.time) ==>
      history[k].entry == e
  }

  /** The entry of such an event while it is live: what has been logged of it. */
  ghost predicate IsOpen(printed: Printing, epoch: int, history: seq<Action>, e: Entry, r: nat, b: nat) {
    var time := printed(e.ev.time);
    var sole := T.SoleEntry(TraceOf(printed, epoch, history), time);
    && r < |history| && history[r].stage == Registered && history[r].entry == e
    && var registration := printed(SimulationTime(epoch, history[r].clock));
    if PhaseOf(history, e) != Announced
    then sole == Some(T.TimingEntry(time, registration, e.predicted, false, None, None))
    else
      && r < b < |history| && history[b].stage == Begun && history[b].entry == e
      && sole == Some(T.TimingEntry(time, registration, e.predicted, true,
                                    Some(printed(SimulationTime(epoch, history[b].clock))), None))
  }

  lemma NothingLiveAlone(printed: Printing, epoch: int, history: seq<Action>, e: Entry)
    requires Orderly(history) && IsAlone(printed, history, e) && !IsLive(PhaseOf(history, e))
    ensures T.Live(TraceOf(printed, epoch, history), printed(e.ev.time)) == 0
  {
    var time := printed(e.ev.time);
    HistoryAgrees(printed, epoch, history, time);
    forall x
      ensures x !in LiveAt(printed, history, time)
    {
      LiveEntriesAreLive(history, x);
      LiveEntriesAreUsed(history, x);
    }
    assert LiveAt(printed, history, time) == {};
  }

  lemma {:induction false} LiveEntriesAreUsed(history: seq<Action>, e: Entry)
    ensures e in LiveEntries(history) ==> exists k :: 0 <= k < |history| && history[k].entry == e
  {
    if history != [] {
      var n := |history| - 1;
      LiveEntriesAreUsed(history[..n], e);
      if k :| 0 <= k < n && history[..n][k].entry == e {
        assert history[k].entry == e;
      }
    }
  }

  /** What an action of a live event does to the open entry of its printed time. */
  lemma SoleStep(printed: Printing, epoch: int, history: seq<Action>, a: Action)
    requires a.stage in {Registered, Added, Delivered, Begun}
    ensures var time := printed(a.entry.ev.time);
            var (trace, after) := (TraceOf(printed, epoch, history), TraceOf(printed, epoch, history + [a]));
            var (sole, sole') := (T.SoleEntry(trace, time), T.SoleEntry(after, time));
            var stamp := printed(SimulationTime(epoch, a.clock));
            match a.stage
            case Registered =>
              T.Live(trace, time) == 0 ==>
                sole' == Some(T.TimingEntry(time, stamp, a.entry.predicted, false, None, None))
            case Begun => sole.Some? ==> sole' == Some(sole.value.(triggered := true, begin := Some(stamp)))
            case _ => sole' == sole
  {
    var (time, trace) := (printed(a.entry.ev.time), TraceOf(printed, epoch, history));
    TraceStep(printed, epoch, history, a);
    var log := LogOf(printed, epoch, a);
    if log == [] {
      assert trace + log == trace;
    } else {
      T.OneMoreRecord(trace, log[0], time);
      assert log == [log[0]];
    }
  }

  /** One more action of the event itself. */
  lemma OpenStep(printed: Printing, epoch: int, history: seq<Action>, a: Action, r: nat, b: nat)
    returns (r': nat, b': nat)
    requires Orderly(history + [a]) && IsAlone(printed, history, a.entry) && IsLive(PhaseOf(history + [a], a.entry))
    requires IsLive(PhaseOf(history, a.entry)) ==> IsOpen(printed, epoch, history, a.entry, r, b)
    ensures IsOpen(printed, epoch, history + [a], a.entry, r', b')
  {
    r', b' := r, b;
    OrderlyPrefix(history, a);
    PhaseAfterAction(history, a, a.entry);
    SoleStep(printed, epoch, history, a);
    if a.stage == Registered {
      NothingLiveAlone(printed, epoch, history, a.entry);
      r' := |history|;
    } else if a.stage == Begun {
      b' := |history|;
    }
  }

  lemma {:induction false} LiveAloneIsOpen(printed: Printing, epoch: int, history: seq<Action>, e: Entry)
    returns (r: nat, b: nat)
    requires Orderly(history) && IsAlone(printed, history, e) && IsLive(PhaseOf(history, e))
    ensures IsOpen(printed, epoch, history, e, r, b)
  {
    var n := |history| - 1;
    var (before, a) := (history[..n], history[n]);
    assert history == before + [a];
    OrderlyPrefix(before, a);
    r, b := 0, 0;
    if IsLive(PhaseOf(before, e)) {
      r, b := LiveAloneIsOpen(printed, epoch, before, e);
    }
    if a.entry == e {
      r, b := OpenStep(printed, epoch, before, a, r, b);
    } else {
      RecordStep(printed, epoch, before, a, printed(e.ev.time));
      PhaseAfterAction(before, a, e);
    }
  }

  lemma CompletedGrows(printed: Printing, epoch: int, history: seq<Action>, a: Action)
    ensures T.Completed(TraceOf(printed, epoch, history)) <= T.Completed(TraceOf(printed, epoch, history + [a]))
  {
    var (trace, log) := (TraceOf(printed, epoch, history), LogOf(printed, epoch, a));
    TraceStep(printed, epoch, history, a);
    if log == [] {
      assert trace + log == trace;
    } else {
      assert trace + log == trace + [log[0]];
      assert (trace + [log[0]])[..|trace|] == trace;
    }
  }

  function ClosedBy(printed: Printing, epoch: int, a: Action, sole: T.TimingEntry): T.TimingEntry {
    if a.stage == Outdated then sole
    else sole.(triggered := true, end := Some(printed(SimulationTime(epoch, a.clock))))
  }

  /** What the last action of a live event completes. */
  lemma FinalAction(printed: Printing, epoch: int, history: seq<Action>, a: Action, sole: T.TimingEntry)
    requires a.stage in {Outdated, Ended}
    requires T.SoleEntry(TraceOf(printed, epoch, history), printed(a.entry.ev.time)) == Some(sole)
    ensures T.Completed(TraceOf(printed, epoch, history + [a])) == T.Completed(TraceOf(printed, epoch, history))
                                                                 + [ClosedBy(printed, epoch, a, sole)]
  {
    var (trace, log) := (TraceOf(printed, epoch, history), LogOf(printed, epoch, a));
    TraceStep(printed, epoch, history, a);
    assert log == [log[0]];
    assert (trace + [log[0]])[..|trace|] == trace;
  }

  /** The entry holds the times that were logged when the event was registered, at record r,
      when its distribution began, at record b, and when it ended, at record d. */
  ghost predicate IsReport(printed: Printing, epoch: int, history: seq<Action>, r: nat, b: nat, d: nat, entry: T.TimingEntry)
    requires d < |history|
  {
    var e := history[d].entry;
    && r < d && history[r].stage == Registered && history[r].entry == e
    && entry.simTime == printed(e.ev.time) && entry.predicted == e.predicted
    && entry.registration == printed(SimulationTime(epoch, history[r].clock))
    && if history[d].stage == Outdated
       then !entry.triggered && entry.begin.None? && entry.end.None?
       else
         && r < b < d && history[b].stage == Begun && history[b].entry == e && entry.triggered
         && entry.begin == Some(printed(SimulationTime(epoch, history[b].clock)))
         && entry.end == Some(printed(SimulationTime(epoch, history[d].clock)))
  }

  lemma ClosedIsReport(printed: Printing, epoch: int, history: seq<Action>, a: Action, r: nat, b: nat, sole: T.TimingEntry)
    requires a.stage in {Outdated, Ended} && Advance(PhaseOf(history, a.entry), a.stage) != Misused
    requires IsOpen(printed, epoch, history, a.entry, r, b)
    requires T.SoleEntry(TraceOf(printed, epoch, history), printed(a.entry.ev.time)) == Some(sole)
    ensures IsReport(printed, epoch, history + [a], r, b, |history|, ClosedBy(printed, epoch, a, sole))
  {
  }

  lemma LastActionIsReported(printed: Printing, epoch: int, history: seq<Action>, a: Action)
    requires Orderly(history + [a]) && IsAlone(printed, history, a.entry) && a.stage in {Outdated, Ended}
    ensures exists r: nat, b: nat, entry ::
              entry in T.Completed(TraceOf(printed, epoch, history + [a]))
              && IsReport(printed, epoch, history + [a], r, b, |history|, entry)
  {
    OrderlyPrefix(history, a);
    var r, b := LiveAloneIsOpen(printed, epoch, history, a.entry);
    var sole := T.SoleEntry(TraceOf(printed, epoch, history), printed(a.entry.ev.time)).value;
    FinalAction(printed, epoch, history, a, sole);
    ClosedIsReport(printed, epoch, history, a, r, b, sole);
    assert ClosedBy(printed, epoch, a, sole) in T.Completed(TraceOf(printed, epoch, history + [a]));
  }

  lemma ReportStays(printed: Printing, epoch: int, history: seq<Action>, a: Action, r: nat, b: nat, d: nat, entry: T.TimingEntry)
    requires d < |history| && IsReport(printed, epoch, history, r, b, d, entry)
    ensures IsReport(printed, epoch, history + [a], r, b, d, entry)
  {
    assert forall k :: 0 <= k < |history| ==> (history + [a])[k] == history[k];
  }

  lemma {:induction false} AloneIsReported(printed: Printing, epoch: int, history: seq<Action>, d: nat)
    requires Orderly(history) && d < |history| && history[d].stage in {Outdated, Ended}
    requires IsAlone(printed, history, history[d].entry)
    ensures exists r: nat, b: nat, entry ::
              entry in T.Completed(TraceOf(printed, epoch, history)) && IsReport(printed, epoch, history, r, b, d, entry)
  {
    var n := |history| - 1;
    var (before, a) := (history[..n], history[n]);
    assert history == before + [a];
    OrderlyPrefix(before, a);
    if d == n {
      LastActionIsReported(printed, epoch, before, a);
    } else {
      AloneIsReported(printed, epoch, before, d);
      CompletedGrows(printed, epoch, before, a);
      var r: nat, b: nat, entry :|
        entry in T.Completed(TraceOf(printed, epoch, before)) && IsReport(printed, epoch, before, r, b, d, entry);
      ReportStays(printed, epoch, before, a, r, b, d, entry);
    }
  }

  /** The reader reports every event of a run that shares its printed time with no other, once
      it was distributed or outdated, with the times at which this happened. */
  lemma LoneEventsAreReported(c: Config, clock: int, steps: seq<Step>, printed: Printing, d: nat)
    requires IsRun(c, clock, steps)
    requires var h := StateAfter(c, clock, steps).history;
             d < |h| && h[d].stage in {Outdated, Ended} && IsAlone(printed, h, h[d].entry)
    ensures var s := StateAfter(c, clock, steps);
            exists r: nat, b: nat, entry ::
              entry in T.ReadTrace(false, TraceOf(printed, s.epoch, s.history)).entries
              && IsReport(printed, s.epoch, s.history, r, b, d, entry)
  {
    var s := StateAfter(c, clock, steps);
    RunIsOrderly(c, clock, steps);
    AloneIsReported(printed, s.epoch, s.history, d);
    OrderlyHistoryIsReadable(printed, s.epoch, s.history);
    T.ReaderYieldsSinglePeriods(false, TraceOf(printed, s.epoch, s.history));
  }
}
