/** Reads a timing trace. Events have no identifier in the trace, only a time stamp, so
    concurrent events with equal stamps are counted and dropped. */
module TimingReader {
  import opened Fmi

  /** The stage codes 0 to 4 of the trace. */
  datatype Code = RealTimeGeneration | Prediction | EndOfDistribution | BeginOfDistribution | Outdated

  datatype Record = Record(simTime: real, realTime: real, code: Code)

  datatype TimingEntry = TimingEntry(
    simTime: real, registration: real, predicted: bool, triggered: bool,
    begin: Option<real>, end: Option<real>)
  {
    function SetBegin(time: real): TimingEntry {
      this.(triggered := true, begin := Some(time))
    }

    function SetEnd(time: real): TimingEntry {
      this.(triggered := true, end := Some(time))
    }

    /** The assertion that is_triggered makes. */
    predicate MayBeAsked() {
      triggered || predicted
    }
  }

  function NewEntry(rec: Record): TimingEntry {
    TimingEntry(rec.simTime, rec.realTime, rec.code == Prediction, false, None, None)
  }

  // ----- what a trace means, independently of the reader's tables

  predicate Registers(rec: Record, time: real) {
    rec.simTime == time && (rec.code == RealTimeGeneration || rec.code == Prediction)
  }

  predicate Finalizes(rec: Record, time: real) {
    rec.simTime == time && (rec.code == EndOfDistribution || rec.code == Outdated)
  }

  /** How many registrations of the time are not finalized yet. */
  function Live(trace: seq<Record>, time: real): int {
    if trace == [] then 0
    else
      var last := trace[|trace| - 1];
      Live(trace[..|trace| - 1], time)
      + (if Registers(last, time) then 1 else if Finalizes(last, time) then -1 else 0)
  }

  /** No time is finalized more often than it is registered. */
  predicate WellFormed(trace: seq<Record>) {
    forall k :: 0 <= k < |trace| && Finalizes(trace[k], trace[k].simTime) ==>
      Live(trace[..k], trace[k].simTime) >= 1
  }

  /** No time is registered while it is live. */
  predicate Unambiguous(trace: seq<Record>) {
    forall k :: 0 <= k < |trace| && Registers(trace[k], trace[k].simTime) ==>
      Live(trace[..k], trace[k].simTime) == 0
  }

  /** A completed live period with a single registration: registered by record i while
      nothing was live, finalized by record j, and neither in between. */
  predicate SinglePeriod(trace: seq<Record>, i: nat, j: nat)
    requires i < j < |trace|
  {
    var time := trace[j].simTime;
    && Registers(trace[i], time) && Live(trace[..i], time) == 0
    && Finalizes(trace[j], time)
    && (forall k :: i < k < j ==> !Registers(trace[k], time) && !Finalizes(trace[k], time))
  }

  /** The last begin stamp of the time that follows record i. */
  function BeginSince(trace: seq<Record>, i: nat, time: real): Option<real>
    requires i < |trace|
  {
    var last := trace[|trace| - 1];
    if |trace| == i + 1 then None
    else if last.simTime == time && last.code == BeginOfDistribution then Some(last.realTime)
    else BeginSince(trace[..|trace| - 1], i, time)
  }

  /** The stamps of the live period that record i opened. */
  function StampsSince(trace: seq<Record>, i: nat): TimingEntry
    requires i < |trace|
  {
    var begin := BeginSince(trace, i, trace[i].simTime);
    NewEntry(trace[i]).(triggered := begin.Some?, begin := begin)
  }

  function Close(entry: TimingEntry, rec: Record): TimingEntry {
    if rec.code == EndOfDistribution then entry.SetEnd(rec.realTime) else entry
  }

  /** The last record that registers or finalizes the time, or -1. */
  function LastChange(trace: seq<Record>, time: real): (c: int)
    ensures -1 <= c < |trace|
    ensures c >= 0 ==> Registers(trace[c], time) || Finalizes(trace[c], time)
    ensures forall k :: c < k < |trace| ==> !Registers(trace[k], time) && !Finalizes(trace[k], time)
  {
    if trace == [] then -1
    else
      var n := |trace| - 1;
      if Registers(trace[n], time) || Finalizes(trace[n], time) then n else LastChange(trace[..n], time)
  }

  /** The time is live because of a single registration since it was not live. */
  predicate Sole(trace: seq<Record>, time: real) {
    var c := LastChange(trace, time);
    c >= 0 && Registers(trace[c], time) && Live(trace[..c], time) == 0
  }

  /** The entry of such a time, with the stamps seen so far. */
  function SoleEntry(trace: seq<Record>, time: real): Option<TimingEntry> {
    if Sole(trace, time) then Some(StampsSince(trace, LastChange(trace, time))) else None
  }

  /** One entry for each completed live period with a single registration, in the order of
      completion. */
  function Completed(trace: seq<Record>): seq<TimingEntry> {
    if trace == [] then []
    else
      var n := |trace| - 1;
      var (before, last) := (trace[..n], trace[n]);
      var entry := SoleEntry(before, last.simTime);
      Completed(before)
      + (if Finalizes(last, last.simTime) && entry.Some? then [Close(entry.value, last)] else [])
  }

  /** Record j completes an entry if and only if it ends a single period. */
  lemma EndsSinglePeriod(trace: seq<Record>, j: nat)
    requires j < |trace|
    ensures (exists i :: 0 <= i < j && SinglePeriod(trace, i, j))
       <==> Finalizes(trace[j], trace[j].simTime) && SoleEntry(trace[..j], trace[j].simTime).Some?
    ensures forall i :: 0 <= i < j && SinglePeriod(trace, i, j) ==>
              SoleEntry(trace[..j], trace[j].simTime) == Some(StampsSince(trace[..j], i))
  {
    var time, c := trace[j].simTime, LastChange(trace[..j], trace[j].simTime);
    forall i | 0 <= i < j && SinglePeriod(trace, i, j)
      ensures i == c && Sole(trace[..j], time)
    {
      assert trace[..j][i] == trace[i];
      assert trace[..j][..i] == trace[..i];
    }
    if Finalizes(trace[j], time) && Sole(trace[..j], time) {
      assert trace[..j][..c] == trace[..c];
      assert SinglePeriod(trace, c, j);
    }
  }

  /** Record b is the last one after record i that begins a distribution of the time. */
  predicate IsLastBegin(trace: seq<Record>, i: nat, b: int, time: real) {
    && i < b < |trace| && trace[b].simTime == time && trace[b].code == BeginOfDistribution
    && forall k :: b < k < |trace| ==> trace[k].simTime != time || trace[k].code != BeginOfDistribution
  }

  lemma {:induction false} BeginIsLast(trace: seq<Record>, i: nat, time: real)
    requires i < |trace|
    ensures match BeginSince(trace, i, time)
            case Some(begin) => exists b :: IsLastBegin(trace, i, b, time) && begin == trace[b].realTime
            case None => forall k :: i < k < |trace| ==> trace[k].simTime != time || trace[k].code != BeginOfDistribution
    decreases |trace|
  {
    var n := |trace| - 1;
    if n > i {
      var last := trace[n];
      if last.simTime == time && last.code == BeginOfDistribution {
        assert IsLastBegin(trace, i, n, time);
      } else {
        BeginIsLast(trace[..n], i, time);
        if b :| IsLastBegin(trace[..n], i, b, time) && BeginSince(trace[..n], i, time) == Some(trace[..n][b].realTime) {
          assert IsLastBegin(trace, i, b, time);
        }
      }
    }
  }

  /** A single period from record i to record j completes one entry with the times of those
      records and of the last begin between them. Any other record completes none. */
  lemma CompletedAreSinglePeriods(trace: seq<Record>, j: nat)
    requires j < |trace|
    ensures (forall i :: 0 <= i < j ==> !SinglePeriod(trace, i, j)) ==>
              Completed(trace[..j + 1]) == Completed(trace[..j])
    ensures forall i :: 0 <= i < j && SinglePeriod(trace, i, j) ==>
              var entries := Completed(trace[..j + 1]);
              && |entries| == |Completed(trace[..j])| + 1 && entries[..|entries| - 1] == Completed(trace[..j])
              && var (entry, time) := (entries[|entries| - 1], trace[j].simTime);
              && entry.simTime == time && entry.registration == trace[i].realTime
              && (entry.predicted <==> trace[i].code == Prediction)
              && entry.end == (if trace[j].code == EndOfDistribution then Some(trace[j].realTime) else None)
              && (entry.triggered <==> entry.begin.Some? || entry.end.Some?)
              && match entry.begin
                 case Some(begin) => exists b :: IsLastBegin(trace[..j], i, b, time) && begin == trace[b].realTime
                 case None => forall k :: i < k < j ==> trace[k].simTime != time || trace[k].code != BeginOfDistribution
  {
    EndsSinglePeriod(trace, j);
    assert trace[..j + 1][..j] == trace[..j];
    forall i | 0 <= i < j && SinglePeriod(trace, i, j)
      ensures Completed(trace[..j + 1]) == Completed(trace[..j]) + [Close(StampsSince(trace[..j], i), trace[j])]
    {
    }
    forall i | 0 <= i < j
      ensures match BeginSince(trace[..j], i, trace[j].simTime)
              case Some(begin) => exists b :: IsLastBegin(trace[..j], i, b, trace[j].simTime) && begin == trace[b].realTime
              case None => forall k :: i < k < j ==>
                             trace[k].simTime != trace[j].simTime || trace[k].code != BeginOfDistribution
    {
      BeginIsLast(trace[..j], i, trace[j].simTime);
    }
  }

  // ----- the reader

  datatype Failure = DuplicateRegistration | UnknownEvent

  /** The two tables, what was yielded so far, and the error that ended the iteration. */
  datatype Reading = Reading(
    open: map<real, TimingEntry>, duplicates: map<real, int>,
    entries: seq<TimingEntry>, failure: Option<Failure>)

  function AddNew(strict: bool, r: Reading, rec: Record): Reading {
    var t := rec.simTime;
    if t in r.open || t in r.duplicates then
      if strict then r.(failure := Some(DuplicateRegistration))
      else if t in r.open then r.(open := r.open - {t}, duplicates := r.duplicates[t := 2])
      else r.(duplicates := r.duplicates[t := r.duplicates[t] + 1])
    else r.(open := r.open[t := NewEntry(rec)])
  }

  function Finalize(r: Reading, rec: Record): Reading {
    var t := rec.simTime;
    if t in r.open then r.(open := r.open - {t}, entries := r.entries + [Close(r.open[t], rec)])
    else if t !in r.duplicates then r.(failure := Some(UnknownEvent))
    else if r.duplicates[t] - 1 <= 0 then r.(duplicates := r.duplicates - {t})
    else r.(duplicates := r.duplicates[t := r.duplicates[t] - 1])
  }

  function Consume(strict: bool, r: Reading, rec: Record): Reading {
    var t := rec.simTime;
    if r.failure.Some? then r
    else match rec.code
      case RealTimeGeneration => AddNew(strict, r, rec)
      case Prediction => AddNew(strict, r, rec)
      case BeginOfDistribution =>
        if t in r.open then r.(open := r.open[t := r.open[t].SetBegin(rec.realTime)]) else r
      case EndOfDistribution => Finalize(r, rec)
      case Outdated => Finalize(r, rec)
  }

  function ReadTrace(strict: bool, trace: seq<Record>): Reading {
    if trace == [] then Reading(map[], map[], [], None)
    else Consume(strict, ReadTrace(strict, trace[..|trace| - 1]), trace[|trace| - 1])
  }

  /** What the generator yields for the result of `_finalize_event`. */
  function ValueOf(entry: Option<TimingEntry>): seq<TimingEntry> {
    if entry.Some? then [entry.value] else []
  }

  class Reader {
    const strict: bool
    var openEvents: map<real, TimingEntry>
    var duplicates: map<real, int>

    constructor (strict: bool)
      ensures this.strict == strict && openEvents == map[] && duplicates == map[]
    {
      this.strict := strict;
      openEvents, duplicates := map[], map[];
    }

    function View(entries: seq<TimingEntry>, failure: Option<Failure>): Reading
      reads this
    {
      Reading(openEvents, duplicates, entries, failure)
    }

    method AddNewEvent(rec: Record) returns (failure: Option<Failure>)
      modifies this
      ensures forall entries :: View(entries, failure) == AddNew(strict, old(View(entries, None)), rec)
      ensures rec.simTime !in old(openEvents) && rec.simTime !in old(duplicates) ==>
                && failure.None? && duplicates == old(duplicates)
                && openEvents == old(openEvents)[
                     rec.simTime := TimingEntry(rec.simTime, rec.realTime, rec.code == Prediction, false, None, None)]
    {
      var t := rec.simTime;
      failure := None;
      if t in openEvents || t in duplicates {
        if strict {
          failure := Some(DuplicateRegistration);
        } else if t in openEvents {
          openEvents := openEvents - {t};
          duplicates := duplicates[t := 2];
        } else {
          duplicates := duplicates[t := duplicates[t] + 1];
        }
      } else {
        openEvents := openEvents[t := NewEntry(rec)];
      }
    }

    /** The completed entry, if the time was unique, or the failure. */
    method FinalizeEvent(rec: Record) returns (entry: Option<TimingEntry>, failure: Option<Failure>)
      modifies this
      ensures forall entries :: View(entries + ValueOf(entry), failure) == Finalize(old(View(entries, None)), rec)
      ensures rec.simTime in old(openEvents) ==>
                && failure.None? && duplicates == old(duplicates) && openEvents == old(openEvents) - {rec.simTime}
                && var before := old(openEvents)[rec.simTime];
                   entry == Some(if rec.code == EndOfDistribution
                                 then before.(triggered := true, end := Some(rec.realTime)) else before)
    {
      var t := rec.simTime;
      entry, failure := None, None;
      if rec.code == EndOfDistribution && t in openEvents {
        openEvents := openEvents[t := openEvents[t].SetEnd(rec.realTime)];
      }
      if t in openEvents {
        entry := Some(openEvents[t]);
        openEvents := openEvents - {t};
      } else if t !in duplicates {
        failure := Some(UnknownEvent);
      } else {
        duplicates := duplicates[t := duplicates[t] - 1];
        if duplicates[t] <= 0 {
          duplicates := duplicates - {t};
        }
      }
    }

    method Read(trace: seq<Record>) returns (entries: seq<TimingEntry>, failure: Option<Failure>)
      requires openEvents == map[] && duplicates == map[]
      modifies this
      ensures View(entries, failure) == ReadTrace(strict, trace)
    {
      entries, failure := [], None;
      var n := 0;
      assert trace[..0] == [];
      while n < |trace| && failure.None?
        invariant 0 <= n <= |trace|
        invariant View(entries, failure) == ReadTrace(strict, trace[..n])
      {
        var rec := trace[n];
        assert trace[..n + 1][..n] == trace[..n];
        match rec.code {
          case RealTimeGeneration => failure := AddNewEvent(rec);
          case Prediction => failure := AddNewEvent(rec);
          case BeginOfDistribution =>
            if rec.simTime in openEvents {
              openEvents := openEvents[rec.simTime := openEvents[rec.simTime].SetBegin(rec.realTime)];
            }
          case _ =>
            var entry;
            entry, failure := FinalizeEvent(rec);
            entries := entries + ValueOf(entry);
        }
        n := n + 1;
      }
      FailureIsFinal(strict, trace, n);
    }
  }

  lemma {:induction false} FailureIsFinal(strict: bool, trace: seq<Record>, n: nat)
    requires n <= |trace|
    requires n == |trace| || ReadTrace(strict, trace[..n]).failure.Some?
    ensures ReadTrace(strict, trace) == ReadTrace(strict, trace[..n])
    decreases |trace|
  {
    if n == |trace| {
      assert trace[..n] == trace;
    } else {
      assert trace[..|trace| - 1][..n] == trace[..n];
      FailureIsFinal(strict, trace[..|trace| - 1], n);
    }
  }

  // ----- the reader does what the trace means

  /** What the tables must say about a time with the given live count. */
  predicate TableEntry(r: Reading, t: real, live: int, sole: Option<TimingEntry>) {
    && (t in r.open <==> sole.Some?)
    && (t in r.open ==> r.open[t] == sole.value)
    && (t in r.duplicates <==> live > 0 && sole.None?)
    && (t in r.duplicates ==> r.duplicates[t] == live)
    && live >= 0 && (sole.Some? ==> live == 1)
  }

  ghost predicate TracksTime(r: Reading, trace: seq<Record>, t: real) {
    TableEntry(r, t, Live(trace, t), SoleEntry(trace, t))
  }

  /** The tables are disjoint and hold exactly the live times with their counts. */
  ghost predicate Tracks(r: Reading, trace: seq<Record>) {
    r.failure.None? && r.entries == Completed(trace) && forall t :: TracksTime(r, trace, t)
  }

  function NextLive(live: int, rec: Record, time: real): int {
    live + (if Registers(rec, time) then 1 else if Finalizes(rec, time) then -1 else 0)
  }

  function NextSole(live: int, sole: Option<TimingEntry>, rec: Record, time: real): Option<TimingEntry> {
    if Registers(rec, time) then (if live == 0 then Some(NewEntry(rec)) else None)
    else if Finalizes(rec, time) then None
    else if sole.Some? && rec.simTime == time && rec.code == BeginOfDistribution
    then Some(sole.value.SetBegin(rec.realTime))
    else sole
  }

  /** What one more record changes for a time. */
  lemma OneMoreRecord(trace: seq<Record>, rec: Record, time: real)
    ensures Live(trace + [rec], time) == NextLive(Live(trace, time), rec, time)
    ensures SoleEntry(trace + [rec], time) == NextSole(Live(trace, time), SoleEntry(trace, time), rec, time)
  {
    var longer := trace + [rec];
    assert longer[..|trace|] == trace;
    var c := LastChange(longer, time);
    if 0 <= c < |trace| {
      assert longer[..c] == trace[..c];
      assert longer[c] == trace[c];
    }
  }

  lemma OneMoreRecordAccepted(trace: seq<Record>, rec: Record)
    ensures WellFormed(trace + [rec])
       <==> WellFormed(trace) && (Finalizes(rec, rec.simTime) ==> Live(trace, rec.simTime) >= 1)
    ensures Unambiguous(trace + [rec])
       <==> Unambiguous(trace) && (Registers(rec, rec.simTime) ==> Live(trace, rec.simTime) == 0)
  {
    var longer := trace + [rec];
    assert longer[..|trace|] == trace && longer[|trace|] == rec;
    assert forall k :: 0 <= k < |trace| ==> longer[..k] == trace[..k] && longer[k] == trace[k];
  }

  predicate Consumable(strict: bool, trace: seq<Record>, rec: Record) {
    && (Finalizes(rec, rec.simTime) ==> Live(trace, rec.simTime) >= 1)
    && (strict && Registers(rec, rec.simTime) ==> Live(trace, rec.simTime) == 0)
  }

  lemma ConsumeUpdatesTables(strict: bool, r: Reading, rec: Record, t: real, live: int, sole: Option<TimingEntry>)
    requires r.failure.None? && TableEntry(r, t, live, sole)
    requires rec.simTime == t && Finalizes(rec, t) ==> live >= 1
    requires strict && Registers(rec, t) ==> live == 0
    ensures TableEntry(Consume(strict, r, rec), t, NextLive(live, rec, t), NextSole(live, sole, rec, t))
  {
  }

  lemma ConsumeTracksTime(strict: bool, r: Reading, trace: seq<Record>, rec: Record, t: real)
    requires r.failure.None? && TracksTime(r, trace, t)
    requires Consumable(strict, trace, rec)
    ensures TracksTime(Consume(strict, r, rec), trace + [rec], t)
  {
    OneMoreRecord(trace, rec, t);
    ConsumeUpdatesTables(strict, r, rec, t, Live(trace, t), SoleEntry(trace, t));
  }

  lemma ConsumeYields(strict: bool, r: Reading, trace: seq<Record>, rec: Record)
    requires r.failure.None? && r.entries == Completed(trace) && TracksTime(r, trace, rec.simTime)
    ensures Consume(strict, r, rec).failure.None? <==> Consumable(strict, trace, rec)
    ensures Consumable(strict, trace, rec) ==> Consume(strict, r, rec).entries == Completed(trace + [rec])
  {
    assert (trace + [rec])[..|trace|] == trace;
  }

  /** The reader succeeds on exactly those traces that never finalize a time more often than
      they register it - and, in strict mode, never register a live time again. It then
      yields one entry for each completed live period with a single registration. */
  lemma {:induction false} ReaderYieldsSinglePeriods(strict: bool, trace: seq<Record>)
    ensures var r := ReadTrace(strict, trace);
            if WellFormed(trace) && (strict ==> Unambiguous(trace))
            then Tracks(r, trace) && r.entries == Completed(trace)
            else r.failure.Some?
  {
    if trace != [] {
      var n := |trace| - 1;
      var (before, rec) := (trace[..n], trace[n]);
      var r := ReadTrace(strict, before);
      assert trace == before + [rec];
      ReaderYieldsSinglePeriods(strict, before);
      OneMoreRecordAccepted(before, rec);
      if WellFormed(before) && (strict ==> Unambiguous(before)) {
        assert TracksTime(r, before, rec.simTime);
        ConsumeYields(strict, r, before, rec);
        if Consumable(strict, before, rec) {
          forall t ensures TracksTime(ReadTrace(strict, trace), trace, t) {
            assert TracksTime(r, before, t);
            ConsumeTracksTime(strict, r, before, rec, t);
          }
        }
      }
    }
  }

  /** The two tables never share a time. */
  lemma TablesAreDisjoint(strict: bool, trace: seq<Record>)
    requires ReadTrace(strict, trace).failure.None?
    ensures var r := ReadTrace(strict, trace);
            && r.open.Keys !! r.duplicates.Keys
            && (forall t :: t in r.open || t in r.duplicates <==> Live(trace, t) > 0)
            && (forall t :: t in r.duplicates ==> r.duplicates[t] == Live(trace, t))
  {
    ReaderYieldsSinglePeriods(strict, trace);
    var r := ReadTrace(strict, trace);
    forall t
      ensures t in r.open || t in r.duplicates <==> Live(trace, t) > 0
      ensures t in r.duplicates ==> r.duplicates[t] == Live(trace, t)
      ensures !(t in r.open && t in r.duplicates)
    {
      assert TracksTime(r, trace, t);
    }
  }
}
