/** The list discipline of the timed event queue. Events closer than the tolerance count
    as simultaneous, so the order is not transitive. */
module TimedQueue {
  import opened Fmi
  import opened TimeConversion

  type Tolerance = e: real | 0.0 <= e witness 0.0

  datatype Entry = Entry(ev: Event, predicted: bool)

  predicate FrontIsFuture(eps: Tolerance, q: seq<Entry>, time: real) {
    q != [] && q[0].predicted && q[0].ev.time > time + eps
  }

  predicate FrontIsConcurrent(eps: Tolerance, q: seq<Entry>, time: real) {
    q != [] && q[0].predicted && q[0].ev.time - time <= eps && time - q[0].ev.time <= eps
  }

  predicate HasPrior(eps: Tolerance, q: seq<Entry>, time: real) {
    q != [] && q[0].ev.time < time - eps
  }

  /** The first position whose event is more than the tolerance after the given time. */
  function Slot(eps: Tolerance, q: seq<Entry>, time: real): (slot: nat)
    ensures slot <= |q|
    ensures forall i :: 0 <= i < slot ==> q[i].ev.time <= time + eps
    ensures slot < |q| ==> q[slot].ev.time > time + eps
  {
    if q == [] || q[0].ev.time > time + eps then 0 else 1 + Slot(eps, q[1..], time)
  }

  function Push(eps: Tolerance, q: seq<Entry>, e: Entry): seq<Entry> {
    var slot := if e.predicted then 0 else Slot(eps, q, e.ev.time);
    q[..slot] + [e] + q[slot..]
  }

  /** The queue after an insertion, the events it deleted, and whether it wakes the consumer. */
  datatype Insertion = Insertion(queue: seq<Entry>, outdated: seq<Entry>, notify: bool)

  function DropFrontIf(drop: bool, q: seq<Entry>): seq<Entry>
    requires drop ==> q != []
  {
    if drop then q[1..] else q
  }

  function FrontIf(drop: bool, q: seq<Entry>): seq<Entry>
    requires drop ==> q != []
  {
    if drop then [q[0]] else []
  }

  function Add(eps: Tolerance, q: seq<Entry>, e: Entry): Insertion {
    var future := FrontIsFuture(eps, q, e.ev.time);
    var q1 := DropFrontIf(future, q);
    if e.predicted && HasPrior(eps, q1, e.ev.time) then
      Insertion(q1, FrontIf(future, q) + [e], false)
    else
      var concurrent := e.predicted && FrontIsConcurrent(eps, q1, e.ev.time);
      Insertion(Push(eps, DropFrontIf(concurrent, q1), e), FrontIf(future, q) + FrontIf(concurrent, q1), true)
  }

  /** One pass of the loop in `get`, made while the queue is locked. */
  datatype PollResult = WaitForEvent | WaitUntil(due: int) | Deliver(entry: Entry)

  function Poll(q: seq<Entry>, epoch: int, clock: int): PollResult {
    if q == [] then WaitForEvent
    else if IsFuture(epoch, clock, q[0].ev.time) then WaitUntil(SystemTime(epoch, q[0].ev.time))
    else Deliver(q[0])
  }

  // ----- what the protocol keeps

  predicate NoPredictions(q: seq<Entry>) {
    forall i :: 0 <= i < |q| ==> !q[i].predicted
  }

  predicate PredictionOnlyAtFront(q: seq<Entry>) {
    forall i :: 1 <= i < |q| ==> !q[i].predicted
  }

  predicate ExternalsOrdered(eps: Tolerance, q: seq<Entry>) {
    forall i, j :: 0 <= i < j < |q| && !q[i].predicted ==> q[i].ev.time <= q[j].ev.time + eps
  }

  predicate NeighboursOrdered(eps: Tolerance, q: seq<Entry>) {
    forall i :: 0 < i < |q| ==> q[i - 1].ev.time <= q[i].ev.time + eps
  }

  predicate Ordered(eps: Tolerance, q: seq<Entry>) {
    PredictionOnlyAtFront(q) && ExternalsOrdered(eps, q) && NeighboursOrdered(eps, q)
  }

  /** A prediction may overtake by two tolerances, an external event by one only. */
  lemma OrderBounds(eps: Tolerance, q: seq<Entry>, i: nat, j: nat)
    requires Ordered(eps, q) && i < j < |q|
    ensures q[i].ev.time <= q[j].ev.time + (if q[i].predicted then 2.0 * eps else eps)
  {
    if q[i].predicted {
      assert i == 0;
      assert q[0].ev.time <= q[1].ev.time + eps;
    }
  }

  /** `r` is `q` with `e` in front of position `slot`. */
  predicate IsInsertion(q: seq<Entry>, e: Entry, slot: nat, r: seq<Entry>) {
    && |r| == |q| + 1 && slot <= |q| && r[slot] == e
    && (forall i :: 0 <= i < slot ==> r[i] == q[i])
    && (forall i :: slot < i < |r| ==> r[i] == q[i - 1])
  }

  /** `r` is `q` with `e` behind everything that is at most the tolerance after it, and in
      front of something that is later. */
  ghost predicate IsPlaced(eps: Tolerance, q: seq<Entry>, e: Entry, r: seq<Entry>) {
    exists slot: nat :: slot <= |q| && r == q[..slot] + [e] + q[slot..]
      && (forall i :: 0 <= i < slot ==> q[i].ev.time <= e.ev.time + eps)
      && (slot < |q| ==> q[slot].ev.time > e.ev.time + eps)
  }

  lemma PushPlaces(eps: Tolerance, q: seq<Entry>, e: Entry)
    requires !e.predicted
    ensures IsPlaced(eps, q, e, Push(eps, q, e))
  {
    var slot := Slot(eps, q, e.ev.time);
    assert Push(eps, q, e) == q[..slot] + [e] + q[slot..];
  }

  /** An external event removes the prediction at the front if and only if that is more than
      the tolerance after it. It goes behind everything up to the tolerance after it, and
      all other entries stay where they are. */
  lemma AddExternalIsExact(eps: Tolerance, q: seq<Entry>, e: Entry)
    requires !e.predicted
    ensures var r := Add(eps, q, e);
            var removed := q != [] && q[0].predicted && q[0].ev.time > e.ev.time + eps;
            var kept := if removed then q[1..] else q;
            && r.outdated == (if removed then [q[0]] else []) && r.notify
            && IsPlaced(eps, kept, e, r.queue)
  {
    PushPlaces(eps, DropFrontIf(FrontIsFuture(eps, q, e.ev.time), q), e);
  }

  lemma ExternalOutdates(eps: Tolerance, q: seq<Entry>, e: Entry)
    requires !e.predicted
    ensures Add(eps, q, e).outdated
         == if q != [] && q[0].predicted && q[0].ev.time > e.ev.time + eps then [q[0]] else []
  {
  }

  lemma PlacedMembers(eps: Tolerance, q: seq<Entry>, e: Entry, r: seq<Entry>)
    requires IsPlaced(eps, q, e, r)
    ensures forall x :: x in r ==> x in q || x == e
  {
  }

  lemma LaterPredictionLeaves(eps: Tolerance, q: seq<Entry>, e: Entry, p: Entry)
    requires PredictionOnlyAtFront(q) && p in q && p.predicted && !e.predicted && e.ev.time < p.ev.time - eps
    ensures p !in Add(eps, q, e).queue
  {
    assert q[0] == p;
    assert p !in q[1..];
    PushPlaces(eps, q[1..], e);
    PlacedMembers(eps, q[1..], e, Push(eps, q[1..], e));
  }

  /** A prediction removes one that is more than the tolerance after it. It is itself rejected
      if then the front is more than the tolerance before it. Otherwise it goes to the front,
      in place of a prediction that is there. */
  lemma AddPredictionIsExact(eps: Tolerance, q: seq<Entry>, e: Entry)
    requires e.predicted && PredictionOnlyAtFront(q)
    ensures var (r, t) := (Add(eps, q, e), e.ev.time);
            if q == [] then r == Insertion([e], [], true)
            else if q[0].ev.time < t - eps then r == Insertion(q, [e], false)
            else if !q[0].predicted then r == Insertion([e] + q, [], true)
            else if q[0].ev.time > t + eps && |q| > 1 && q[1].ev.time < t - eps
            then r == Insertion(q[1..], [q[0], e], false)
            else r == Insertion([e] + q[1..], [q[0]], true)
  {
  }

  lemma ExternalsStayOrdered(eps: Tolerance, q: seq<Entry>, e: Entry, slot: nat, r: seq<Entry>)
    requires IsInsertion(q, e, slot, r) && ExternalsOrdered(eps, q) && !e.predicted
    requires forall i :: 0 <= i < slot ==> q[i].ev.time <= e.ev.time + eps
    requires slot < |q| ==> q[slot].ev.time > e.ev.time + eps && !q[slot].predicted
    ensures ExternalsOrdered(eps, r)
  {
    forall i, j | 0 <= i < j < |r| && !r[i].predicted
      ensures r[i].ev.time <= r[j].ev.time + eps
    {
      if i == slot && j > slot + 1 {
        assert q[slot].ev.time <= q[j - 1].ev.time + eps;
      }
    }
  }

  lemma NeighboursStayOrdered(eps: Tolerance, q: seq<Entry>, e: Entry, slot: nat, r: seq<Entry>)
    requires IsInsertion(q, e, slot, r) && NeighboursOrdered(eps, q)
    requires forall i :: 0 <= i < slot ==> q[i].ev.time <= e.ev.time + eps
    requires slot < |q| ==> q[slot].ev.time > e.ev.time + eps
    ensures NeighboursOrdered(eps, r)
  {
    forall i | 0 < i < |r|
      ensures r[i - 1].ev.time <= r[i].ev.time + eps
    {
      if i > slot + 1 {
        assert r[i - 1] == q[i - 2] && r[i] == q[i - 1];
      }
    }
  }

  lemma PushExternalKeepsOrder(eps: Tolerance, q: seq<Entry>, e: Entry)
    requires Ordered(eps, q) && !e.predicted && !FrontIsFuture(eps, q, e.ev.time)
    ensures Ordered(eps, Push(eps, q, e))
  {
    var (slot, r) := (Slot(eps, q, e.ev.time), Push(eps, q, e));
    assert IsInsertion(q, e, slot, r);
    ExternalsStayOrdered(eps, q, e, slot, r);
    NeighboursStayOrdered(eps, q, e, slot, r);
  }

  /** External events may be added at any moment of the protocol. */
  lemma AddExternalKeepsOrder(eps: Tolerance, q: seq<Entry>, e: Entry)
    requires Ordered(eps, q) && !e.predicted
    ensures Ordered(eps, Add(eps, q, e).queue)
  {
    PushExternalKeepsOrder(eps, DropFrontIf(FrontIsFuture(eps, q, e.ev.time), q), e);
  }

  /** A prediction replaces a concurrent one. If the entry behind that one is more than the
      tolerance before the new prediction, the order breaks; in all other cases it stays. */
  predicate Drifts(eps: Tolerance, q: seq<Entry>, time: real) {
    FrontIsConcurrent(eps, q, time) && |q| > 1 && time > q[1].ev.time + eps
  }

  lemma AddPredictionKeepsOrder(eps: Tolerance, q: seq<Entry>, e: Entry)
    requires Ordered(eps, q) && e.predicted
    ensures Ordered(eps, Add(eps, q, e).queue) <==> !Drifts(eps, q, e.ev.time)
  {
    if Drifts(eps, q, e.ev.time) {
      var r := Add(eps, q, e).queue;
      assert r == [e] + q[1..];
      assert r[0].ev.time > r[1].ev.time + eps;
    } else if FrontIsFuture(eps, q, e.ev.time) || FrontIsConcurrent(eps, q, e.ev.time) {
      WithoutFrontIsOrdered(eps, q);
      AddFirstPrediction(eps, q[1..], e);
    } else if NoPredictions(q) {
      AddFirstPrediction(eps, q, e);
    }
  }

  lemma WithoutFrontIsOrdered(eps: Tolerance, q: seq<Entry>)
    requires Ordered(eps, q) && q != []
    ensures Ordered(eps, q[1..]) && NoPredictions(q[1..])
  {
    assert forall i :: 0 <= i < |q[1..]| ==> q[1..][i] == q[i + 1];
  }

  lemma FrontInsertionIsOrdered(eps: Tolerance, q: seq<Entry>, e: Entry)
    requires Ordered(eps, q) && NoPredictions(q) && e.predicted
    requires q != [] ==> e.ev.time <= q[0].ev.time + eps
    ensures Ordered(eps, [e] + q)
  {
    assert IsInsertion(q, e, 0, [e] + q);
  }

  /** While no other prediction is queued, a prediction is rejected or put at the front. */
  lemma AddFirstPrediction(eps: Tolerance, q: seq<Entry>, e: Entry)
    requires Ordered(eps, q) && e.predicted && NoPredictions(q)
    ensures Ordered(eps, Add(eps, q, e).queue)
    ensures Add(eps, q, e) == if q != [] && q[0].ev.time < e.ev.time - eps then Insertion(q, [e], false)
                              else Insertion([e] + q, [], true)
  {
    AddPredictionIsExact(eps, q, e);
    if q == [] || q[0].ev.time >= e.ev.time - eps {
      FrontInsertionIsOrdered(eps, q, e);
    }
  }

  /** The front of the queue while the dispatcher waits for its prediction `p`: either
      that prediction, or an external event strictly before it. */
  predicate FrontAwaits(q: seq<Entry>, p: Event) {
    q != [] && (q[0] == Entry(p, true) || (!q[0].predicted && q[0].ev.time < p.time))
  }

  /** The new prediction, or an external event before it, is at the front unless there is
      another prediction more than the tolerance before it. */
  lemma AddPredictionAwaits(eps: Tolerance, q: seq<Entry>, p: Event)
    requires PredictionOnlyAtFront(q)
    ensures FrontAwaits(Add(eps, q, Entry(p, true)).queue, p) <==> !(HasPrior(eps, q, p.time) && q[0].predicted)
  {
    var e := Entry(p, true);
    if FrontIsFuture(eps, q, p.time) {
      assert q[1..] != [] ==> q[1..][0] == q[1];
    }
  }

  lemma AddExternalStillAwaits(eps: Tolerance, q: seq<Entry>, p: Event, e: Entry)
    requires Ordered(eps, q) && FrontAwaits(q, p) && !e.predicted
    ensures FrontAwaits(Add(eps, q, e).queue, p)
  {
    var q1 := DropFrontIf(FrontIsFuture(eps, q, e.ev.time), q);
    var r := Push(eps, q1, e);
    assert r[0] == if Slot(eps, q1, e.ev.time) == 0 then e else q1[0];
  }

  lemma DropConserves(drop: bool, q: seq<Entry>)
    requires drop ==> q != []
    ensures multiset(q) == multiset(DropFrontIf(drop, q)) + multiset(FrontIf(drop, q))
  {
    assert drop ==> q == [q[0]] + q[1..];
  }

  lemma PushConserves(eps: Tolerance, q: seq<Entry>, e: Entry)
    ensures multiset(Push(eps, q, e)) == multiset(q) + multiset{e}
  {
    var slot := if e.predicted then 0 else Slot(eps, q, e.ev.time);
    assert q == q[..slot] + q[slot..];
  }

  lemma FrontIfIsPrediction(drop: bool, q: seq<Entry>)
    requires drop ==> q != [] && q[0].predicted
    ensures forall d :: d in FrontIf(drop, q) ==> d.predicted
  {
  }

  /** Nothing gets lost: what goes in is queued or outdated. */
  lemma AddConserves(eps: Tolerance, q: seq<Entry>, e: Entry)
    ensures multiset(q) + multiset{e} == multiset(Add(eps, q, e).queue) + multiset(Add(eps, q, e).outdated)
  {
    var future := FrontIsFuture(eps, q, e.ev.time);
    var q1 := DropFrontIf(future, q);
    DropConserves(future, q);
    var o1 := FrontIf(future, q);
    if e.predicted && HasPrior(eps, q1, e.ev.time) {
      assert multiset(o1 + [e]) == multiset(o1) + multiset{e};
    } else {
      var concurrent := e.predicted && FrontIsConcurrent(eps, q1, e.ev.time);
      var q2 := DropFrontIf(concurrent, q1);
      var o2 := FrontIf(concurrent, q1);
      DropConserves(concurrent, q1);
      PushConserves(eps, q2, e);
      assert multiset(o1 + o2) == multiset(o1) + multiset(o2);
      var queued, dropped := multiset(q2), multiset(o2);
      assert (queued + dropped) + multiset(o1) + multiset{e} == (queued + multiset{e}) + (multiset(o1) + dropped);
    }
  }

  /** Only predictions are outdated. */
  lemma OnlyPredictionsOutdated(eps: Tolerance, q: seq<Entry>, e: Entry)
    ensures forall d :: d in Add(eps, q, e).outdated ==> d.predicted
  {
    var q1 := DropFrontIf(FrontIsFuture(eps, q, e.ev.time), q);
    FrontIfIsPrediction(FrontIsFuture(eps, q, e.ev.time), q);
    FrontIfIsPrediction(e.predicted && FrontIsConcurrent(eps, q1, e.ev.time), q1);
  }

  /** Without an intervening `get`, a second prediction replaces the first one if they are
      concurrent. It breaks the order exactly if it thereby moves past the next external
      event by more than the tolerance: the discipline needs the dispatcher. */
  lemma RepeatedPredictionsDrift(eps: Tolerance, external: Event, first: Event, second: Event)
    ensures var q0 := [Entry(external, false)];
            var q1 := Add(eps, q0, Entry(first, true)).queue;
            var q2 := Add(eps, q1, Entry(second, true)).queue;
            && Ordered(eps, q1)
            && (Ordered(eps, q2) <==>
                  !(first.time - eps <= external.time && first.time - eps <= second.time <= first.time + eps
                    && second.time > external.time + eps))
  {
    var q0 := [Entry(external, false)];
    AddFirstPrediction(eps, q0, Entry(first, true));
    var q1 := Add(eps, q0, Entry(first, true)).queue;
    assert q1 == if external.time < first.time - eps then q0 else [Entry(first, true)] + q0;
    AddPredictionKeepsOrder(eps, q1, Entry(second, true));
  }
}
