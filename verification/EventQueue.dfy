/** The queue object. Every method body runs while the queue mutex is held, so each call
    is one atomic step. */
module EventQueue {
  import opened Fmi
  import opened TimeConversion
  import opened TimedQueue

  lemma Associate(a: seq<Entry>, b: seq<Entry>, c: seq<Entry>)
    ensures a + (b + c) == a + b + c
  {
  }

  lemma NeighboursStay(eps: Tolerance, q: seq<Entry>, drop: bool)
    requires drop ==> q != []
    ensures NeighboursOrdered(eps, q) ==> NeighboursOrdered(eps, DropFrontIf(drop, q))
  {
    if drop && NeighboursOrdered(eps, q) {
      assert forall i :: 0 < i < |q[1..]| ==> q[1..][i] == q[i + 1] && q[1..][i - 1] == q[i];
    }
  }

  class TimedEventQueue {
    const eps: Tolerance
    var queue: seq<Entry>
    /** The events handed to deleteEvent, oldest first. */
    var outdated: seq<Entry>
    /** How often the condition variable was notified. */
    var notifications: nat
    var localEpoch: int
    var initialized: bool

    constructor (eps: Tolerance, clock: int)
      ensures this.eps == eps && queue == [] && outdated == [] && notifications == 0
      ensures localEpoch == clock && !initialized
    {
      this.eps := eps;
      queue, outdated, notifications := [], [], 0;
      localEpoch, initialized := clock, false;
    }

    /** Makes `start` the simulation time of this instant and opens the barrier. */
    method InitStartTimeNow(clock: int, start: real)
      requires queue == [] && !initialized
      modifies this`localEpoch, this`initialized
      ensures initialized
      ensures SystemTime(localEpoch, start) == clock
      ensures start - 0.000001 < SimulationTime(localEpoch, clock) <= start
    {
      localEpoch := clock;
      localEpoch := localEpoch - RelativeTicks(start);
      initialized := true;
      RoundTripLosesLessThanATick(localEpoch, start);
    }

    method GetTimeStampNow(clock: int) returns (time: real)
      requires initialized
      ensures SystemTime(localEpoch, time) == clock
    {
      time := SimulationTime(localEpoch, clock);
      ClockRoundTrip(localEpoch, clock);
    }

    method DeleteEvent(entry: Entry)
      modifies this`outdated
      ensures outdated == old(outdated) + [entry]
    {
      outdated := outdated + [entry];
    }

    method RemoveFuturePredictions(time: real)
      requires PredictionOnlyAtFront(queue)
      modifies this`queue, this`outdated
      ensures if old(queue) != [] && old(queue)[0].predicted && old(queue)[0].ev.time > time + eps
              then queue == old(queue)[1..] && outdated == old(outdated) + [old(queue)[0]]
              else queue == old(queue) && outdated == old(outdated)
    {
      if queue != [] && queue[0].predicted && queue[0].ev.time > time + eps {
        DeleteEvent(queue[0]);
        queue := queue[1..];
      }
    }

    method RemoveConcurrentPrediction(time: real)
      requires PredictionOnlyAtFront(queue)
      modifies this`queue, this`outdated
      ensures if old(queue) != [] && old(queue)[0].predicted && time - eps <= old(queue)[0].ev.time <= time + eps
              then queue == old(queue)[1..] && outdated == old(outdated) + [old(queue)[0]]
              else queue == old(queue) && outdated == old(outdated)
    {
      if queue != [] && queue[0].predicted && Abs(queue[0].ev.time - time) <= eps {
        DeleteEvent(queue[0]);
        queue := queue[1..];
      }
    }

    static function Abs(r: real): real {
      if r < 0.0 then -r else r
    }

    /** Both assertions are those of the original. */
    method PushEntry(ev: Event, predicted: bool)
      requires queue == [] || !queue[0].predicted || !predicted
      requires !predicted ==> NeighboursOrdered(eps, queue)
      modifies this`queue
      ensures queue == Push(eps, old(queue), Entry(ev, predicted))
    {
      assert queue == [] || !queue[0].predicted || !predicted;
      var it := 0;
      while it < |queue| && queue[it].ev.time <= ev.time + eps && !predicted
        invariant 0 <= it <= |queue|
        invariant predicted ==> it == 0
        invariant forall i :: 0 <= i < it ==> queue[i].ev.time <= ev.time + eps
      {
        assert it > 0 ==> queue[it - 1].ev.time <= queue[it].ev.time + eps;
        it := it + 1;
      }
      assert !predicted ==> it == Slot(eps, queue, ev.time);
      queue := queue[..it] + [Entry(ev, predicted)] + queue[it..];
    }

    /** The contents become what the list discipline prescribes, whoever the caller is, as
        long as the assertions inside hold. */
    method AddEvent(ev: Event, predicted: bool)
      requires initialized
      requires PredictionOnlyAtFront(queue)
      requires !predicted ==> NeighboursOrdered(eps, queue)
      modifies this`queue, this`outdated, this`notifications
      ensures var r := Add(eps, old(queue), Entry(ev, predicted));
              && queue == r.queue
              && outdated == old(outdated) + r.outdated
              && notifications == old(notifications) + (if r.notify then 1 else 0)
    {
      ghost var (q0, gone) := (queue, outdated);
      ghost var future := FrontIsFuture(eps, queue, ev.time);
      ghost var kept := outdated + FrontIf(future, queue);
      RemoveFuturePredictions(ev.time);
      assert outdated == kept;
      if predicted && HasPriorEvents(ev.time) {
        DeleteEvent(Entry(ev, predicted));
        return;
      }
      ghost var concurrent := predicted && FrontIsConcurrent(eps, queue, ev.time);
      ghost var q1 := queue;
      NeighboursStay(eps, q0, future);
      if predicted {
        RemoveConcurrentPrediction(ev.time);
      }
      assert outdated == kept + FrontIf(concurrent, q1);
      Associate(gone, FrontIf(future, q0), FrontIf(concurrent, q1));
      PushEntry(ev, predicted);
      notifications := notifications + 1;
    }

    /** An external event deletes the prediction at the front exactly if that is more than the
        tolerance after it, and goes behind what is up to the tolerance after it. Its record in
        the timing log is a step of its own. */
    method PushExternalEvent(ev: Event)
      requires initialized && PredictionOnlyAtFront(queue) && NeighboursOrdered(eps, queue)
      modifies this`queue, this`outdated, this`notifications
      ensures var r := Add(eps, old(queue), Entry(ev, false));
              && queue == r.queue && outdated == old(outdated) + r.outdated && r.notify
              && notifications == old(notifications) + 1
      ensures var q := old(queue);
              var removed := q != [] && q[0].predicted && q[0].ev.time > ev.time + eps;
              && outdated == old(outdated) + (if removed then [q[0]] else [])
              && IsPlaced(eps, if removed then q[1..] else q, Entry(ev, false), queue)
    {
      AddExternalIsExact(eps, queue, Entry(ev, false));
      AddEvent(ev, false);
    }

    predicate HasPriorEvents(maxTime: real)
      reads this`queue
    {
      queue != [] && queue[0].ev.time < maxTime - eps
    }

    /** One pass of the loop in `get`: waits for a signal, waits for the due time of the
        front, or takes the front out. */
    method PollOnce(clock: int) returns (r: PollResult)
      requires initialized
      modifies this`queue
      ensures r == Poll(old(queue), localEpoch, clock)
      ensures queue == if r.Deliver? then old(queue)[1..] else old(queue)
    {
      if queue == [] {
        r := WaitForEvent;
      } else if IsFuture(localEpoch, clock, queue[0].ev.time) {
        r := WaitUntil(SystemTime(localEpoch, queue[0].ev.time));
      } else {
        r := Deliver(queue[0]);
        queue := queue[1..];
      }
    }
  }
}
