/** The dispatcher driving the queue object. The schedule says which thread moves next; the
    object takes every step of the transition system without violating a precondition of
    the queue, that is without failing one of its assertions. */
module EventLoop {
  import opened Fmi
  import opened TimeConversion
  import opened TimedQueue
  import opened Dispatcher
  import opened DispatcherProofs
  import opened EventQueue

  class EventDispatcher {
    const stopTime: real
    const queue: TimedEventQueue
    var control: Control
    var pending: set<Entry>
    var clock: int
    /** What the threads did to events, oldest first. */
    var history: seq<Action>

    constructor (eps: Tolerance, stopTime: real, clock: int)
      ensures this.stopTime == stopTime && queue.eps == eps && fresh(queue)
      ensures Represents(InitialState(clock))
    {
      this.stopTime := stopTime;
      queue := new TimedEventQueue(eps, clock);
      control, pending, this.clock, history := Starting, {}, clock, [];
    }

    function Configuration(): Config {
      Config(queue.eps, stopTime)
    }

    ghost predicate Represents(s: State)
      reads this, queue
    {
      && control == s.control && pending == s.pending && clock == s.clock && history == s.history
      && queue.queue == s.queue && queue.localEpoch == s.epoch
      && (queue.initialized <==> !control.Starting?)
    }

    method Record(stage: Stage, entry: Entry)
      modifies this`history
      ensures history == old(history) + [Action(stage, entry, clock)]
    {
      history := history + [Action(stage, entry, clock)];
    }

    /** The queue notes which events it deletes while one is added. */
    method AddEvent(ev: Event, predicted: bool) returns (notified: bool)
      requires queue.initialized && PredictionOnlyAtFront(queue.queue)
      requires !predicted ==> NeighboursOrdered(queue.eps, queue.queue)
      modifies this`history, queue`queue, queue`outdated, queue`notifications
      ensures var r := Add(queue.eps, old(queue.queue), Entry(ev, predicted));
              && queue.queue == r.queue && notified == r.notify
              && history == old(history) + [Action(Added, Entry(ev, predicted), clock)]
                            + OutdatedActions(r.outdated, clock)
    {
      var before, notifications := |queue.outdated|, queue.notifications;
      Record(Added, Entry(ev, predicted));
      if predicted {
        queue.AddEvent(ev, true);
      } else {
        queue.PushExternalEvent(ev);
      }
      notified := queue.notifications > notifications;
      history := history + OutdatedActions(queue.outdated[before..], clock);
    }

    method Take(step: Step, ghost s: State)
      requires Represents(s) && Inv(Configuration(), s) && Enabled(s, step)
      modifies this, queue
      ensures Represents(Apply(Configuration(), s, step))
    {
      match step {
        case Start(startTime) =>
          queue.InitStartTimeNow(clock, startTime);
          RelativeTicksFromSystemTime(queue.localEpoch, startTime, clock);
          control := Predicting;
        case Predict(p) =>
          Record(Registered, Entry(p, true));
          control := Adding(p);
        case AddPrediction =>
          var notified := AddEvent(control.p, true);
          control := Checking(control.p);
        case Check =>
          var r := queue.PollOnce(clock);
          match r {
            case WaitForEvent => control := Waiting(control.p, None, false);
            case WaitUntil(due) => control := Waiting(control.p, Some(due), false);
            case Deliver(entry) =>
              Record(Delivered, entry);
              control := Holding(control.p, entry);
          }
        case WakeUp =>
          control := Checking(control.p);
        case Begin =>
          Record(Begun, control.next);
          control := Notifying(control.p, control.next);
        case End =>
          Record(Ended, control.next);
          control := if control.next.ev.time < stopTime then Predicting else Stopped;
        case Register(e) =>
          Record(Registered, Entry(e, false));
          pending := pending + {Entry(e, false)};
        case AddExternal(e) =>
          assert PhaseFits(s, Entry(e, false));
          pending := pending - {Entry(e, false)};
          var notified := AddEvent(e, false);
          control := Signal(control, notified);
        case Tick(now) =>
          clock := now;
      }
    }

    /** After any schedule, the object is in the state that the transition system reaches. */
    method Run(schedule: seq<Step>)
      requires Represents(InitialState(clock)) && IsRun(Configuration(), clock, schedule)
      modifies this, queue
      ensures Represents(StateAfter(Configuration(), old(clock), schedule))
    {
      ghost var c, start := Configuration(), clock;
      assert schedule[..0] == [];
      var n := 0;
      while n < |schedule|
        invariant 0 <= n <= |schedule|
        invariant IsRun(c, start, schedule[..n])
        invariant Represents(StateAfter(c, start, schedule[..n]))
      {
        RunPrefix(c, start, schedule, n + 1);
        assert schedule[..n + 1][..n] == schedule[..n];
        RunInv(c, start, schedule[..n]);
        Take(schedule[n], StateAfter(c, start, schedule[..n]));
        n := n + 1;
      }
      assert schedule[..n] == schedule;
    }
  }

  lemma RelativeTicksFromSystemTime(epoch: int, time: real, clock: int)
    requires SystemTime(epoch, time) == clock
    ensures epoch == clock - RelativeTicks(time)
  {
  }

  lemma {:induction false} RunPrefix(c: Config, clock: int, steps: seq<Step>, n: nat)
    requires IsRun(c, clock, steps) && n <= |steps|
    ensures IsRun(c, clock, steps[..n])
    decreases |steps|
  {
    if n == |steps| {
      assert steps[..n] == steps;
    } else {
      assert steps[..|steps| - 1][..n] == steps[..n];
      RunPrefix(c, clock, steps[..|steps| - 1], n);
    }
  }
}
