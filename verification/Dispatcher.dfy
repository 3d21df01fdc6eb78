/** The dispatcher loop and the subscriber threads as one transition system. A step is
    what a thread does between taking and releasing the queue mutex, or a single record
    in the timing log. Every interleaving of the threads is a sequence of steps. */
module Dispatcher {
  import opened Fmi
  import opened TimeConversion
  import opened TimedQueue

  datatype Config = Config(eps: Tolerance, stopTime: real)

  /** What can happen to an event. Registered, Outdated, Begun and Ended leave a record
      in the timing log. */
  datatype Stage = Registered | Added | Outdated | Delivered | Begun | Ended

  datatype Action = Action(stage: Stage, entry: Entry, clock: int)

  /** Where the dispatcher thread is. `p` is the prediction of the current iteration. */
  datatype Control =
    | Starting
    | Predicting
    | Adding(p: Event)
    | Checking(p: Event)
    | Waiting(p: Event, due: Option<int>, signalled: bool)
    | Holding(p: Event, next: Entry)
    | Notifying(p: Event, next: Entry)
    | Stopped

  /** `pending` holds the external events that are logged, but not yet in the queue. */
  datatype State = State(
    control: Control, queue: seq<Entry>, pending: set<Entry>,
    clock: int, epoch: int, history: seq<Action>)

  datatype Step =
    | Start(startTime: real)
    | Predict(prediction: Event)
    | AddPrediction
    | Check
    | WakeUp
    | Begin
    | End
    | Register(external: Event)
    | AddExternal(external: Event)
    | Tick(clock: int)

  function InitialState(clock: int): State {
    State(Starting, [], {}, clock, clock, [])
  }

  /** The life of an event object. Two ends: discarded by the queue, or gone after its
      distribution. Anything else that could happen to it is misuse. */
  datatype Phase = New | Known | Queued | Discarded | Held | Announced | Gone | Misused

  function Advance(phase: Phase, stage: Stage): Phase {
    match (phase, stage)
    case (New, Registered) => Known
    case (Known, Added) => Queued
    case (Queued, Outdated) => Discarded
    case (Queued, Delivered) => Held
    case (Held, Begun) => Announced
    case (Announced, Ended) => Gone
    case _ => Misused
  }

  function PhaseOf(history: seq<Action>, entry: Entry): Phase {
    if history == [] then New
    else
      var last := history[|history| - 1];
      var phase := PhaseOf(history[..|history| - 1], entry);
      if last.entry == entry then Advance(phase, last.stage) else phase
  }

  /** An event object is fresh when no thread has used it before. */
  predicate Fresh(s: State, entry: Entry) {
    PhaseOf(s.history, entry) == New
  }

  predicate Enabled(s: State, step: Step) {
    match step
    case Start(_) => s.control.Starting?
    case Predict(p) => s.control.Predicting? && Fresh(s, Entry(p, true))
    case AddPrediction => s.control.Adding?
    case Check => s.control.Checking?
    case WakeUp => s.control.Waiting?
    case Begin => s.control.Holding?
    case End => s.control.Notifying?
    case Register(e) => !s.control.Starting? && Fresh(s, Entry(e, false))
    case AddExternal(e) => Entry(e, false) in s.pending
    case Tick(clock) => s.clock <= clock
  }

  function Record(s: State, stage: Stage, entry: Entry): seq<Action> {
    s.history + [Action(stage, entry, s.clock)]
  }

  function OutdatedActions(entries: seq<Entry>, clock: int): (actions: seq<Action>)
    ensures |actions| == |entries|
  {
    seq(|entries|, i requires 0 <= i < |entries| => Action(Outdated, entries[i], clock))
  }

  /** The notification reaches the consumer only while it waits. */
  function Signal(control: Control, notify: bool): Control {
    if control.Waiting? && notify then control.(signalled := true) else control
  }

  function Insert(c: Config, s: State, entry: Entry): State {
    var r := Add(c.eps, s.queue, entry);
    s.(control := Signal(s.control, r.notify),
       queue := r.queue,
       history := Record(s, Added, entry) + OutdatedActions(r.outdated, s.clock))
  }

  function AfterPoll(s: State, p: Event): State {
    match Poll(s.queue, s.epoch, s.clock)
    case WaitForEvent => s.(control := Waiting(p, None, false))
    case WaitUntil(due) => s.(control := Waiting(p, Some(due), false))
    case Deliver(entry) =>
      s.(control := Holding(p, entry), queue := s.queue[1..], history := Record(s, Delivered, entry))
  }

  function Apply(c: Config, s: State, step: Step): State
    requires Enabled(s, step)
  {
    match step
    case Start(startTime) => s.(control := Predicting, epoch := s.clock - RelativeTicks(startTime))
    case Predict(p) => s.(control := Adding(p), history := Record(s, Registered, Entry(p, true)))
    case AddPrediction => Insert(c, s, Entry(s.control.p, true)).(control := Checking(s.control.p))
    case Check => AfterPoll(s, s.control.p)
    case WakeUp => s.(control := Checking(s.control.p))
    case Begin =>
      s.(control := Notifying(s.control.p, s.control.next), history := Record(s, Begun, s.control.next))
    case End =>
      s.(control := if s.control.next.ev.time < c.stopTime then Predicting else Stopped,
         history := Record(s, Ended, s.control.next))
    case Register(e) =>
      s.(pending := s.pending + {Entry(e, false)}, history := Record(s, Registered, Entry(e, false)))
    case AddExternal(e) => Insert(c, s.(pending := s.pending - {Entry(e, false)}), Entry(e, false))
    case Tick(clock) => s.(clock := clock)
  }

  /** A run is a sequence of steps each of which is enabled where it is taken. */
  predicate IsRun(c: Config, clock: int, steps: seq<Step>)
    decreases |steps|, 0
  {
    steps == [] ||
    var n := |steps| - 1;
    IsRun(c, clock, steps[..n]) && Enabled(StateAfter(c, clock, steps[..n]), steps[n])
  }

  function StateAfter(c: Config, clock: int, steps: seq<Step>): State
    requires IsRun(c, clock, steps)
    decreases |steps|, 1
  {
    if steps == [] then InitialState(clock)
    else Apply(c, StateAfter(c, clock, steps[..|steps| - 1]), steps[|steps| - 1])
  }

  // ----- the invariant

  predicate HoldsPrediction(control: Control) {
    control.Checking? || control.Waiting?
  }

  ghost predicate QueueInv(c: Config, s: State) {
    && Ordered(c.eps, s.queue)
    && (if HoldsPrediction(s.control)
        then FrontAwaits(s.queue, s.control.p)
        else NoPredictions(s.queue))
    && (forall i :: 0 <= i < |s.queue| && s.queue[i].predicted ==>
          HoldsPrediction(s.control) && s.queue[i].ev == s.control.p)
    && (s.control.Starting? ==> s.queue == [] && s.pending == {} && s.history == [])
    && (s.control.Holding? || s.control.Notifying? ==>
          (s.control.next == Entry(s.control.p, true) ||
           (!s.control.next.predicted && s.control.next.ev.time < s.control.p.time)))
  }

  /** A waiting consumer that nobody signalled waits exactly until the front is due. */
  ghost predicate WakeUpInv(s: State) {
    s.control.Waiting? && !s.control.signalled ==>
      s.queue != [] && s.control.due == Some(SystemTime(s.epoch, s.queue[0].ev.time))
  }

  ghost predicate DeliveredWhenDue(s: State) {
    forall i :: 0 <= i < |s.history| && s.history[i].stage == Delivered ==>
      !IsFuture(s.epoch, s.history[i].clock, s.history[i].entry.ev.time)
  }

  /** How many copies of the entry the threads and the queue hold. */
  function Copies(s: State, e: Entry): nat {
    (if e in s.pending then 1 else 0)
    + (if s.control.Adding? && e == Entry(s.control.p, true) then 1 else 0)
    + multiset(s.queue)[e]
    + (if (s.control.Holding? || s.control.Notifying?) && e == s.control.next then 1 else 0)
  }

  /** Where an entry is tells which phase of its life it has reached. */
  ghost predicate PhaseFits(s: State, e: Entry) {
    var phase := PhaseOf(s.history, e);
    && Copies(s, e) <= 1
    && (e in s.pending ==> phase == Known && !e.predicted)
    && (s.control.Adding? && e == Entry(s.control.p, true) ==> phase == Known)
    && (e in s.queue ==> phase == Queued)
    && (s.control.Holding? && e == s.control.next ==> phase == Held)
    && (s.control.Notifying? && e == s.control.next ==> phase == Announced)
    && (Copies(s, e) == 0 ==> phase == New || phase == Gone || (phase == Discarded && e.predicted))
  }

  ghost predicate PhaseInv(s: State) {
    forall e :: PhaseFits(s, e)
  }

  ghost predicate AddedBetween(history: seq<Action>, from: nat, to: nat, e: Entry)
    requires to <= |history|
  {
    exists k :: from <= k < to && history[k].stage == Added && history[k].entry == e
  }

  predicate Overtaken(c: Config, earlier: Entry, later: Entry) {
    later.ev.time < earlier.ev.time - 2.0 * c.eps
  }

  /** Whatever is queued although it belongs well before a delivered event was added after
      that delivery. */
  ghost predicate LateInv(c: Config, s: State) {
    forall i, e :: 0 <= i < |s.history| && s.history[i].stage == Delivered && e in s.queue
                   && Overtaken(c, s.history[i].entry, e)
                   ==> AddedBetween(s.history, i + 1, |s.history|, e)
  }

  ghost predicate LateDeliveries(c: Config, history: seq<Action>) {
    forall i, j :: 0 <= i < j < |history| && history[i].stage == Delivered && history[j].stage == Delivered
                   && Overtaken(c, history[i].entry, history[j].entry)
                   ==> AddedBetween(history, i + 1, j, history[j].entry)
  }

  ghost predicate Inv(c: Config, s: State) {
    QueueInv(c, s) && WakeUpInv(s) && DeliveredWhenDue(s) && PhaseInv(s) && LateInv(c, s)
    && LateDeliveries(c, s.history)
  }
}
