/** The multi-step predictor. The solver is known by its contract only: a predicted state is
    not before the current time, and an update reaches the time it is asked for. */
module EventPredictor {
  import opened Fmi
  import Images

  /** The solver's time resolution and whether outputs depend directly on inputs. */
  type Resolution = r: real | 0.0 < r witness 1.0

  datatype Settings = Settings(resolution: Resolution, assumeDirect: bool)

  datatype Model = Model(current: real, lastPredicted: real, populated: bool, directPending: bool)

  /** A lazy event has no variables until somebody asks for them. */
  datatype Source = Lazy(time: real) | Static(event: Event)

  datatype Outcome<+T> = Success(value: T) | SolverException

  predicate PredictsDirectly(settings: Settings, m: Model) {
    settings.assumeDirect && m.directPending
  }

  function PredictNext(settings: Settings, m: Model, predicted: real): Model {
    if PredictsDirectly(settings, m) then m.(directPending := false)
    else Model(m.current, predicted, false, false)
  }

  /** Reading a lazy event throws in exactly this case. */
  predicate IsOutdated(settings: Settings, m: Model, time: real) {
    m.current > time + settings.resolution
  }

  function Abs(r: real): real {
    if r < 0.0 then -r else r
  }

  /** The assertions made when the outputs are queried. */
  predicate MayQuery(settings: Settings, m: Model, time: real) {
    && time >= 0.0
    && Abs(m.lastPredicted - time) < settings.resolution
    && m.current <= time + settings.resolution
    && (m.populated ==> m.current == m.lastPredicted)
  }

  /** The first query settles the state; further ones change nothing. */
  function Settle(m: Model): Model {
    m.(current := m.lastPredicted, populated := true)
  }

  /** An event that is late, or close to the current time, happens at the current time. */
  function Align(settings: Settings, current: real, time: real): real {
    if time <= current + settings.resolution then current else time
  }

  function Trigger(settings: Settings, m: Model, time: real): Model {
    var aligned := Align(settings, m.current, time);
    Model(aligned, aligned, false, true)
  }

  class Predictor {
    const settings: Settings
    /** Real, integer, boolean and string inputs, in this order. */
    const inputIDs: seq<seq<PortID>>
    var inputImages: seq<seq<Value>>
    var current: real
    var lastPredicted: real
    var populated: bool
    var directPending: bool
    var outputs: seq<Variable>
    /** The times that the solver was asked to update its state to. */
    var updates: seq<real>

    constructor (settings: Settings, inputIDs: seq<seq<PortID>>, defaults: seq<seq<Value>>, start: real)
      requires |inputIDs| == 4 == |defaults|
      requires forall t :: 0 <= t < 4 ==> |inputIDs[t]| == |defaults[t]|
      ensures this.settings == settings && this.inputIDs == inputIDs && inputImages == defaults
      ensures View() == Model(start, start, false, false) && Valid()
    {
      this.settings, this.inputIDs := settings, inputIDs;
      inputImages := defaults;
      current, lastPredicted, populated, directPending := start, start, false, false;
      outputs, updates := [], [];
    }

    predicate Valid()
      reads this
    {
      && |inputIDs| == 4 == |inputImages|
      && (forall t :: 0 <= t < 4 ==> |inputIDs[t]| == |inputImages[t]|)
      && (!populated ==> outputs == [])
    }

    function View(): Model
      reads this
    {
      Model(current, lastPredicted, populated, directPending)
    }

    /** `answer` is the solver's next event time, or nothing if it failed; `fetched` are its
        current outputs. */
    method PredictNextEvent(answer: Option<real>, id: nat, fetched: seq<Variable>) returns (r: Outcome<Source>)
      requires Valid()
      modifies this
      ensures Valid() && inputImages == old(inputImages) && updates == old(updates)
      ensures r.SolverException? <==> answer.None? && !(settings.assumeDirect && old(directPending))
      ensures r.Success? ==> !directPending && current == old(current)
      ensures r.Success? ==>
                if settings.assumeDirect && old(directPending)
                then r.value == Static(Event(id, current, fetched))
                     && lastPredicted == old(lastPredicted) && populated == old(populated)
                else r.value == Lazy(answer.value) && lastPredicted == answer.value && !populated
      ensures r.Success? ==> View() == PredictNext(settings, old(View()), if answer.Some? then answer.value else current)
      ensures r.SolverException? ==> View() == old(View())
    {
      if !(settings.assumeDirect && directPending) {
        if answer.None? {
          return SolverException;
        }
        r := Success(Lazy(answer.value));
        outputs, populated := [], false;
        lastPredicted := answer.value;
      } else {
        r := Success(Static(Event(id, current, fetched)));
      }
      directPending := false;
    }

    /** `reached` is where the solver's update ended; it must not miss the time by more than
        twice the resolution. */
    method GetOutputVariables(time: real, reached: real, fetched: seq<Variable>)
      returns (r: Outcome<seq<Variable>>)
      requires Valid() && MayQuery(settings, View(), time)
      modifies this
      ensures Valid() && inputImages == old(inputImages)
      ensures r.SolverException? <==> !old(populated) && Abs(reached - old(lastPredicted)) > 2.0 * settings.resolution
      ensures r.Success? ==> View() == Settle(old(View())) && r.value == outputs
      ensures r.Success? ==>
                current == lastPredicted == old(lastPredicted) && populated && directPending == old(directPending)
      ensures r.Success? ==> outputs == if old(populated) then old(outputs) else fetched
      ensures r.SolverException? ==> View() == old(View())
      ensures updates == old(updates) + (if old(populated) then [] else [old(lastPredicted)])
    {
      assert Abs(lastPredicted - time) < settings.resolution;
      assert current <= time + settings.resolution;
      assert !populated || current == lastPredicted;
      if !populated {
        assert outputs == [];
        updates := updates + [lastPredicted];
        if Abs(reached - lastPredicted) > 2.0 * settings.resolution {
          return SolverException;
        }
        current := lastPredicted;
        outputs := fetched;
        populated := true;
      }
      r := Success(outputs);
    }

    /** What reading an event asks the solver for. */
    function ReadUpdates(ev: Source): seq<real>
      reads this
    {
      if ev.Lazy? && !populated && !IsOutdated(settings, View(), ev.time) then [lastPredicted] else []
    }

    /** LazyEvent.getVariables and StaticEvent.getVariables. */
    method GetVariables(ev: Source, reached: real, fetched: seq<Variable>) returns (r: Outcome<seq<Variable>>)
      requires Valid()
      requires ev.Lazy? && !IsOutdated(settings, View(), ev.time) ==> MayQuery(settings, View(), ev.time)
      modifies this
      ensures Valid() && inputImages == old(inputImages)
      ensures ev.Static? ==> r == Success(ev.event.vars) && View() == old(View())
      ensures ev.Lazy? && r.Success? ==> View() == Settle(old(View())) && r.value == outputs
      ensures ev.Lazy? && r.Success? ==> outputs == if old(populated) then old(outputs) else fetched
      ensures ev.Lazy? ==> (r.SolverException? <==>
                old(current) > ev.time + settings.resolution
                || (!old(populated) && Abs(reached - old(lastPredicted)) > 2.0 * settings.resolution))
      ensures r.SolverException? ==> View() == old(View())
      ensures updates == old(updates) + old(ReadUpdates(ev))
    {
      match ev {
        case Static(event) =>
          r := Success(event.vars);
        case Lazy(time) =>
          if current > time + settings.resolution {
            return SolverException;
          }
          r := GetOutputVariables(time, reached, fetched);
      }
    }

    /** The variables that reading an event yields; nothing if it is outdated. */
    function Reads(ev: Source, fetched: seq<Variable>): seq<Variable>
      reads this
    {
      if ev.Static? then ev.event.vars else if populated then outputs else fetched
    }

    /** Reading the event throws. */
    predicate CannotRead(ev: Source, reached: real)
      reads this
    {
      ev.Lazy? && (IsOutdated(settings, View(), ev.time)
                   || (!populated && Abs(reached - lastPredicted) > 2.0 * settings.resolution))
    }

    /** Asks the event for its variables once for each type. */
    method UpdateInputImage(ev: Source, reached: real, fetched: seq<Variable>) returns (r: Outcome<bool>)
      requires Valid()
      requires ev.Lazy? && !IsOutdated(settings, View(), ev.time) ==> MayQuery(settings, View(), ev.time)
      modifies this
      ensures Valid()
      ensures r.Success? && ev.Static? ==> View() == old(View())
      ensures r.Success? && ev.Lazy? ==> View() == Settle(old(View()))
      ensures r.SolverException? <==> old(CannotRead(ev, reached))
      ensures updates == old(updates) + old(ReadUpdates(ev))
      ensures r.Success? ==>
                var vars := old(Reads(ev, fetched));
                && (r.value <==> exists t :: 0 <= t < 4 && Images.Mentions(vars, inputIDs[t]))
                && (forall t :: 0 <= t < 4 ==>
                      inputImages[t] == Images.Updated(inputIDs[t], old(inputImages[t]), vars))
    {
      var found := false;
      var t := 0;
      ghost var settled := if ev.Static? then View() else Settle(View());
      ghost var vars := Reads(ev, fetched);
      while t < 4
        invariant 0 <= t <= 4 && Valid()
        invariant View() == if t == 0 then old(View()) else settled
        invariant updates == old(updates) + if t == 0 then [] else old(ReadUpdates(ev))
        invariant t > 0 && ev.Lazy? ==> outputs == vars
        invariant t == 0 && ev.Lazy? ==> outputs == old(outputs)
        invariant t > 0 && ev.Lazy? ==> !old(IsOutdated(settings, View(), ev.time))
        invariant t > 0 && ev.Lazy? ==> old(populated) || Abs(reached - old(lastPredicted)) <= 2.0 * settings.resolution
        invariant t > 0 && ev.Lazy? ==> MayQuery(settings, View(), ev.time)
        invariant found <==> exists u :: 0 <= u < t && Images.Mentions(vars, inputIDs[u])
        invariant forall u :: 0 <= u < t ==>
                    inputImages[u] == Images.Updated(inputIDs[u], old(inputImages[u]), vars)
        invariant forall u :: t <= u < 4 ==> inputImages[u] == old(inputImages[u])
      {
        var v := GetVariables(ev, reached, fetched);
        if v.SolverException? {
          assert t == 0;
          return SolverException;
        }
        var image, hit := Images.Update(inputIDs[t], inputImages[t], v.value);
        inputImages := inputImages[t := image];
        found := found || hit;
        t := t + 1;
      }
      r := Success(found);
    }

    /** `reached` is where the solver's update ended. An event with an input moves the model to
        the event's own time if this is clearly after the time that was read before; otherwise
        the event counts as happening at that time. */
    method EventTriggered(ev: Source, reached: real, fetched: seq<Variable>) returns (r: Outcome<bool>)
      requires Valid()
      requires ev.Lazy? && !IsOutdated(settings, View(), ev.time) ==> MayQuery(settings, View(), ev.time)
      modifies this
      ensures Valid()
      ensures r.Success? ==>
                var read := if ev.Lazy? then Settle(old(View())) else old(View());
                var time := if ev.Lazy? then ev.time else ev.event.time;
                View() == if r.value then Trigger(settings, read, time) else read
      ensures r.Success? ==>
                var before := if ev.Lazy? then old(lastPredicted) else old(current);
                var time := if ev.Lazy? then ev.time else ev.event.time;
                if r.value
                then && current == (if time > before + settings.resolution then time else before)
                     && updates != [] && updates[|updates| - 1] == current
                     && lastPredicted == current && !populated && directPending
                else && current == before && lastPredicted == old(lastPredicted) && directPending == old(directPending)
                     && populated == (ev.Lazy? || old(populated))
      ensures r.SolverException? <==>
                ev.Lazy? && (old(current) > ev.time + settings.resolution
                             || (!old(populated) && Abs(reached - old(lastPredicted)) > 2.0 * settings.resolution))
      ensures updates == old(updates) + old(ReadUpdates(ev))
                         + (if r.Success? && r.value
                            then [Align(settings, (if ev.Lazy? then Settle(old(View())) else old(View())).current,
                                        if ev.Lazy? then ev.time else ev.event.time)]
                            else [])
      ensures r.Success? ==>
                var vars := old(Reads(ev, fetched));
                && (r.value <==> exists t :: 0 <= t < 4 && Images.Mentions(vars, inputIDs[t]))
                && (forall t :: 0 <= t < 4 ==>
                      inputImages[t] == Images.Updated(inputIDs[t], old(inputImages[t]), vars))
      ensures r.Success? ==>
                var vars := if ev.Static? then ev.event.vars else if old(populated) then old(outputs) else fetched;
                forall t, j :: 0 <= t < 4 && 0 <= j < |inputIDs[t]| ==>
                  && (Images.IsAbsent(vars, inputIDs[t][j]) ==> inputImages[t][j] == old(inputImages[t])[j])
                  && forall i :: Images.IsLastOf(vars, inputIDs[t][j], i) ==> inputImages[t][j] == vars[i].value
    {
      ghost var vars := Reads(ev, fetched);
      ghost var images := inputImages;
      r := UpdateInputImage(ev, reached, fetched);
      forall t, j | r.Success? && 0 <= t < 4 && 0 <= j < |inputIDs[t]|
        ensures Images.IsAbsent(vars, inputIDs[t][j]) ==> inputImages[t][j] == images[t][j]
        ensures forall i :: Images.IsLastOf(vars, inputIDs[t][j], i) ==> inputImages[t][j] == vars[i].value
      {
        Images.LastAssignedAt(vars, inputIDs[t][j], images[t][j]);
      }
      if r.Success? && r.value {
        var eventTime := if ev.Lazy? then ev.time else ev.event.time;
        if current - settings.resolution > eventTime {
          eventTime := current;
        }
        if current - settings.resolution <= eventTime && current + settings.resolution >= eventTime {
          eventTime := current;
        }
        updates := updates + [eventTime];
        current := eventTime;
        outputs, populated := [], false;
        lastPredicted := eventTime;
        directPending := true;
      }
    }
  }
}
