/** The one-step predictor: it advances the model by one step, remembers the event it made
    of the step, and offers this event until it is distributed. */
module OneStepPredictor {
  import opened Fmi
  import Images

  datatype Prediction = Prediction(time: real, vars: seq<Variable>)

  /** `image` holds the outputs fetched after the latest step. */
  datatype Model = Model(fmuTime: real, image: seq<Value>, cache: Option<Prediction>)

  datatype Outcome<+T> = Success(value: T) | SolverException

  function Pair(ids: seq<PortID>, values: seq<Value>): (vars: seq<Variable>)
    requires |ids| == |values|
    ensures |vars| == |ids|
  {
    seq(|ids|, i requires 0 <= i < |ids| => Variable(ids[i], values[i]))
  }

  /** An event without variables stands for a step that changed nothing. */
  function Changes(ids: seq<PortID>, image: seq<Value>, fetched: seq<Value>): seq<Variable>
    requires |ids| == |fetched|
  {
    if fetched != image then Pair(ids, fetched) else []
  }

  function Offer(m: Model): Prediction
    requires m.cache.Some?
  {
    m.cache.value
  }

  /** A new step is made only when there is nothing to offer. */
  function PredictNext(ids: seq<PortID>, m: Model, reached: real, fetched: seq<Value>): Model
    requires |ids| == |fetched|
  {
    if m.cache.Some? then m
    else Model(reached, fetched, Some(Prediction(reached, Changes(ids, m.image, fetched))))
  }

  function Trigger(m: Model, inputs: set<PortID>, ev: Event): Model {
    if Touches(ev, inputs) then m else m.(cache := None)
  }

  /** The model delivers all outputs. */
  predicate AreFetched(fetched: seq<Option<Value>>) {
    forall k :: 0 <= k < |fetched| ==> fetched[k].Some?
  }

  function ValuesOf(fetched: seq<Option<Value>>): (values: seq<Value>)
    requires AreFetched(fetched)
    ensures |values| == |fetched|
  {
    seq(|fetched|, k requires 0 <= k < |fetched| => fetched[k].value)
  }

  class Predictor {
    const outputIDs: seq<PortID>
    const inputIDs: set<PortID>
    const stepSize: real
    const precision: real
    const variableStepSize: bool
    var fmuTime: real
    var fmuInputs: map<PortID, Value>
    var image: seq<Value>
    var cache: Option<Prediction>
    /** How often the model was told to handle events. */
    var handledEvents: nat

    constructor (outputIDs: seq<PortID>, defaults: map<PortID, Value>, stepSize: real, precision: real,
                 variableStepSize: bool, start: real, fetched: seq<Value>)
      requires |outputIDs| == |fetched|
      ensures Valid() && View() == Model(start, fetched, None)
      ensures this.outputIDs == outputIDs && inputIDs == defaults.Keys && fmuInputs == defaults
    {
      this.outputIDs, this.inputIDs := outputIDs, defaults.Keys;
      this.stepSize, this.precision, this.variableStepSize := stepSize, precision, variableStepSize;
      fmuTime, fmuInputs, image, cache, handledEvents := start, defaults, fetched, None, 0;
    }

    predicate Valid()
      reads this
    {
      |image| == |outputIDs| && fmuInputs.Keys == inputIDs
    }

    function View(): Model
      reads this
    {
      Model(fmuTime, image, cache)
    }

    /** A step is complete when it reaches its end up to the precision, or at once if model
        events may cut it short. */
    predicate EndsStep(start: real, time: real) {
      variableStepSize || time >= start + stepSize - precision
    }

    /** None of the first n answers is an error or completes the step. */
    predicate IsStepping(answers: seq<Option<real>>, start: real, n: nat)
      requires n <= |answers|
    {
      forall k :: 0 <= k < n ==> answers[k].Some? && !EndsStep(start, answers[k].value)
    }

    /** Answer n is the first one that is an error or completes the step. */
    predicate IsLastAnswer(answers: seq<Option<real>>, start: real, n: nat) {
      n < |answers| && IsStepping(answers, start, n) && (answers[n].Some? ==> EndsStep(start, answers[n].value))
    }

    /** `answers` are the model times after each call of the integrator, nothing for an
        error. The loop ends with the first answer that is an error or completes the step. */
    method PredictOneStep(answers: seq<Option<real>>) returns (r: Outcome<real>, ghost last: nat)
      requires exists n :: IsLastAnswer(answers, fmuTime, n)
      modifies this`fmuTime
      ensures IsLastAnswer(answers, old(fmuTime), last)
      ensures match answers[last]
              case None => r == SolverException
              case Some(time) => r == Success(time) && fmuTime == time
      ensures r.Success? ==> variableStepSize || fmuTime >= old(fmuTime) + stepSize - precision
      ensures forall k :: 0 <= k < last ==>
                !variableStepSize && answers[k].Some? && answers[k].value < old(fmuTime) + stepSize - precision
    {
      ghost var stop :| IsLastAnswer(answers, fmuTime, stop);
      var nextCompleteStep := fmuTime + stepSize;
      var n := 0;
      last := 0;
      if answers[0].None? {
        return SolverException, 0;
      }
      fmuTime := answers[0].value;
      while !variableStepSize && fmuTime < nextCompleteStep - precision
        invariant 0 <= n < |answers| && n <= stop && answers[n] == Some(fmuTime)
        invariant IsStepping(answers, old(fmuTime), n)
        decreases |answers| - n
      {
        n := n + 1;
        if answers[n].None? {
          return SolverException, n;
        }
        fmuTime := answers[n].value;
      }
      return Success(fmuTime), n;
    }

    /** Fetching ends with the first value that the model does not deliver. */
    method UpdateOutputImage(fetched: seq<Option<Value>>) returns (r: Outcome<bool>)
      requires Valid() && |fetched| == |outputIDs|
      modifies this`image
      ensures Valid() && (r.Success? <==> AreFetched(fetched))
      ensures r.Success? ==> image == ValuesOf(fetched) && (r.value <==> image != old(image))
      ensures r.SolverException? ==>
                exists n :: 0 <= n < |fetched| && fetched[n].None? && image[n..] == old(image)[n..]
                  && forall k :: 0 <= k < n ==> fetched[k] == Some(image[k])
    {
      var significantChange := false;
      var i := 0;
      while i < |fetched|
        invariant 0 <= i <= |fetched| && |image| == |outputIDs|
        invariant forall k :: 0 <= k < i ==> fetched[k] == Some(image[k])
        invariant forall k :: i <= k < |image| ==> image[k] == old(image)[k]
        invariant significantChange <==> exists k :: 0 <= k < i && image[k] != old(image)[k]
      {
        if fetched[i].None? {
          assert image[i..] == old(image)[i..];
          return SolverException;
        }
        if image[i] != fetched[i].value {
          significantChange := true;
        }
        image := image[i := fetched[i].value];
        i := i + 1;
      }
      r := Success(significantChange);
    }

    /** `fetched` are the outputs after the step. It fails exactly if there is nothing to
        offer and the step or the fetching fails. */
    method PredictNextEvent(answers: seq<Option<real>>, fetched: seq<Option<Value>>)
      returns (r: Outcome<Prediction>, ghost last: nat)
      requires Valid() && |fetched| == |outputIDs|
      requires cache.None? ==> exists n :: IsLastAnswer(answers, fmuTime, n)
      modifies this
      ensures Valid() && fmuInputs == old(fmuInputs)
      ensures old(cache).Some? ==> r == Success(old(cache).value) && View() == old(View())
      ensures old(cache).None? ==>
                && IsLastAnswer(answers, old(fmuTime), last)
                && (r.Success? <==> answers[last].Some? && AreFetched(fetched))
                && (r.Success? ==>
                      && View() == PredictNext(outputIDs, old(View()), answers[last].value, ValuesOf(fetched))
                      && r.value == Offer(View()))
      ensures old(cache).None? && r.Success? ==>
                && cache == Some(r.value) && r.value.time == fmuTime && answers[last] == Some(fmuTime)
                && (forall k :: 0 <= k < |image| ==> fetched[k] == Some(image[k]))
                && (if image == old(image) then r.value.vars == []
                    else |r.value.vars| == |image|
                         && forall k :: 0 <= k < |image| ==> r.value.vars[k] == Variable(outputIDs[k], image[k]))
    {
      last := 0;
      if cache.None? {
        var step;
        step, last := PredictOneStep(answers);
        if step.SolverException? {
          return SolverException, last;
        }
        var changed := UpdateOutputImage(fetched);
        if changed.SolverException? {
          return SolverException, last;
        }
        cache := Some(Prediction(fmuTime, if changed.value then Pair(outputIDs, image) else []));
      }
      return Success(cache.value), last;
    }

    /** `accepted` says which values the model accepts as inputs. */
    method EventTriggered(ev: Event, accepted: seq<bool>) returns (r: Outcome<()>)
      requires Valid() && |accepted| == |ev.vars|
      modifies this
      ensures Valid()
      ensures r.Success? <==> forall i :: 0 <= i < |ev.vars| && ev.vars[i].port in inputIDs ==> accepted[i]
      ensures r.Success? ==> View() == Trigger(old(View()), inputIDs, ev)
      ensures r.Success? ==>
                forall p :: p in inputIDs ==>
                  && fmuInputs[p] == Images.LastAssigned(ev.vars, p, old(fmuInputs)[p])
                  && (Images.IsAbsent(ev.vars, p) ==> fmuInputs[p] == old(fmuInputs)[p])
                  && forall i :: Images.IsLastOf(ev.vars, p, i) ==> fmuInputs[p] == ev.vars[i].value
      ensures r.Success? ==>
                cache == if exists i :: 0 <= i < |ev.vars| && ev.vars[i].port in inputIDs then old(cache) else None
      ensures handledEvents == old(handledEvents) + (if r.Success? && Touches(ev, inputIDs) then 1 else 0)
      ensures r.SolverException? ==> View() == old(View())
    {
      var inputVariableSet := false;
      var i := 0;
      while i < |ev.vars|
        invariant 0 <= i <= |ev.vars| && fmuInputs.Keys == inputIDs
        invariant View() == old(View()) && handledEvents == old(handledEvents)
        invariant inputVariableSet <==> exists k :: 0 <= k < i && ev.vars[k].port in inputIDs
        invariant forall k :: 0 <= k < i && ev.vars[k].port in inputIDs ==> accepted[k]
        invariant forall p :: p in inputIDs ==>
                    fmuInputs[p] == Images.LastAssigned(ev.vars[..i], p, old(fmuInputs)[p])
      {
        assert ev.vars[..i + 1][..i] == ev.vars[..i];
        if ev.vars[i].port in fmuInputs {
          if !accepted[i] {
            return SolverException;
          }
          fmuInputs := fmuInputs[ev.vars[i].port := ev.vars[i].value];
          inputVariableSet := true;
        }
        i := i + 1;
      }
      assert ev.vars[..i] == ev.vars;
      forall p | p in inputIDs
        ensures Images.IsAbsent(ev.vars, p) ==> fmuInputs[p] == old(fmuInputs)[p]
        ensures forall i :: Images.IsLastOf(ev.vars, p, i) ==> fmuInputs[p] == ev.vars[i].value
      {
        Images.LastAssignedAt(ev.vars, p, old(fmuInputs)[p]);
      }
      if inputVariableSet {
        handledEvents := handledEvents + 1;
      } else {
        cache := None;
      }
      r := Success(());
    }
  }
}
