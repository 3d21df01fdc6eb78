/** Filters behind the reader of a data file: one drops events without variables, the other
    completes every event by the latest values. */
module EventFilters {
  import opened Fmi

  type Values<V> = map<string, V>

  datatype Column = Column(name: string, kind: FmiType)

  /** An event is a dictionary that the filters update in place. */
  class Event<V> {
    const time: real
    var values: Values<V>

    constructor (time: real)
      ensures this.time == time && values == map[]
    {
      this.time, values := time, map[];
    }
  }

  predicate DistinctNames(header: seq<Column>) {
    forall i, j :: 0 <= i < j < |header| ==> header[i].name != header[j].name
  }

  predicate InHeader(header: seq<Column>, name: string) {
    exists i :: 0 <= i < |header| && header[i].name == name
  }

  /** There is a value for exactly the variables of the header. */
  ghost predicate Covers<V>(header: seq<Column>, image: Values<V>) {
    forall name :: name in image <==> InHeader(header, name)
  }

  // ----- what the filters do to a stream of events

  function DropEmpty<V>(stream: seq<Values<V>>): seq<Values<V>> {
    if stream == [] then []
    else
      var n := |stream| - 1;
      DropEmpty(stream[..n]) + (if stream[n] == map[] then [] else [stream[n]])
  }

  function ImageAfter<V>(image: Values<V>, values: Values<V>): (r: Values<V>)
    ensures r.Keys == image.Keys
  {
    map name | name in image :: if name in values then values[name] else image[name]
  }

  function FinalImage<V>(image: Values<V>, stream: seq<Values<V>>): (r: Values<V>)
    ensures r.Keys == image.Keys
  {
    if stream == [] then image
    else ImageAfter(FinalImage(image, stream[..|stream| - 1]), stream[|stream| - 1])
  }

  function Interpolated<V>(image: Values<V>, stream: seq<Values<V>>): (r: seq<Values<V>>)
    ensures |r| == |stream|
  {
    if stream == [] then []
    else
      var n := |stream| - 1;
      Interpolated(image, stream[..n]) + [stream[n] + FinalImage(image, stream)]
  }

  /** The elements of a list that belong to non-empty elements of another one. */
  function WhereNonEmpty<V, T>(stream: seq<Values<V>>, r: seq<T>): seq<T>
    requires |stream| == |r|
  {
    if stream == [] then []
    else
      var n := |stream| - 1;
      WhereNonEmpty(stream[..n], r[..n]) + (if stream[n] == map[] then [] else [r[n]])
  }

  /** The value that the events set last, if any. */
  function Latest<V>(stream: seq<Values<V>>, name: string): Option<V> {
    if stream == [] then None
    else
      var n := |stream| - 1;
      if name in stream[n] then Some(stream[n][name]) else Latest(stream[..n], name)
  }

  function LatestOr<V>(stream: seq<Values<V>>, name: string, initial: V): V {
    match Latest(stream, name)
    case Some(value) => value
    case None => initial
  }

  /** Event i sets the variable, and no later one does. */
  predicate IsLastIn<V>(stream: seq<Values<V>>, name: string, i: int) {
    0 <= i < |stream| && name in stream[i] && forall j :: i < j < |stream| ==> name !in stream[j]
  }

  lemma {:induction false} LatestByIndex<V>(stream: seq<Values<V>>, name: string)
    ensures match Latest(stream, name)
            case Some(value) => exists i :: IsLastIn(stream, name, i) && stream[i][name] == value
            case None => forall i :: 0 <= i < |stream| ==> name !in stream[i]
  {
    if stream != [] {
      var n := |stream| - 1;
      if name in stream[n] {
        assert IsLastIn(stream, name, n);
      } else {
        LatestByIndex(stream[..n], name);
        assert forall i :: IsLastIn(stream[..n], name, i) ==> IsLastIn(stream, name, i);
      }
    }
  }

  lemma {:induction false} FinalImageIsLatest<V>(image: Values<V>, stream: seq<Values<V>>, name: string)
    requires name in image
    ensures FinalImage(image, stream)[name] == LatestOr(stream, name, image[name])
  {
    if stream != [] {
      FinalImageIsLatest(image, stream[..|stream| - 1], name);
    }
  }

  /** Every event has exactly its own variables and those of the image; each variable of the
      image has its latest value so far or else its initial one. */
  lemma InterpolatedOneMore<V>(image: Values<V>, stream: seq<Values<V>>, i: nat)
    requires i < |stream|
    ensures FinalImage(image, stream[..i + 1]) == ImageAfter(FinalImage(image, stream[..i]), stream[i])
    ensures Interpolated(image, stream[..i + 1])
         == Interpolated(image, stream[..i]) + [stream[i] + FinalImage(image, stream[..i + 1])]
  {
    assert stream[..i + 1][..i] == stream[..i];
  }

  lemma {:induction false} InterpolationIsLatest<V>(image: Values<V>, stream: seq<Values<V>>, k: nat, name: string)
    requires k < |stream|
    ensures var completed := Interpolated(image, stream)[k];
            if name in image then
              name in completed && completed[name] == LatestOr(stream[..k + 1], name, image[name])
            else if name in stream[k] then name in completed && completed[name] == stream[k][name]
            else name !in completed
    decreases |stream|
  {
    var n := |stream| - 1;
    if k < n {
      InterpolationIsLatest(image, stream[..n], k, name);
      assert stream[..n][..k + 1] == stream[..k + 1];
    } else {
      assert stream[..k + 1] == stream;
      if name in image {
        FinalImageIsLatest(image, stream, name);
      }
    }
  }

  lemma EmptyEventsKeepTheImage<V>(image: Values<V>)
    ensures ImageAfter(image, map[]) == image
  {
  }

  lemma {:induction false} DroppingKeepsTheImage<V>(image: Values<V>, stream: seq<Values<V>>)
    ensures FinalImage(image, DropEmpty(stream)) == FinalImage(image, stream)
  {
    if stream != [] {
      var n := |stream| - 1;
      DroppingKeepsTheImage(image, stream[..n]);
      if stream[n] == map[] {
        EmptyEventsKeepTheImage(FinalImage(image, stream[..n]));
        assert DropEmpty(stream) == DropEmpty(stream[..n]);
      } else {
        assert DropEmpty(stream)[..|DropEmpty(stream)| - 1] == DropEmpty(stream[..n]);
      }
    }
  }

  /** Dropping empty events before the interpolation is the same as dropping the completed
      ones afterwards. */
  lemma {:induction false} DroppingCommutes<V>(image: Values<V>, stream: seq<Values<V>>)
    ensures Interpolated(image, DropEmpty(stream)) == WhereNonEmpty(stream, Interpolated(image, stream))
  {
    if stream != [] {
      var n := |stream| - 1;
      var (dropped, before) := (DropEmpty(stream), DropEmpty(stream[..n]));
      DroppingCommutes(image, stream[..n]);
      assert Interpolated(image, stream)[..n] == Interpolated(image, stream[..n]);
      if stream[n] == map[] {
        assert dropped == before;
      } else {
        DroppingKeepsTheImage(image, stream);
        assert dropped[..|dropped| - 1] == before && dropped[|dropped| - 1] == stream[n];
      }
    }
  }

  /** Every variable that the first event does not set is never set, or is set last to its
      initial value. */
  predicate Settles<V(==)>(image: Values<V>, stream: seq<Values<V>>)
    requires stream != []
  {
    forall name :: name in image && name !in stream[0] ==> LatestOr(stream, name, image[name]) == image[name]
  }

  /** What two passes deliver for a variable of the image. */
  lemma PassesAgreeAt<V>(image: Values<V>, stream: seq<Values<V>>, k: nat, name: string)
    requires k < |stream|
    ensures var final := FinalImage(image, stream);
            var (first, second) := (Interpolated(image, stream)[k], Interpolated(final, stream)[k]);
            && (name in second <==> name in first)
            && (name in first ==>
                  if name in image && Latest(stream[..k + 1], name).None?
                  then second[name] == final[name] && first[name] == image[name]
                  else second[name] == first[name])
  {
    InterpolationIsLatest(image, stream, k, name);
    InterpolationIsLatest(FinalImage(image, stream), stream, k, name);
  }

  lemma SettledPassesAgree<V>(image: Values<V>, stream: seq<Values<V>>, k: nat)
    requires k < |stream| && Settles(image, stream)
    ensures Interpolated(FinalImage(image, stream), stream)[k] == Interpolated(image, stream)[k]
  {
    var (first, second) := (Interpolated(image, stream)[k], Interpolated(FinalImage(image, stream), stream)[k]);
    forall name: string
      ensures name in second <==> name in first
      ensures name in first ==> second[name] == first[name]
    {
      PassesAgreeAt(image, stream, k, name);
      FirstEventStays(stream, k, name);
      if name in image {
        FinalImageIsLatest(image, stream, name);
      }
    }
  }

  lemma AgreeingPassesSettle<V>(image: Values<V>, stream: seq<Values<V>>, name: string)
    requires stream != [] && Interpolated(FinalImage(image, stream), stream)[0] == Interpolated(image, stream)[0]
    requires name in image && name !in stream[0]
    ensures LatestOr(stream, name, image[name]) == image[name]
  {
    FinalImageIsLatest(image, stream, name);
    PassesAgreeAt(image, stream, 0, name);
    InterpolationIsLatest(image, stream, 0, name);
    assert Latest(stream[..1], name) == None;
  }

  /** The image is kept from one pass to the next. If the source yields the same events
      afresh in a second pass, this pass still does not need to agree with the first one. */
  lemma SecondPassAgrees<V>(image: Values<V>, stream: seq<Values<V>>)
    requires stream != []
    ensures Interpolated(FinalImage(image, stream), stream) == Interpolated(image, stream) <==> Settles(image, stream)
  {
    var (first, second) := (Interpolated(image, stream), Interpolated(FinalImage(image, stream), stream));
    if second == first {
      forall name | name in image && name !in stream[0]
        ensures LatestOr(stream, name, image[name]) == image[name]
      {
        AgreeingPassesSettle(image, stream, name);
      }
    }
    if Settles(image, stream) {
      forall k | 0 <= k < |stream|
        ensures second[k] == first[k]
      {
        SettledPassesAgree(image, stream, k);
      }
    }
  }

  /** For instance, a variable that only the second event sets is delivered with its initial
      value first in one pass and with its last value first in the other. */
  lemma LateVariablesDiffer<V>(name: string, initial: V, last: V)
    requires initial != last
    ensures var (image, stream) := (map[name := initial], [map[], map[name := last]]);
            Interpolated(FinalImage(image, stream), stream) != Interpolated(image, stream)
  {
    var (image, stream) := (map[name := initial], [map[], map[name := last]]);
    assert stream[1][name] == last && stream[0] == map[];
    assert name in image && name !in stream[0];
    assert LatestOr(stream, name, image[name]) == last;
    SecondPassAgrees(image, stream);
  }

  lemma {:induction false} FirstEventStays<V>(stream: seq<Values<V>>, k: nat, name: string)
    requires k < |stream|
    ensures name in stream[0] ==> Latest(stream[..k + 1], name).Some?
  {
    if name !in stream[k] && k > 0 {
      FirstEventStays(stream, k - 1, name);
      assert stream[..k + 1][..k] == stream[..k];
    }
  }

  /** The positions of the non-empty elements, in order. */
  predicate ArePositions<V>(stream: seq<Values<V>>, positions: seq<int>) {
    && (forall k, l :: 0 <= k < l < |positions| ==> positions[k] < positions[l])
    && (forall k :: 0 <= k < |positions| ==> 0 <= positions[k] < |stream| && stream[positions[k]] != map[])
    && (forall i :: 0 <= i < |stream| && stream[i] != map[] ==> i in positions)
  }

  lemma OnePositionMore<V>(stream: seq<Values<V>>, positions: seq<int>)
    requires stream != [] && ArePositions(stream[..|stream| - 1], positions)
    ensures var n := |stream| - 1;
            ArePositions(stream, if stream[n] == map[] then positions else positions + [n])
  {
    var n := |stream| - 1;
    var r := if stream[n] == map[] then positions else positions + [n];
    forall i | 0 <= i < |stream| && stream[i] != map[]
      ensures i in r
    {
      assert i < n ==> stream[..n][i] != map[];
    }
  }

  function Selected<T>(r: seq<T>, positions: seq<int>): (s: seq<T>)
    requires forall k :: 0 <= k < |positions| ==> 0 <= positions[k] < |r|
    ensures |s| == |positions| && forall k :: 0 <= k < |s| ==> s[k] == r[positions[k]]
  {
    seq(|positions|, k requires 0 <= k < |positions| => r[positions[k]])
  }

  lemma OneMoreSelected<T>(r: seq<T>, positions: seq<int>)
    requires r != [] && forall k :: 0 <= k < |positions| ==> 0 <= positions[k] < |r| - 1
    ensures var n := |r| - 1;
            && Selected(r, positions) == Selected(r[..n], positions)
            && Selected(r, positions + [n]) == Selected(r, positions) + [r[n]]
  {
  }

  /** Exactly what belongs to a non-empty element is selected, in its order. */
  lemma {:induction false} NonEmptyPositions<V, T>(stream: seq<Values<V>>, r: seq<T>) returns (positions: seq<int>)
    requires |stream| == |r|
    ensures ArePositions(stream, positions) && WhereNonEmpty(stream, r) == Selected(r, positions)
  {
    positions := [];
    if stream != [] {
      var n := |stream| - 1;
      positions := NonEmptyPositions(stream[..n], r[..n]);
      OnePositionMore(stream, positions);
      OneMoreSelected(r, positions);
      if stream[n] != map[] {
        positions := positions + [n];
      }
    }
  }

  lemma {:induction false} DropEmptySelects<V>(stream: seq<Values<V>>)
    ensures DropEmpty(stream) == WhereNonEmpty(stream, stream)
  {
    if stream != [] {
      DropEmptySelects(stream[..|stream| - 1]);
    }
  }

  // ----- the filters

  function ValuesOf<V>(events: seq<Event<V>>): (r: seq<Values<V>>)
    reads events
    ensures |r| == |events|
  {
    seq(|events|, i requires 0 <= i < |events| reads events => events[i].values)
  }

  function NonEmpty<V>(events: seq<Event<V>>): seq<Event<V>>
    reads events
  {
    if events == [] then []
    else
      var n := |events| - 1;
      NonEmpty(events[..n]) + (if events[n].values == map[] then [] else [events[n]])
  }

  lemma {:induction false} NonEmptyDropsValues<V>(events: seq<Event<V>>)
    ensures ValuesOf(NonEmpty(events)) == DropEmpty(ValuesOf(events))
    ensures forall ev :: ev in NonEmpty(events) ==> ev in events
  {
    if events != [] {
      var n := |events| - 1;
      NonEmptyDropsValues(events[..n]);
      assert ValuesOf(events)[..n] == ValuesOf(events[..n]);
    }
  }

  lemma {:induction false} NonEmptySelects<V>(events: seq<Event<V>>)
    ensures NonEmpty(events) == WhereNonEmpty(ValuesOf(events), events)
  {
    if events != [] {
      var n := |events| - 1;
      NonEmptySelects(events[..n]);
      assert ValuesOf(events)[..n] == ValuesOf(events[..n]);
    }
  }

  class EmptyEventFilter<V(==)> {
    constructor ()
    {
    }

    /** Passes the very events on that have a variable. */
    method FilterEvents(source: seq<Event<V>>) returns (events: seq<Event<V>>)
      ensures events == NonEmpty(source) == WhereNonEmpty(ValuesOf(source), source)
      ensures ValuesOf(events) == DropEmpty(ValuesOf(source))
      ensures forall ev :: ev in events ==> ev in source
    {
      events := [];
      var i := 0;
      while i < |source|
        invariant 0 <= i <= |source|
        invariant events == NonEmpty(source[..i])
      {
        assert source[..i + 1][..i] == source[..i];
        if |source[i].values| > 0 {
          events := events + [source[i]];
        }
        i := i + 1;
      }
      assert source[..i] == source;
      NonEmptyDropsValues(source);
      NonEmptySelects(source);
    }
  }

  lemma NonEmptyMapHasKey<K, V>(m: map<K, V>)
    requires |m| > 0
    ensures exists key :: key in m
  {
  }

  /** The initial value of a column: a converted value of the user or the default one. */
  function InitialValue<I, V>(column: Column, initial: map<string, I>, convert: (FmiType, I) -> Option<V>,
                              default: FmiType -> V): Option<V>
  {
    if column.name in initial then convert(column.kind, initial[column.name]) else Some(default(column.kind))
  }

  class ConstantInterpolationEventFilter<V(==)> {
    const header: seq<Column>
    var image: Values<V>

    ghost predicate Valid()
      reads this
    {
      DistinctNames(header) && Covers(header, image)
    }

    constructor (header: seq<Column>, image: Values<V>)
      requires DistinctNames(header) && Covers(header, image)
      ensures Valid() && this.header == header && this.image == image
    {
      this.header, this.image := header, image;
    }

    /** Fails if a value cannot be converted or belongs to no column. */
    static method GetInitialVariableImage<I>(header: seq<Column>, initial: map<string, I>,
                                             convert: (FmiType, I) -> Option<V>, default: FmiType -> V)
      returns (image: Option<Values<V>>)
      requires DistinctNames(header)
      ensures image.Some? <==>
              && (forall i :: 0 <= i < |header| ==> InitialValue(header[i], initial, convert, default).Some?)
              && (forall name :: name in initial ==> InHeader(header, name))
      ensures image.Some? ==>
              && Covers(header, image.value)
              && (forall i :: 0 <= i < |header| ==>
                    Some(image.value[header[i].name]) == InitialValue(header[i], initial, convert, default))
    {
      var (ret, rest) := (map[], initial);
      var i := 0;
      while i < |header|
        invariant 0 <= i <= |header|
        invariant forall j :: 0 <= j < i ==> header[j].name in ret
        invariant forall j :: 0 <= j < i ==>
                    InitialValue(header[j], initial, convert, default) == Some(ret[header[j].name])
        invariant Covers(header[..i], ret)
        invariant forall name :: name in rest <==> name in initial && !InHeader(header[..i], name)
        invariant forall name :: name in rest ==> rest[name] == initial[name]
      {
        var column := header[i];
        HeaderOneMore(header, i);
        assert !InHeader(header[..i], column.name);
        if column.name in rest {
          var value := convert(column.kind, rest[column.name]);
          if value.None? {
            assert InitialValue(header[i], initial, convert, default).None?;
            return None;
          }
          ret := ret[column.name := value.value];
          rest := rest - {column.name};
        } else {
          ret := ret[column.name := default(column.kind)];
        }
        i := i + 1;
      }
      assert header[..i] == header;
      if |rest| > 0 {
        NonEmptyMapHasKey(rest);
        return None;
      }
      image := Some(ret);
    }

    method SyncVariable(name: string, ev: Event<V>)
      requires name in image
      modifies this`image, ev
      ensures if name in old(ev.values)
              then image == old(image[name := ev.values[name]]) && ev.values == old(ev.values)
              else image == old(image) && ev.values == old(ev.values[name := image[name]])
    {
      if name in ev.values {
        image := image[name := ev.values[name]];
      } else {
        ev.values := ev.values[name := image[name]];
      }
    }

    method SyncEvent(ev: Event<V>)
      requires Valid()
      modifies this`image, ev
      ensures Valid()
      ensures image == ImageAfter(old(image), old(ev.values)) && ev.values == old(ev.values) + image
    {
      var i := 0;
      while i < |header|
        invariant 0 <= i <= |header|
        invariant image.Keys == old(image.Keys)
        invariant forall name :: name in image ==>
                    image[name]
                    == if InHeader(header[..i], name) && name in old(ev.values) then old(ev.values)[name]
                       else old(image)[name]
        invariant forall name :: name in ev.values <==> name in old(ev.values) || InHeader(header[..i], name)
        invariant forall name :: name in ev.values ==>
                    ev.values[name] == if name in old(ev.values) then old(ev.values)[name] else old(image)[name]
      {
        HeaderOneMore(header, i);
        assert InHeader(header, header[i].name);
        SyncVariable(header[i].name, ev);
        i := i + 1;
      }
      assert header[..i] == header;
    }

    /** Completes a stream of events, each of which the source has made for itself. */
    method InterpolateVariables(source: seq<Event<V>>)
      requires Valid() && forall i, j :: 0 <= i < j < |source| ==> source[i] != source[j]
      modifies this`image, source
      ensures Valid()
      ensures ValuesOf(source) == Interpolated(old(image), old(ValuesOf(source)))
      ensures image == FinalImage(old(image), old(ValuesOf(source)))
    {
      ghost var stream := ValuesOf(source);
      var i := 0;
      while i < |source|
        invariant 0 <= i <= |source| && Valid()
        invariant image == FinalImage(old(image), stream[..i])
        invariant forall j :: 0 <= j < i ==> source[j].values == Interpolated(old(image), stream[..i])[j]
        invariant forall j :: i <= j < |source| ==> source[j].values == stream[j]
      {
        InterpolatedOneMore(old(image), stream, i);
        SyncEvent(source[i]);
        i := i + 1;
      }
      assert stream[..i] == stream;
    }
  }

  lemma HeaderOneMore(header: seq<Column>, i: nat)
    requires i < |header| && DistinctNames(header)
    ensures forall name :: InHeader(header[..i + 1], name) <==> InHeader(header[..i], name) || name == header[i].name
    ensures !InHeader(header[..i], header[i].name)
  {
    forall name
      ensures InHeader(header[..i + 1], name) <==> InHeader(header[..i], name) || name == header[i].name
    {
      if InHeader(header[..i + 1], name) && name != header[i].name {
        var j :| 0 <= j <= i && header[..i + 1][j].name == name;
        assert header[..i][j].name == name;
      }
      if InHeader(header[..i], name) {
        var j :| 0 <= j < i && header[..i][j].name == name;
        assert header[..i + 1][j].name == name;
      }
      assert header[..i + 1][i] == header[i];
    }
  }

  /** Both filters in a row: what comes out are the completed events of the whole stream
      without those that were empty. */
  method InterpolateNonEmpty<V>(source: seq<Event<V>>, dropping: EmptyEventFilter<V>,
                                interpolating: ConstantInterpolationEventFilter<V>)
    returns (events: seq<Event<V>>)
    requires interpolating.Valid() && forall i, j :: 0 <= i < j < |source| ==> source[i] != source[j]
    modifies interpolating`image, source
    ensures events == old(NonEmpty(source))
    ensures var stream := old(ValuesOf(source));
            ValuesOf(events) == WhereNonEmpty(stream, Interpolated(old(interpolating.image), stream))
  {
    ghost var (image, stream) := (interpolating.image, ValuesOf(source));
    NonEmptyAreDistinct(source);
    events := dropping.FilterEvents(source);
    assert forall i :: 0 <= i < |events| ==> events[i] in source;
    interpolating.InterpolateVariables(events);
    DroppingCommutes(image, stream);
  }

  lemma {:induction false} NonEmptyAreDistinct<V>(events: seq<Event<V>>)
    requires forall i, j :: 0 <= i < j < |events| ==> events[i] != events[j]
    ensures forall ev :: ev in NonEmpty(events) ==> ev in events
    ensures var r := NonEmpty(events);
            forall i, j :: 0 <= i < j < |r| ==> r[i] != r[j]
  {
    if events != [] {
      var n := |events| - 1;
      NonEmptyDropsValues(events[..n]);
      NonEmptyAreDistinct(events[..n]);
      assert events[n] !in events[..n];
    }
  }
}
