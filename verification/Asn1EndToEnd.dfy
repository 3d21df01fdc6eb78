/** Publisher and subscriber together: what was published arrives, however the network cuts
    the messages. */
module Asn1EndToEnd {
  import opened Fmi
  import opened Asn1Codec
  import opened Asn1Subscriber
  import opened Asn1Parsing
  import P = Asn1Publisher
  import Images

  /** Both sides of a channel: the ports, how they are encoded, and the two conversions. */
  datatype Channel = Channel(ports: seq<PortID>, types: seq<P.DataType>, narrow: P.Narrowing, convert: Conversion)

  ghost predicate WellPosed(c: Channel) {
    && c.ports != [] && AreTyped(c.ports) && |c.types| == |c.ports|
    && forall i :: 0 <= i < |c.ports| ==> P.IsCastable(c.ports[i].kind, c.types[i])
  }

  /** Converting between equal types changes nothing. */
  ghost predicate KeepsEqualTypes(convert: Conversion) {
    && (forall bits :: convert(FmiReal, LReal(bits)) == Some(RealValue(bits)))
    && (forall n :: convert(FmiInteger, DInt(n)) == Some(IntegerValue(n)))
    && (forall flag :: convert(FmiBoolean, Bool(flag)) == Some(BooleanValue(if flag then 1 else 0)))
    && (forall chars :: convert(FmiString, Text(chars)) == Some(StringValue(chars)))
  }

  /** The publisher's values, and the messages it sends, after a history of events. */
  function Published(c: Channel, events: seq<Event>): (values: seq<Value>)
    requires AreTyped(c.ports)
    ensures |values| == |c.ports|
  {
    if events == [] then P.Defaults(c.ports)
    else Images.Updated(c.ports, Published(c, events[..|events| - 1]), events[|events| - 1].vars)
  }

  ghost predicate AllEventsValid(events: seq<Event>) {
    forall i :: 0 <= i < |events| ==> P.AllValid(events[i].vars)
  }

  lemma {:induction false} PublishedFits(c: Channel, events: seq<Event>)
    requires WellPosed(c) && AllEventsValid(events)
    ensures P.Fits(c.ports, c.types, Published(c, events))
  {
    if events != [] {
      var n := |events| - 1;
      PublishedFits(c, events[..n]);
      P.UpdatedFits(c.ports, c.types, Published(c, events[..n]), events[n].vars);
    }
  }

  ghost function Messages(c: Channel, events: seq<Event>): (messages: seq<seq<byte>>)
    requires WellPosed(c) && AllEventsValid(events)
  {
    if events == [] then []
    else
      var n := |events| - 1;
      PublishedFits(c, events);
      Messages(c, events[..n])
      + (if Images.Mentions(events[n].vars, c.ports) then [P.EncodeAll(c.narrow, c.types, Published(c, events))] else [])
  }

  /** All assignments of a history, oldest first. */
  function Assignments(events: seq<Event>): seq<Variable> {
    if events == [] then [] else Assignments(events[..|events| - 1]) + events[|events| - 1].vars
  }

  /** What the publisher holds is the last value assigned to the port, or the default. */
  lemma {:induction false} PublishedIsLastAssigned(c: Channel, events: seq<Event>, i: nat)
    requires AreTyped(c.ports) && i < |c.ports|
    ensures Published(c, events)[i]
         == Images.LastAssigned(Assignments(events), c.ports[i], P.DefaultValue(c.ports[i].kind))
  {
    if events != [] {
      var n := |events| - 1;
      PublishedIsLastAssigned(c, events[..n], i);
      Images.LastAssignedOfConcat(Assignments(events[..n]), events[n].vars, c.ports[i],
                                  P.DefaultValue(c.ports[i].kind));
    }
  }

  // ----- the other side

  /** What a port receives for a value. */
  function Arriving(c: Channel, i: nat, value: Value): Option<Value>
    requires i < |c.ports| == |c.types| && P.IsCastable(TypeOf(value), c.types[i])
  {
    c.convert(c.ports[i].kind, P.WireOf(c.narrow, c.types[i], value))
  }

  /** Only a real number that was sent as a float can change or get lost in conversion. */
  lemma EqualTypesArrive(c: Channel, i: nat, value: Value)
    requires WellPosed(c) && KeepsEqualTypes(c.convert) && i < |c.ports| && TypeOf(value) == c.ports[i].kind
    ensures Arriving(c, i, value) ==
            match value
            case RealValue(bits) =>
              if c.types[i] == P.REAL then c.convert(FmiReal, Real(c.narrow(bits))) else Some(value)
            case IntegerValue(_) => Some(value)
            case BooleanValue(flag) => Some(BooleanValue(if flag != 0 then 1 else 0))
            case StringValue(chars) => Some(StringValue(chars[..|chars| % 0x1_0000]))
  {
  }

  /** The variables of the first n ports that arrive for the given values. */
  function Received(c: Channel, values: seq<Value>, n: nat): seq<Variable>
    requires P.Fits(c.ports, c.types, values) && n <= |c.ports|
  {
    if n == 0 then []
    else
      var value := Arriving(c, n - 1, values[n - 1]);
      Received(c, values, n - 1) + (if value.Some? then [Variable(c.ports[n - 1], value.value)] else [])
  }

  /** One event for each message: for each port the last value assigned so far or the
      default, as it arrives. */
  ghost function Expected(c: Channel, events: seq<Event>): seq<seq<Variable>>
    requires WellPosed(c) && AllEventsValid(events)
  {
    if events == [] then []
    else
      var n := |events| - 1;
      PublishedFits(c, events);
      Expected(c, events[..n])
      + (if Images.Mentions(events[n].vars, c.ports) then [Received(c, Published(c, events), |c.ports|)] else [])
  }

  function EncodeFrom(c: Channel, values: seq<Value>, i: nat): seq<byte>
    requires P.Fits(c.ports, c.types, values) && i <= |values|
    decreases |values| - i
  {
    if i == |values| then []
    else Piece(c, values, i) + EncodeFrom(c, values, i + 1)
  }

  function Piece(c: Channel, values: seq<Value>, i: nat): seq<byte>
    requires P.Fits(c.ports, c.types, values) && i < |values|
  {
    Encode(P.WireOf(c.narrow, c.types[i], values[i]))
  }

  lemma Associate(a: seq<byte>, b: seq<byte>, c: seq<byte>)
    ensures a + (b + c) == (a + b) + c
  {
  }

  lemma EncodeOneMore(c: Channel, values: seq<Value>, i: nat)
    requires P.Fits(c.ports, c.types, values) && i < |values|
    ensures P.EncodeFirst(c.narrow, c.types, values, i + 1)
         == P.EncodeFirst(c.narrow, c.types, values, i) + Piece(c, values, i)
    ensures EncodeFrom(c, values, i) == Piece(c, values, i) + EncodeFrom(c, values, i + 1)
  {
  }

  lemma {:induction false} EncodeAllFromTheFront(c: Channel, values: seq<Value>, i: nat)
    requires P.Fits(c.ports, c.types, values) && i <= |values|
    ensures P.EncodeFirst(c.narrow, c.types, values, |values|)
         == P.EncodeFirst(c.narrow, c.types, values, i) + EncodeFrom(c, values, i)
    decreases |values| - i
  {
    var head := P.EncodeFirst(c.narrow, c.types, values, i);
    if i == |values| {
      assert head + [] == head;
    } else {
      EncodeOneMore(c, values, i);
      EncodeAllFromTheFront(c, values, i + 1);
      Associate(head, Piece(c, values, i), EncodeFrom(c, values, i + 1));
    }
  }

  /** An encoded value at the front of the buffer fills the next port. */
  lemma ScanOneValue(
    ports: seq<PortID>, convert: Conversion, e: Partial, wire: Wire, tail: seq<byte>, out: seq<seq<Variable>>)
    requires e.next < |ports| && (wire.Text? ==> |wire.chars| < 0x1_0000)
    ensures Scan(ports, convert, Parser(Some(e), Encode(wire) + tail, out))
         == Scan(ports, convert, PushIfComplete(ports, Parser(Some(Fill(ports, convert, e, wire)), tail, out)))
  {
    ReadUndoesEncode(wire, tail);
    assert (Encode(wire) + tail)[|Encode(wire)|..] == tail;
  }

  lemma ScanPiece(c: Channel, values: seq<Value>, i: nat, tail: seq<byte>, out: seq<seq<Variable>>)
    requires P.Fits(c.ports, c.types, values) && i < |values|
    ensures Scan(c.ports, c.convert, Parser(Some(Partial(i, Received(c, values, i))), Piece(c, values, i) + tail, out))
         == Scan(c.ports, c.convert,
                 PushIfComplete(c.ports, Parser(Some(Partial(i + 1, Received(c, values, i + 1))), tail, out)))
  {
    var (e, wire) := (Partial(i, Received(c, values, i)), P.WireOf(c.narrow, c.types[i], values[i]));
    assert Fill(c.ports, c.convert, e, wire) == Partial(i + 1, Received(c, values, i + 1));
    ScanOneValue(c.ports, c.convert, e, wire, tail, out);
  }

  /** The value of the last port completes the event. */
  lemma ScanLastPiece(c: Channel, values: seq<Value>, i: nat, tail: seq<byte>, out: seq<seq<Variable>>)
    requires P.Fits(c.ports, c.types, values) && i + 1 == |values|
    ensures Scan(c.ports, c.convert, Parser(Some(Partial(i, Received(c, values, i))), Piece(c, values, i) + tail, out))
         == Scan(c.ports, c.convert, Parser(None, tail, out + [Received(c, values, |values|)]))
  {
    ScanPiece(c, values, i, tail, out);
  }

  lemma ScanInnerPiece(c: Channel, values: seq<Value>, i: nat, tail: seq<byte>, out: seq<seq<Variable>>)
    requires P.Fits(c.ports, c.types, values) && i + 1 < |values|
    ensures Scan(c.ports, c.convert, Parser(Some(Partial(i, Received(c, values, i))), Piece(c, values, i) + tail, out))
         == Scan(c.ports, c.convert, Parser(Some(Partial(i + 1, Received(c, values, i + 1))), tail, out))
  {
    ScanPiece(c, values, i, tail, out);
  }

  lemma {:induction false} ScanFrom(c: Channel, values: seq<Value>, i: nat, rest: seq<byte>, out: seq<seq<Variable>>)
    requires P.Fits(c.ports, c.types, values) && i < |values|
    ensures Scan(c.ports, c.convert,
                 Parser(Some(Partial(i, Received(c, values, i))), EncodeFrom(c, values, i) + rest, out))
         == Scan(c.ports, c.convert, Parser(None, rest, out + [Received(c, values, |values|)]))
    decreases |values| - i
  {
    var tail := EncodeFrom(c, values, i + 1);
    EncodeOneMore(c, values, i);
    Associate(Piece(c, values, i), tail, rest);
    if i + 1 < |values| {
      ScanInnerPiece(c, values, i, tail + rest, out);
      ScanFrom(c, values, i + 1, rest, out);
    } else {
      ScanLastPiece(c, values, i, tail + rest, out);
      assert tail + rest == rest;
    }
  }

  lemma ScanMessage(c: Channel, values: seq<Value>, out: seq<seq<Variable>>)
    requires c.ports != [] && P.Fits(c.ports, c.types, values)
    ensures Scan(c.ports, c.convert, Parser(None, P.EncodeAll(c.narrow, c.types, values), out))
         == Scanned(Parser(None, [], out + [Received(c, values, |values|)]), false)
  {
    EncodeAllFromTheFront(c, values, 0);
    ScanFrom(c, values, 0, [], out);
    var message := P.EncodeAll(c.narrow, c.types, values);
    assert message == EncodeFrom(c, values, 0) + [];
    assert message != [];
    OpeningChangesNothing(c.ports, c.convert, message, out);
  }

  lemma OpeningChangesNothing(ports: seq<PortID>, convert: Conversion, buf: seq<byte>, out: seq<seq<Variable>>)
    requires ports != [] && buf != []
    ensures Scan(ports, convert, Parser(None, buf, out))
         == Scan(ports, convert, Parser(Some(Partial(0, [])), buf, out))
  {
  }

  lemma {:induction false} ScanMessages(c: Channel, events: seq<Event>)
    requires WellPosed(c) && AllEventsValid(events)
    ensures Scan(c.ports, c.convert, Parser(None, Concat(Messages(c, events)), []))
         == Scanned(Parser(None, [], Expected(c, events)), false)
    ensures |Expected(c, events)| == |Messages(c, events)|
  {
    if events != [] {
      var n := |events| - 1;
      ScanMessages(c, events[..n]);
      PublishedFits(c, events);
      if Images.Mentions(events[n].vars, c.ports) {
        var message := P.EncodeAll(c.narrow, c.types, Published(c, events));
        var before := Messages(c, events[..n]);
        assert Messages(c, events)[..|before|] == before;
        ScanContinues(c.ports, c.convert, Parser(None, Concat(before), []), message);
        assert [] + message == message;
        ScanMessage(c, Published(c, events), Expected(c, events[..n]));
      } else {
        assert Messages(c, events) == Messages(c, events[..n]);
      }
    }
  }

  /** End to end: feeding the published messages to the subscriber, cut in any way, pushes
      exactly one event for each message, with the expected variables, and leaves nothing
      behind. */
  lemma WhatIsPublishedArrives(c: Channel, events: seq<Event>, chunks: seq<seq<byte>>)
    requires WellPosed(c) && AllEventsValid(events)
    requires Concat(chunks) == Concat(Messages(c, events))
    ensures CommitAll(c.ports, c.convert, Parser(None, [], []), chunks) == Parser(None, [], Expected(c, events))
    ensures |Expected(c, events)| == |Messages(c, events)|
  {
    var p := Parser(None, [], []);
    ScanMessages(c, events);
    assert Extend(p, Concat(chunks)) == Parser(None, Concat(Messages(c, events)), []);
    ScanStopsAtUnread(c.ports, c.convert, Extend(p, Concat(chunks)));
    CleanStreamsMayBeCut(c.ports, c.convert, p, chunks);
  }

  // ----- what each event holds

  /** The events that make the publisher send a message. */
  function Senders(c: Channel, events: seq<Event>): (indices: seq<nat>)
    ensures forall m :: 0 <= m < |indices| ==> indices[m] < |events|
  {
    if events == [] then []
    else
      var n := |events| - 1;
      Senders(c, events[..n]) + (if Images.Mentions(events[n].vars, c.ports) then [n] else [])
  }

  /** They are, in order, exactly the events with a variable of a port of the channel. */
  lemma {:induction false} SendersConcernTheChannel(c: Channel, events: seq<Event>)
    ensures forall m, l :: 0 <= m < l < |Senders(c, events)| ==> Senders(c, events)[m] < Senders(c, events)[l]
    ensures forall n: nat :: n in Senders(c, events) <==>
              n < |events| && exists v :: 0 <= v < |events[n].vars| && events[n].vars[v].port in c.ports
  {
    if events != [] {
      var last := |events| - 1;
      SendersConcernTheChannel(c, events[..last]);
      var (before, r) := (Senders(c, events[..last]), Senders(c, events));
      assert forall m :: 0 <= m < |before| ==> r[m] == before[m] && before[m] < last;
      forall n: nat
        ensures n in Senders(c, events) <==>
                  n < |events| && exists v :: 0 <= v < |events[n].vars| && events[n].vars[v].port in c.ports
      {
        if n < last {
          assert events[..last][n] == events[n];
        }
      }
    }
  }

  /** Every float can be converted to a real number. */
  ghost predicate FloatsArrive(convert: Conversion) {
    forall bits :: convert(FmiReal, Real(bits)).Some?
  }

  /** What arrives of a value if nothing is lost: only a real number that is sent as a float
      is rounded, flags are normalised, and strings are cut. */
  function Arrived(c: Channel, i: nat, value: Value): Value
    requires i < |c.ports| == |c.types|
    requires c.types[i] == P.REAL && value.RealValue? ==> c.convert(FmiReal, Real(c.narrow(value.bits))).Some?
  {
    match value
    case RealValue(bits) => if c.types[i] == P.REAL then c.convert(FmiReal, Real(c.narrow(bits))).value else value
    case IntegerValue(_) => value
    case BooleanValue(flag) => BooleanValue(if flag != 0 then 1 else 0)
    case StringValue(chars) => StringValue(chars[..|chars| % 0x1_0000])
  }

  lemma {:induction false} AllPortsArrive(c: Channel, values: seq<Value>, n: nat)
    requires WellPosed(c) && KeepsEqualTypes(c.convert) && FloatsArrive(c.convert)
    requires P.Fits(c.ports, c.types, values) && n <= |c.ports|
    ensures var received := Received(c, values, n);
            |received| == n && forall i :: 0 <= i < n ==> received[i] == Variable(c.ports[i], Arrived(c, i, values[i]))
  {
    if n > 0 {
      AllPortsArrive(c, values, n - 1);
      EqualTypesArrive(c, n - 1, values[n - 1]);
    }
  }

  lemma {:induction false} ExpectedOfSender(c: Channel, events: seq<Event>, m: nat)
    requires WellPosed(c) && AllEventsValid(events) && m < |Senders(c, events)|
    ensures AllEventsValid(events[..Senders(c, events)[m] + 1])
    ensures P.Fits(c.ports, c.types, Published(c, events[..Senders(c, events)[m] + 1]))
    ensures |Expected(c, events)| == |Senders(c, events)|
    ensures Expected(c, events)[m] == Received(c, Published(c, events[..Senders(c, events)[m] + 1]), |c.ports|)
  {
    var n := |events| - 1;
    SendersAreExpected(c, events[..n]);
    PublishedFits(c, events[..Senders(c, events)[m] + 1]);
    if m < |Senders(c, events[..n])| {
      ExpectedOfSender(c, events[..n], m);
      var k := Senders(c, events)[m];
      assert events[..n][..k + 1] == events[..k + 1];
    } else {
      assert events[..n + 1] == events;
    }
  }

  lemma {:induction false} SendersAreExpected(c: Channel, events: seq<Event>)
    requires WellPosed(c) && AllEventsValid(events)
    ensures |Expected(c, events)| == |Senders(c, events)|
  {
    if events != [] {
      SendersAreExpected(c, events[..|events| - 1]);
    }
  }

  /** Variable v of event e is the last one of the port in the whole history. */
  predicate IsLastInHistory(events: seq<Event>, port: PortID, e: int, v: int) {
    && 0 <= e < |events| && Images.IsLastOf(events[e].vars, port, v)
    && forall k :: e < k < |events| ==> Images.IsAbsent(events[k].vars, port)
  }

  predicate IsNeverAssigned(events: seq<Event>, port: PortID) {
    forall k :: 0 <= k < |events| ==> Images.IsAbsent(events[k].vars, port)
  }

  lemma {:induction false} LastInHistory(events: seq<Event>, port: PortID, initial: Value)
    ensures forall e, v :: IsLastInHistory(events, port, e, v) ==>
              Images.LastAssigned(Assignments(events), port, initial) == events[e].vars[v].value
    ensures IsNeverAssigned(events, port) ==> Images.LastAssigned(Assignments(events), port, initial) == initial
  {
    if events != [] {
      var n := |events| - 1;
      LastInHistory(events[..n], port, initial);
      var before := Images.LastAssigned(Assignments(events[..n]), port, initial);
      Images.LastAssignedOfConcat(Assignments(events[..n]), events[n].vars, port, initial);
      Images.LastAssignedAt(events[n].vars, port, before);
      forall e, v | IsLastInHistory(events, port, e, v)
        ensures Images.LastAssigned(Assignments(events), port, initial) == events[e].vars[v].value
      {
        if e < n {
          EarlierHistory(events, port, e, v);
        }
      }
    }
  }

  lemma EarlierHistory(events: seq<Event>, port: PortID, e: int, v: int)
    requires IsLastInHistory(events, port, e, v) && e < |events| - 1
    ensures IsLastInHistory(events[..|events| - 1], port, e, v) && Images.IsAbsent(events[|events| - 1].vars, port)
    ensures events[..|events| - 1][e] == events[e]
  {
  }

  /** With equal types on both sides, the subscriber pushes one event for each event that
      concerns the channel. It has exactly one variable for each port, in the order of the
      ports. This is what arrives of the last variable of the port up to that event, or of
      the default value if there is none. */
  lemma PushedEventsHoldLastValues(c: Channel, events: seq<Event>, chunks: seq<seq<byte>>, m: nat, i: nat)
    requires WellPosed(c) && AllEventsValid(events) && KeepsEqualTypes(c.convert) && FloatsArrive(c.convert)
    requires Concat(chunks) == Concat(Messages(c, events)) && m < |Senders(c, events)| && i < |c.ports|
    ensures var p := CommitAll(c.ports, c.convert, Parser(None, [], []), chunks);
            var before := events[..Senders(c, events)[m] + 1];
            && p.partial.None? && p.buf == [] && |p.pushed| == |Senders(c, events)|
            && |p.pushed[m]| == |c.ports| && p.pushed[m][i].port == c.ports[i]
            && (forall e, v :: IsLastInHistory(before, c.ports[i], e, v) ==>
                  p.pushed[m][i].value == Arrived(c, i, before[e].vars[v].value))
            && (IsNeverAssigned(before, c.ports[i]) ==>
                  p.pushed[m][i].value == Arrived(c, i, P.DefaultValue(c.ports[i].kind)))
  {
    var before := events[..Senders(c, events)[m] + 1];
    WhatIsPublishedArrives(c, events, chunks);
    ExpectedOfSender(c, events, m);
    AllPortsArrive(c, Published(c, before), |c.ports|);
    PublishedIsLastAssigned(c, before, i);
    LastInHistory(before, c.ports[i], P.DefaultValue(c.ports[i].kind));
  }

  // ----- the objects

  lemma CommitOneMore(ports: seq<PortID>, convert: Conversion, p: Parser, chunks: seq<seq<byte>>, n: nat)
    requires Open(ports, p) && n < |chunks|
    ensures CommitAll(ports, convert, p, chunks[..n + 1])
         == Commit(ports, convert, CommitAll(ports, convert, p, chunks[..n]), chunks[n])
  {
    assert chunks[..n + 1][..n] == chunks[..n];
  }

  /** Lets the publisher handle a history of events and collects what it sends. */
  method Publish(c: Channel, publisher: P.Publisher, events: seq<Event>) returns (messages: seq<seq<byte>>)
    requires WellPosed(c) && AllEventsValid(events)
    requires publisher.ports == c.ports && publisher.types == c.types && publisher.narrow == c.narrow
    requires publisher.Valid() && publisher.values == P.Defaults(c.ports)
    modifies publisher
    ensures messages == Messages(c, events)
    ensures publisher.Valid() && publisher.values == Published(c, events)
  {
    messages := [];
    var n := 0;
    while n < |events|
      invariant 0 <= n <= |events| && publisher.Valid()
      invariant publisher.values == Published(c, events[..n])
      invariant AllEventsValid(events[..n]) && messages == Messages(c, events[..n])
    {
      assert events[..n + 1][..n] == events[..n];
      var message := publisher.EventTriggered(events[n]);
      messages := messages + (if message.Some? then [message.value] else []);
      n := n + 1;
    }
    assert events[..n] == events;
  }

  method Receive(subscriber: Subscriber, chunks: seq<seq<byte>>)
    requires subscriber.Valid()
    modifies subscriber, subscriber.partialData
    ensures subscriber.Valid()
    ensures subscriber.View() == CommitAll(subscriber.ports, subscriber.convert, old(subscriber.View()), chunks)
  {
    ghost var (ports, convert, start, p) := (subscriber.ports, subscriber.convert, subscriber.View(), subscriber.View());
    var n := 0;
    while n < |chunks|
      invariant 0 <= n <= |chunks| && subscriber.Valid() && subscriber.View() == p
      invariant subscriber.partialData != null ==>
                  subscriber.partialData == old(subscriber.partialData) || fresh(subscriber.partialData)
      invariant Open(ports, start) && p == CommitAll(ports, convert, start, chunks[..n])
    {
      CommitOneMore(ports, convert, start, chunks, n);
      p := Commit(ports, convert, p, chunks[n]);
      subscriber.CommitData(chunks[n]);
      n := n + 1;
    }
    assert chunks[..n] == chunks;
  }

  /** From the publisher to the subscriber over a network that cuts the stream of bytes. */
  method Transmit(c: Channel, publisher: P.Publisher, subscriber: Subscriber, events: seq<Event>,
                  cut: seq<byte> -> seq<seq<byte>>)
    requires WellPosed(c) && AllEventsValid(events)
    requires publisher.ports == c.ports && publisher.types == c.types && publisher.narrow == c.narrow
    requires publisher.Valid() && publisher.values == P.Defaults(c.ports)
    requires subscriber.Valid() && subscriber.ports == c.ports && subscriber.convert == c.convert
    requires subscriber.View() == Parser(None, [], [])
    requires forall bytes :: Concat(cut(bytes)) == bytes
    modifies publisher, subscriber, subscriber.partialData
    ensures subscriber.Valid() && subscriber.View() == Parser(None, [], Expected(c, events))
  {
    var messages := Publish(c, publisher, events);
    var chunks := cut(Concat(messages));
    Receive(subscriber, chunks);
    WhatIsPublishedArrives(c, events, chunks);
  }
}
