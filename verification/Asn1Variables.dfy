/** No variable that the subscriber reads is lost: whatever chunks, timeouts and unsupported
    tags arrive, it is in an event that was pushed, or in the one that is open. */
module Asn1Variables {
  import opened Fmi
  import opened Asn1Codec
  import opened Asn1Subscriber
  import opened Asn1Parsing

  function Flatten(events: seq<seq<Variable>>): seq<Variable> {
    if events == [] then [] else Flatten(events[..|events| - 1]) + events[|events| - 1]
  }

  /** All variables that were pushed, followed by those of the open event. */
  function Collected(p: Parser): seq<Variable> {
    Flatten(p.pushed) + if p.partial.Some? then p.partial.value.vars else []
  }

  function NextPort(ports: seq<PortID>, next: nat): (n: nat)
    requires next < |ports|
    ensures n < |ports|
  {
    if next + 1 == |ports| then 0 else next + 1
  }

  /** What the values at the front of the bytes are converted to, port after port. */
  function VariablesIn(ports: seq<PortID>, convert: Conversion, next: nat, bytes: seq<byte>): seq<Variable>
    requires next < |ports|
    decreases |bytes|
  {
    if bytes == [] || !ReadValue(bytes).Read? then []
    else
      ReadingIsStable(bytes, []);
      var (r, port) := (ReadValue(bytes), ports[next]);
      var value := convert(port.kind, r.wire);
      (if value.Some? then [Variable(port, value.value)] else [])
      + VariablesIn(ports, convert, NextPort(ports, next), bytes[r.size..])
  }

  /** How many values there are at the front of the bytes. */
  function ValuesIn(bytes: seq<byte>): nat
    decreases |bytes|
  {
    if bytes == [] || !ReadValue(bytes).Read? then 0
    else
      ReadingIsStable(bytes, []);
      1 + ValuesIn(bytes[ReadValue(bytes).size..])
  }

  lemma FlattenOneMore(events: seq<seq<Variable>>, last: seq<Variable>)
    ensures Flatten(events + [last]) == Flatten(events) + last
  {
    assert (events + [last])[..|events|] == events;
  }

  lemma Associate(a: seq<Variable>, b: seq<Variable>, c: seq<Variable>)
    ensures a + (b + c) == (a + b) + c
  {
  }

  lemma FillAppends(ports: seq<PortID>, convert: Conversion, e: Partial, wire: Wire)
    requires e.next < |ports|
    ensures var (port, filled) := (ports[e.next], Fill(ports, convert, e, wire));
            var value := convert(port.kind, wire);
            && filled.next == e.next + 1
            && filled.vars == e.vars + (if value.Some? then [Variable(port, value.value)] else [])
  {
  }

  lemma CompletionKeeps(ports: seq<PortID>, p: Parser)
    requires p.partial.Some? && 0 < p.partial.value.next <= |ports|
    ensures var r := PushIfComplete(ports, p);
            && Collected(r) == Flatten(p.pushed) + p.partial.value.vars
            && PartialOf(r).next == if p.partial.value.next == |ports| then 0 else p.partial.value.next
  {
    if p.partial.value.next >= |ports| {
      FlattenOneMore(p.pushed, p.partial.value.vars);
      assert Collected(PushIfComplete(ports, p)) == Flatten(p.pushed + [p.partial.value.vars]);
    }
  }

  lemma CollectedIsFlat(p: Parser)
    ensures Collected(p) == Flatten(p.pushed) + PartialOf(p).vars
  {
  }

  lemma AfterReadCollects(ports: seq<PortID>, convert: Conversion, p: Parser)
    requires Open(ports, p) && p.buf != [] && ReadValue(p.buf).Read?
    ensures var (r, port, next) := (ReadValue(p.buf), ports[PartialOf(p).next], AfterRead(ports, convert, p));
            var value := convert(port.kind, r.wire);
            && PartialOf(next).next == NextPort(ports, PartialOf(p).next)
            && Collected(next) == Collected(p) + (if value.Some? then [Variable(port, value.value)] else [])
  {
    var (e, r) := (PartialOf(p), ReadValue(p.buf));
    ReadingIsStable(p.buf, []);
    var filled := Fill(ports, convert, e, r.wire);
    var value := convert(ports[e.next].kind, r.wire);
    FillAppends(ports, convert, e, r.wire);
    CompletionKeeps(ports, Parser(Some(filled), p.buf[r.size..], p.pushed));
    CollectedIsFlat(p);
    Associate(Flatten(p.pushed), e.vars, if value.Some? then [Variable(ports[e.next], value.value)] else []);
  }

  lemma {:induction false} ScanCollects(ports: seq<PortID>, convert: Conversion, p: Parser)
    requires Open(ports, p)
    ensures Collected(Scan(ports, convert, p).parser)
         == Collected(p) + VariablesIn(ports, convert, PartialOf(p).next, p.buf)
    decreases |p.buf|
  {
    if p.buf != [] && ReadValue(p.buf).Read? {
      var next := AfterRead(ports, convert, p);
      AfterReadCollects(ports, convert, p);
      ScanCollects(ports, convert, next);
      var added := Collected(next)[|Collected(p)|..];
      Associate(Collected(p), added, VariablesIn(ports, convert, PartialOf(next).next, next.buf));
    }
  }

  /** A chunk adds exactly the variables that its values stand for. A timeout adds and drops
      none: it pushes the open event with all of them. */
  lemma InputsAreCollected(ports: seq<PortID>, convert: Conversion, p: Parser, input: Input)
    requires Open(ports, p)
    ensures var r := Consume(ports, convert, p, input);
            match input
            case Chunk(bytes) =>
              Collected(r) == Collected(p) + VariablesIn(ports, convert, PartialOf(p).next, p.buf + bytes)
            case TimerExpires =>
              && Collected(r) == Collected(p)
              && (p.partial.Some? ==> r.partial.None? && r.buf == [] && r.pushed == p.pushed + [p.partial.value.vars])
              && (p.partial.None? ==> r == p)
  {
    match input
    case Chunk(bytes) =>
      var s := Scan(ports, convert, Extend(p, bytes));
      ScanCollects(ports, convert, Extend(p, bytes));
      ScanStops(ports, convert, Extend(p, bytes));
      if s.bad {
        PushingKeeps(s.parser);
      }
    case TimerExpires =>
      if p.partial.Some? {
        PushingKeeps(p);
      }
  }

  lemma PushingKeeps(p: Parser)
    requires p.partial.Some?
    ensures Collected(Parser(None, [], p.pushed + [p.partial.value.vars])) == Collected(p)
  {
    FlattenOneMore(p.pushed, p.partial.value.vars);
  }

  lemma CollectedGrows(ports: seq<PortID>, convert: Conversion, p: Parser, input: Input)
    requires Open(ports, p)
    ensures Collected(p) <= Collected(Consume(ports, convert, p, input))
  {
    InputsAreCollected(ports, convert, p, input);
  }

  /** What was read at any time is still there, in its place, at any later time. */
  lemma {:induction false} NothingReadIsLost(ports: seq<PortID>, convert: Conversion, inputs: seq<Input>, n: nat)
    requires ports != [] && n <= |inputs|
    ensures Collected(ConsumeAll(ports, convert, inputs[..n])) <= Collected(ConsumeAll(ports, convert, inputs))
    decreases |inputs|
  {
    if n == |inputs| {
      assert inputs[..n] == inputs;
    } else {
      var m := |inputs| - 1;
      assert inputs[..m][..n] == inputs[..n];
      NothingReadIsLost(ports, convert, inputs[..m], n);
      CollectedGrows(ports, convert, ConsumeAll(ports, convert, inputs[..m]), inputs[m]);
    }
  }

  /** How many ports have been filled since the start. */
  function Filled(size: nat, p: Parser): int {
    size * |p.pushed| + PartialOf(p).next
  }

  lemma CompletionFills(ports: seq<PortID>, p: Parser)
    requires p.partial.Some? && p.partial.value.next <= |ports|
    ensures Filled(|ports|, PushIfComplete(ports, p)) == Filled(|ports|, p)
  {
    assert |ports| * (|p.pushed| + 1) == |ports| * |p.pushed| + |ports|;
  }

  lemma AfterReadFills(ports: seq<PortID>, convert: Conversion, p: Parser)
    requires Open(ports, p) && p.buf != [] && ReadValue(p.buf).Read?
    ensures Filled(|ports|, AfterRead(ports, convert, p)) == Filled(|ports|, p) + 1
  {
    var (e, r) := (PartialOf(p), ReadValue(p.buf));
    ReadingIsStable(p.buf, []);
    CompletionFills(ports, Parser(Some(Fill(ports, convert, e, r.wire)), p.buf[r.size..], p.pushed));
  }

  /** An event is pushed with the last of its ports and not before: events pushed and ports
      filled account for every value. */
  lemma {:induction false} ValuesFillEvents(ports: seq<PortID>, convert: Conversion, p: Parser)
    requires Open(ports, p)
    ensures var r := Scan(ports, convert, p).parser;
            |ports| * |r.pushed| + PartialOf(r).next == |ports| * |p.pushed| + PartialOf(p).next + ValuesIn(p.buf)
    decreases |p.buf|
  {
    if p.buf != [] && ReadValue(p.buf).Read? {
      AfterReadFills(ports, convert, p);
      ValuesFillEvents(ports, convert, AfterRead(ports, convert, p));
    }
  }

  lemma ExtendTwice(p: Parser, first: seq<byte>, second: seq<byte>)
    ensures Extend(Extend(p, first), second) == Extend(p, first + second)
  {
    assert p.buf + (first + second) == (p.buf + first) + second;
  }

  lemma EmptyMeetsBadTag(ports: seq<PortID>, convert: Conversion, p: Parser, rest: seq<byte>)
    requires Open(ports, p) && p.buf == [] && rest != [] && ReadValue(rest).BadTag?
    ensures Scan(ports, convert, Extend(p, rest)) == Scanned(Parser(Some(PartialOf(p)), rest, p.pushed), true)
  {
    assert p.buf + rest == rest;
    BadTagOnly(ports, convert, Extend(p, rest));
  }

  lemma ScanOfBadRest(ports: seq<PortID>, convert: Conversion, p: Parser, good: seq<byte>, rest: seq<byte>)
    requires Open(ports, p) && Unread(p.buf + good) == [] && rest != [] && ReadValue(rest).BadTag?
    ensures var before := Scan(ports, convert, Extend(p, good));
            !before.bad && before.parser.buf == []
            && Scan(ports, convert, Extend(p, good + rest))
               == Scanned(Parser(Some(PartialOf(before.parser)), rest, before.parser.pushed), true)
  {
    ScanStopsAtUnread(ports, convert, Extend(p, good));
    ScanContinues(ports, convert, Extend(p, good), rest);
    EmptyMeetsBadTag(ports, convert, Scan(ports, convert, Extend(p, good)).parser, rest);
    ExtendTwice(p, good, rest);
  }

  /** An unsupported tag behind complete values pushes what they have left open, even if it
      is nothing, and drops everything that follows. */
  lemma BadTagPushesOpenEvent(ports: seq<PortID>, convert: Conversion, p: Parser, good: seq<byte>, rest: seq<byte>)
    requires Open(ports, p) && Unread(p.buf + good) == [] && rest != [] && ReadValue(rest).BadTag?
    ensures var before := Commit(ports, convert, p, good);
            var last := if before.partial.Some? then before.partial.value.vars else [];
            Commit(ports, convert, p, good + rest) == Parser(None, [], before.pushed + [last])
  {
    ScanOfBadRest(ports, convert, p, good, rest);
  }
}
