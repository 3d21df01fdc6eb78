/** What the incremental parser keeps and promises, for every stream of bytes. */
module Asn1Parsing {
  import opened Fmi
  import opened Asn1Codec
  import opened Asn1Subscriber

  // ----- what holds between two calls, whatever arrives

  datatype Input = Chunk(bytes: seq<byte>) | TimerExpires

  function Consume(ports: seq<PortID>, convert: Conversion, p: Parser, input: Input): (r: Parser)
    requires Open(ports, p)
    ensures Open(ports, r)
  {
    match input
    case Chunk(bytes) => Commit(ports, convert, p, bytes)
    case TimerExpires => Timeout(p)
  }

  function ConsumeAll(ports: seq<PortID>, convert: Conversion, inputs: seq<Input>): (r: Parser)
    requires ports != []
    ensures Open(ports, r)
  {
    if inputs == [] then Parser(None, [], [])
    else
      var n := |inputs| - 1;
      Consume(ports, convert, ConsumeAll(ports, convert, inputs[..n]), inputs[n])
  }

  /** The variables are type-correct and follow the order of the ports, some of which may
      have been skipped. */
  predicate Follows(vars: seq<Variable>, ports: seq<PortID>) {
    if ports == [] then vars == []
    else
      var n := |ports| - 1;
      || Follows(vars, ports[..n])
      || (vars != [] && vars[|vars| - 1].port == ports[n] && IsValid(vars[|vars| - 1])
          && Follows(vars[..|vars| - 1], ports[..n]))
  }

  lemma {:induction false} FollowsPrefix(vars: seq<Variable>, ports: seq<PortID>, n: nat)
    requires n <= |ports| && Follows(vars, ports[..n])
    ensures Follows(vars, ports)
    decreases |ports| - n
  {
    if n < |ports| {
      assert ports[..n + 1][..n] == ports[..n];
      FollowsPrefix(vars, ports, n + 1);
    } else {
      assert ports[..n] == ports;
    }
  }

  predicate WellTyped(ports: seq<PortID>, p: Parser) {
    var e := PartialOf(p);
    && e.next < |ports| && Follows(e.vars, ports[..e.next])
    && forall i :: 0 <= i < |p.pushed| ==> Follows(p.pushed[i], ports)
  }

  /** Nothing to parse without an open event, and never more than one unfinished value. */
  predicate AtRest(p: Parser) {
    && (p.partial.None? ==> p.buf == [])
    && (p.buf != [] ==> ReadValue(p.buf).NeedMore?)
  }

  lemma FillFollows(ports: seq<PortID>, convert: Conversion, e: Partial, wire: Wire)
    requires ProducesPortTypes(convert) && e.next < |ports| && Follows(e.vars, ports[..e.next])
    ensures Follows(Fill(ports, convert, e, wire).vars, ports[..e.next + 1])
  {
    assert ports[..e.next + 1][..e.next] == ports[..e.next];
    var vars := Fill(ports, convert, e, wire).vars;
    if vars != e.vars {
      assert vars[..|vars| - 1] == e.vars;
    }
  }

  lemma {:induction false} ScanKeepsTypes(ports: seq<PortID>, convert: Conversion, p: Parser)
    requires ProducesPortTypes(convert) && WellTyped(ports, p)
    ensures WellTyped(ports, Scan(ports, convert, p).parser)
    decreases |p.buf|
  {
    if p.buf != [] && ReadValue(p.buf).Read? {
      var e, r := PartialOf(p), ReadValue(p.buf);
      ReadingIsStable(p.buf, []);
      FillFollows(ports, convert, e, r.wire);
      if e.next + 1 == |ports| {
        assert ports[..e.next + 1] == ports;
      }
      ScanKeepsTypes(ports, convert,
        PushIfComplete(ports, Parser(Some(Fill(ports, convert, e, r.wire)), p.buf[r.size..], p.pushed)));
    }
  }

  /** Where the scan ends. */
  lemma {:induction false} ScanStops(ports: seq<PortID>, convert: Conversion, p: Parser)
    requires Open(ports, p)
    ensures var s := Scan(ports, convert, p);
            if s.bad then s.parser.buf != [] && ReadValue(s.parser.buf).BadTag? && s.parser.partial.Some?
            else AtRest(s.parser)
    ensures |Scan(ports, convert, p).parser.buf| <= |p.buf|
    decreases |p.buf|
  {
    if p.buf != [] && ReadValue(p.buf).Read? {
      ReadingIsStable(p.buf, []);
      ScanStops(ports, convert, AfterRead(ports, convert, p));
    }
  }

  /** The parser after the value at the front of the buffer. */
  function AfterRead(ports: seq<PortID>, convert: Conversion, p: Parser): (r: Parser)
    requires Open(ports, p) && p.buf != [] && ReadValue(p.buf).Read?
    ensures Open(ports, r) && |r.buf| < |p.buf| && r.buf == p.buf[ReadValue(p.buf).size..]
    ensures Scan(ports, convert, p) == Scan(ports, convert, r)
  {
    ReadingIsStable(p.buf, []);
    var r := ReadValue(p.buf);
    PushIfComplete(ports, Parser(Some(Fill(ports, convert, PartialOf(p), r.wire)), p.buf[r.size..], p.pushed))
  }

  /** For any placement of timeouts and bad tags: a missing event means an empty buffer, an
      open one has ports left, at most 65537 bytes are buffered, and everything that was
      collected or pushed is type-correct and in the order of the ports. */
  lemma {:induction false} ParserStaysConsistent(ports: seq<PortID>, convert: Conversion, inputs: seq<Input>)
    requires ports != [] && ProducesPortTypes(convert)
    ensures var p := ConsumeAll(ports, convert, inputs);
            && (p.partial.None? ==> p.buf == [])
            && (p.partial.Some? ==> p.partial.value.next < |ports|)
            && |p.buf| <= 65537
            && AtRest(p) && WellTyped(ports, p)
  {
    if inputs != [] {
      var n := |inputs| - 1;
      ParserStaysConsistent(ports, convert, inputs[..n]);
      var before := ConsumeAll(ports, convert, inputs[..n]);
      ConsumeKeepsTypes(ports, convert, before, inputs[n]);
      var after := ConsumeAll(ports, convert, inputs);
      if after.buf != [] {
        UnfinishedIsShort(after.buf);
      }
    }
  }

  lemma ConsumeKeepsTypes(ports: seq<PortID>, convert: Conversion, p: Parser, input: Input)
    requires ProducesPortTypes(convert) && WellTyped(ports, p) && AtRest(p)
    ensures var r := Consume(ports, convert, p, input); WellTyped(ports, r) && AtRest(r)
  {
    match input
    case Chunk(bytes) =>
      var start := p.(buf := p.buf + bytes);
      ScanKeepsTypes(ports, convert, start);
      ScanStops(ports, convert, start);
      var e := PartialOf(Scan(ports, convert, start).parser);
      FollowsPrefix(e.vars, ports, e.next);
    case TimerExpires =>
      FollowsPrefix(PartialOf(p).vars, ports, PartialOf(p).next);
  }

  // ----- where the stream is cut does not matter

  function Concat(chunks: seq<seq<byte>>): seq<byte> {
    if chunks == [] then [] else Concat(chunks[..|chunks| - 1]) + chunks[|chunks| - 1]
  }

  function CommitAll(ports: seq<PortID>, convert: Conversion, p: Parser, chunks: seq<seq<byte>>): (r: Parser)
    requires Open(ports, p)
    ensures Open(ports, r)
  {
    if chunks == [] then p
    else
      var n := |chunks| - 1;
      Commit(ports, convert, CommitAll(ports, convert, p, chunks[..n]), chunks[n])
  }

  function Extend(p: Parser, more: seq<byte>): Parser {
    p.(buf := p.buf + more)
  }

  /** Scanning a longer buffer continues where the shorter one ended. */
  lemma {:induction false} ScanContinues(ports: seq<PortID>, convert: Conversion, p: Parser, more: seq<byte>)
    requires Open(ports, p)
    ensures var s := Scan(ports, convert, p);
            var longer := Scan(ports, convert, Extend(p, more));
            if s.bad then longer == Scanned(Extend(s.parser, more), true)
            else longer == Scan(ports, convert, Extend(s.parser, more))
    decreases |p.buf|
  {
    if p.buf != [] {
      ReadingIsStable(p.buf, more);
      if ReadValue(p.buf).Read? {
        var next := AfterRead(ports, convert, p);
        assert (p.buf + more)[ReadValue(p.buf).size..] == p.buf[ReadValue(p.buf).size..] + more;
        assert AfterRead(ports, convert, Extend(p, more)) == Extend(next, more);
        ScanContinues(ports, convert, next, more);
      }
    }
  }

  /** What is left behind the values at the front. */
  function Unread(bytes: seq<byte>): (rest: seq<byte>)
    ensures |rest| <= |bytes| && (rest != [] ==> !ReadValue(rest).Read?)
    decreases |bytes|
  {
    if bytes == [] || !ReadValue(bytes).Read? then bytes
    else
      ReadingIsStable(bytes, []);
      Unread(bytes[ReadValue(bytes).size..])
  }

  predicate MeetsBadTag(bytes: seq<byte>) {
    Unread(bytes) != [] && ReadValue(Unread(bytes)).BadTag?
  }

  /** The bytes meet no unsupported tag, except perhaps as the last one. */
  predicate CleanBeforeItsLastByte(bytes: seq<byte>) {
    MeetsBadTag(bytes) ==> |Unread(bytes)| == 1
  }

  /** Where a scan stops, and whether at an unsupported tag, depends on the bytes alone. */
  lemma {:induction false} ScanStopsAtUnread(ports: seq<PortID>, convert: Conversion, p: Parser)
    requires Open(ports, p)
    ensures var s := Scan(ports, convert, p); s.parser.buf == Unread(p.buf) && (s.bad <==> MeetsBadTag(p.buf))
    decreases |p.buf|
  {
    if p.buf != [] && ReadValue(p.buf).Read? {
      ScanStopsAtUnread(ports, convert, AfterRead(ports, convert, p));
    }
  }

  lemma RestScansToItself(ports: seq<PortID>, convert: Conversion, p: Parser)
    requires Open(ports, p) && AtRest(p)
    ensures Commit(ports, convert, p, []) == p
  {
    assert Extend(p, []) == p;
  }

  lemma {:induction false} CleanStreamsMayBeCut(
    ports: seq<PortID>, convert: Conversion, p: Parser, chunks: seq<seq<byte>>)
    requires Open(ports, p) && AtRest(p) && CleanBeforeItsLastByte(p.buf + Concat(chunks))
    ensures CommitAll(ports, convert, p, chunks) == Commit(ports, convert, p, Concat(chunks))
  {
    if chunks == [] {
      RestScansToItself(ports, convert, p);
    } else {
      var (init, last) := (chunks[..|chunks| - 1], chunks[|chunks| - 1]);
      var first := Concat(init);
      assert p.buf + (first + last) == (p.buf + first) + last;
      ScanContinues(ports, convert, Extend(p, first), last);
      ScanStops(ports, convert, Extend(p, first));
      ScanStopsAtUnread(ports, convert, Extend(p, first));
      ScanStopsAtUnread(ports, convert, Extend(p, first + last));
      CleanStreamsMayBeCut(ports, convert, p, init);
      var s := Scan(ports, convert, Extend(p, first));
      if s.bad {
        assert last == [] && first + last == first;
        RestScansToItself(ports, convert, Commit(ports, convert, p, first));
      }
    }
  }

  /** A value can be read from its own bytes alone. */
  lemma ReadingNeedsOnlyItsBytes(buf: seq<byte>, n: nat)
    requires 0 < n <= |buf|
    requires ReadValue(buf).Read? && ReadValue(buf).size <= n
    ensures ReadValue(buf[..n]) == ReadValue(buf)
  {
    ReadingIsStable(buf[..n], buf[n..]);
    assert buf[..n] + buf[n..] == buf;
    if n >= 3 {
      assert buf[..n][1..3] == buf[1..3];
    }
  }

  lemma TruncatedRead(ports: seq<PortID>, convert: Conversion, p: Parser, n: nat)
    requires Open(ports, p) && p.buf != [] && ReadValue(p.buf).Read? && ReadValue(p.buf).size <= n <= |p.buf|
    ensures 0 < ReadValue(p.buf).size && ReadValue(p.buf[..n]) == ReadValue(p.buf)
    ensures var next := AfterRead(ports, convert, p);
            |next.buf| == |p.buf| - ReadValue(p.buf).size
            && AfterRead(ports, convert, p.(buf := p.buf[..n])) == next.(buf := next.buf[..n - ReadValue(p.buf).size])
  {
    var size := ReadValue(p.buf).size;
    ReadingIsStable(p.buf, []);
    ReadingNeedsOnlyItsBytes(p.buf, n);
    assert p.buf[..n][size..] == p.buf[size..][..n - size];
  }

  /** Bytes behind an unsupported tag play no role for what is parsed before it. */
  lemma {:induction false} TruncateBehindBadTag(ports: seq<PortID>, convert: Conversion, p: Parser, n: nat)
    requires Open(ports, p)
    requires var s := Scan(ports, convert, p); s.bad && |p.buf| - |s.parser.buf| < n <= |p.buf|
    ensures var s := Scan(ports, convert, p);
            var t := Scan(ports, convert, p.(buf := p.buf[..n]));
            t.bad && t.parser.partial == s.parser.partial && t.parser.pushed == s.parser.pushed
            && |t.parser.buf| == n - (|p.buf| - |s.parser.buf|)
    decreases |p.buf|
  {
    ScanStops(ports, convert, p);
    if ReadValue(p.buf).Read? {
      var next, size := AfterRead(ports, convert, p), ReadValue(p.buf).size;
      ValueEndsBeforeBadTag(ports, convert, p);
      TruncatedRead(ports, convert, p, n);
      TruncateBehindBadTag(ports, convert, next, n - size);
    } else {
      BadTagOnly(ports, convert, p);
      assert p.buf[..n][0] == p.buf[0];
      BadTagOnly(ports, convert, p.(buf := p.buf[..n]));
    }
  }

  /** A value in front of the unsupported tag ends before it. */
  lemma ValueEndsBeforeBadTag(ports: seq<PortID>, convert: Conversion, p: Parser)
    requires Open(ports, p) && p.buf != [] && ReadValue(p.buf).Read? && Scan(ports, convert, p).bad
    ensures Open(ports, AfterRead(ports, convert, p))
    ensures Scan(ports, convert, AfterRead(ports, convert, p)) == Scan(ports, convert, p)
    ensures |p.buf| - |Scan(ports, convert, p).parser.buf| >= ReadValue(p.buf).size
  {
    ReadingIsStable(p.buf, []);
    ScanStops(ports, convert, AfterRead(ports, convert, p));
  }

  lemma BadTagOnly(ports: seq<PortID>, convert: Conversion, p: Parser)
    requires Open(ports, p) && p.buf != [] && !ReadValue(p.buf).Read?
    ensures Scan(ports, convert, p) == Scanned(p.(partial := Some(PartialOf(p))), ReadValue(p.buf).BadTag?)
  {
  }

  /** The first byte of an event leaves a mark: an open event or one more pushed. */
  lemma {:induction false} ScanLeavesAMark(ports: seq<PortID>, convert: Conversion, p: Parser, k: nat)
    requires Open(ports, p) && k <= |p.pushed|
    requires p.partial.Some? || |p.pushed| > k || p.buf != []
    ensures var r := Scan(ports, convert, p).parser; r.partial.Some? || |r.pushed| > k
    ensures k <= |Scan(ports, convert, p).parser.pushed|
    decreases |p.buf|
  {
    if p.buf != [] && ReadValue(p.buf).Read? {
      ScanLeavesAMark(ports, convert, AfterRead(ports, convert, p), k);
    }
  }

  /** Everything up to the unsupported tag alone has the same effect as the whole stream. */
  lemma BadTagHidesTheRest(ports: seq<PortID>, convert: Conversion, p: Parser, stream: seq<byte>, cut: nat)
    requires Open(ports, p) && cut <= |stream|
    requires var s := Scan(ports, convert, Extend(p, stream)); s.bad && cut == |stream| - (|s.parser.buf| - 1)
    ensures Commit(ports, convert, p, stream[..cut]) == Commit(ports, convert, p, stream)
    ensures Commit(ports, convert, p, stream).partial.None? && Commit(ports, convert, p, stream).buf == []
  {
    var whole := Extend(p, stream);
    ScanStops(ports, convert, whole);
    assert whole.buf[..|p.buf| + cut] == p.buf + stream[..cut];
    TruncateBehindBadTag(ports, convert, whole, |p.buf| + cut);
  }

  lemma CommitLeavesAMark(ports: seq<PortID>, convert: Conversion, p: Parser, chunk: seq<byte>)
    requires Open(ports, p) && p.partial.None? && p.buf == [] && chunk != []
    ensures Commit(ports, convert, p, chunk) != p
  {
    ScanLeavesAMark(ports, convert, Extend(p, chunk), |p.pushed|);
  }

  /** Behind an unsupported tag the cut matters: in one piece the rest of the chunk is lost,
      in two pieces it starts a new event. */
  lemma DirtyStreamsMustNotBeCut(ports: seq<PortID>, convert: Conversion, p: Parser, stream: seq<byte>)
    returns (chunks: seq<seq<byte>>)
    requires Open(ports, p) && AtRest(p) && !CleanBeforeItsLastByte(p.buf + stream)
    ensures Concat(chunks) == stream
    ensures CommitAll(ports, convert, p, chunks) != Commit(ports, convert, p, stream)
  {
    ScanStops(ports, convert, Extend(p, stream));
    ScanStopsAtUnread(ports, convert, Extend(p, stream));
    BadTagIsInTheStream(ports, convert, p, stream);
    var cut := |stream| - (|Scan(ports, convert, Extend(p, stream)).parser.buf| - 1);
    BadTagHidesTheRest(ports, convert, p, stream, cut);
    chunks := [stream[..cut], stream[cut..]];
    assert stream[..cut] + stream[cut..] == stream;
    ConcatOfTwo(stream[..cut], stream[cut..]);
    CommitAllOfTwo(ports, convert, p, stream[..cut], stream[cut..]);
    CommitLeavesAMark(ports, convert, Commit(ports, convert, p, stream), stream[cut..]);
  }

  lemma ConcatOfTwo(first: seq<byte>, rest: seq<byte>)
    ensures Concat([first, rest]) == first + rest
  {
    assert [first, rest][..1] == [first] && [first][..0] == [];
    assert Concat([first]) == first;
  }

  lemma CommitAllOfTwo(ports: seq<PortID>, convert: Conversion, p: Parser, first: seq<byte>, rest: seq<byte>)
    requires Open(ports, p)
    ensures CommitAll(ports, convert, p, [first, rest])
         == Commit(ports, convert, Commit(ports, convert, p, first), rest)
  {
    assert [first, rest][..1] == [first] && [first][..0] == [];
    assert CommitAll(ports, convert, p, [first]) == Commit(ports, convert, p, first);
  }

  /** The bytes that were buffered before belong to one unfinished value, so an unsupported
      tag can only come later. */
  lemma BadTagIsInTheStream(ports: seq<PortID>, convert: Conversion, p: Parser, stream: seq<byte>)
    requires Open(ports, p) && AtRest(p) && Scan(ports, convert, Extend(p, stream)).bad
    ensures |Scan(ports, convert, Extend(p, stream)).parser.buf| <= |stream|
  {
    var whole := Extend(p, stream);
    if p.buf == [] {
      ScanStops(ports, convert, whole);
    } else {
      ReadingIsStable(p.buf, stream);
      ReadingIsStable(whole.buf, []);
      if ReadValue(whole.buf).Read? {
        assert whole.buf[..|p.buf|] == p.buf;
        if ReadValue(whole.buf).size <= |p.buf| {
          ReadingNeedsOnlyItsBytes(whole.buf, |p.buf|);
          assert false;
        }
        ScanStops(ports, convert, AfterRead(ports, convert, whole));
      }
    }
  }

  /** The events and the state that a stream leads to are the same for every way of cutting
      it into chunks if and only if it meets no unsupported tag before its last byte. */
  lemma ChunkIndependence(ports: seq<PortID>, convert: Conversion, p: Parser, stream: seq<byte>)
    requires Open(ports, p) && AtRest(p)
    ensures CleanBeforeItsLastByte(p.buf + stream)
       <==> forall chunks :: Concat(chunks) == stream ==>
              CommitAll(ports, convert, p, chunks) == Commit(ports, convert, p, stream)
  {
    if CleanBeforeItsLastByte(p.buf + stream) {
      forall chunks | Concat(chunks) == stream
        ensures CommitAll(ports, convert, p, chunks) == Commit(ports, convert, p, stream)
      {
        CleanStreamsMayBeCut(ports, convert, p, chunks);
      }
    } else {
      var chunks := DirtyStreamsMustNotBeCut(ports, convert, p, stream);
    }
  }
}
