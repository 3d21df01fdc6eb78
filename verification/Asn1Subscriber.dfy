/** The incremental parser of the subscriber: bytes arrive in chunks, values are collected in
    a partial event, and a complete event is pushed. */
module Asn1Subscriber {
  import opened Fmi
  import opened Asn1Codec

  /** Conversion of a received value to the type of the port, which may fail. */
  type Conversion = (FmiType, Wire) -> Option<Value>

  ghost predicate ProducesPortTypes(convert: Conversion) {
    forall kind, wire :: convert(kind, wire).Some? ==> TypeOf(convert(kind, wire).value) == kind
  }

  /** The next port to fill and the variables so far. */
  datatype Partial = Partial(next: nat, vars: seq<Variable>)

  datatype Parser = Parser(partial: Option<Partial>, buf: seq<byte>, pushed: seq<seq<Variable>>)

  function PartialOf(p: Parser): Partial {
    if p.partial.Some? then p.partial.value else Partial(0, [])
  }

  /** A failed conversion skips the port. */
  function Fill(ports: seq<PortID>, convert: Conversion, e: Partial, wire: Wire): Partial
    requires e.next < |ports|
  {
    var value := convert(ports[e.next].kind, wire);
    Partial(e.next + 1, if value.Some? then e.vars + [Variable(ports[e.next], value.value)] else e.vars)
  }

  /** An event without remaining ports is pushed. */
  function PushIfComplete(ports: seq<PortID>, p: Parser): Parser {
    if p.partial.Some? && p.partial.value.next >= |ports|
    then Parser(None, p.buf, p.pushed + [p.partial.value.vars])
    else p
  }

  /** The parser is between two values. */
  predicate Open(ports: seq<PortID>, p: Parser) {
    PartialOf(p).next < |ports|
  }

  datatype Scanned = Scanned(parser: Parser, bad: bool)

  /** Consumes value after value, up to an unfinished value or an unsupported tag. */
  function Scan(ports: seq<PortID>, convert: Conversion, p: Parser): (r: Scanned)
    requires Open(ports, p)
    ensures Open(ports, r.parser)
    decreases |p.buf|
  {
    if p.buf == [] then Scanned(p, false)
    else
      var e := PartialOf(p);
      match ReadValue(p.buf)
      case BadTag => Scanned(p.(partial := Some(e)), true)
      case NeedMore(_) => Scanned(p.(partial := Some(e)), false)
      case Read(wire, size) =>
        Scan(ports, convert,
             PushIfComplete(ports, Parser(Some(Fill(ports, convert, e, wire)), p.buf[size..], p.pushed)))
  }

  /** An unsupported tag pushes what is there and drops everything that is buffered. */
  function Commit(ports: seq<PortID>, convert: Conversion, p: Parser, chunk: seq<byte>): (r: Parser)
    requires Open(ports, p)
    ensures Open(ports, r)
  {
    var s := Scan(ports, convert, p.(buf := p.buf + chunk));
    if s.bad then Parser(None, [], s.parser.pushed + [PartialOf(s.parser).vars]) else s.parser
  }

  function Timeout(p: Parser): Parser {
    if p.partial.Some? then Parser(None, [], p.pushed + [p.partial.value.vars]) else p
  }

  // ----- the objects

  /** A channel without ports is a configuration error; otherwise an endless loop would wait
      for the first byte. */
  method Init(ports: seq<PortID>, convert: Conversion) returns (r: Subscriber?)
    requires AreTyped(ports)
    ensures r == null <==> ports == []
    ensures r != null ==> fresh(r) && r.Valid() && r.ports == ports && r.convert == convert
                          && r.View() == Parser(None, [], [])
  {
    if |ports| <= 0 {
      r := null;
    } else {
      r := new Subscriber(ports, convert);
    }
  }

  class PartialEvent {
    const portTemplate: seq<PortID>
    var vars: seq<Variable>
    var nextTemplateIndex: nat

    constructor (portTemplate: seq<PortID>)
      ensures this.portTemplate == portTemplate && View() == Partial(0, [])
    {
      this.portTemplate := portTemplate;
      vars, nextTemplateIndex := [], 0;
    }

    function View(): Partial
      reads this
    {
      Partial(nextTemplateIndex, vars)
    }

    predicate HasRemainingElements()
      reads this
    {
      nextTemplateIndex < |portTemplate|
    }

    function GetNextPortType(): FmiType
      requires HasRemainingElements()
      reads this
    {
      portTemplate[nextTemplateIndex].kind
    }

    method PushNextValue(value: Value)
      requires HasRemainingElements()
      modifies this
      ensures View() == Partial(old(nextTemplateIndex) + 1,
                                old(vars) + [Variable(portTemplate[old(nextTemplateIndex)], value)])
    {
      vars := vars + [Variable(portTemplate[nextTemplateIndex], value)];
      nextTemplateIndex := nextTemplateIndex + 1;
    }

    method IgnoreNextValue()
      requires HasRemainingElements()
      modifies this
      ensures View() == Partial(old(nextTemplateIndex) + 1, old(vars))
    {
      nextTemplateIndex := nextTemplateIndex + 1;
    }
  }

  lemma TwoBytesBack(bytes: seq<byte>)
    requires |bytes| == 2
    ensures FromBigEndian(bytes) == bytes[0] as int * 256 + bytes[1] as int
  {
    assert FromBigEndian(bytes[..1]) == FromBigEndian(bytes[..1][..0]) * 256 + bytes[0] as int;
  }

  datatype Status = Ok | InvalidBufferContent | Incomplete(missing: nat) | TypeConversionError

  class Subscriber {
    const ports: seq<PortID>
    const convert: Conversion
    var remainingRawData: seq<byte>
    var partialData: PartialEvent?
    /** The variables of the events that were handed to the event sink. */
    var pushed: seq<seq<Variable>>

    constructor (ports: seq<PortID>, convert: Conversion)
      requires ports != [] && AreTyped(ports)
      ensures this.ports == ports && this.convert == convert
      ensures Valid() && View() == Parser(None, [], [])
    {
      this.ports, this.convert := ports, convert;
      remainingRawData, partialData, pushed := [], null, [];
    }

    predicate Consistent()
      reads this
    {
      ports != [] && AreTyped(ports) && (partialData != null ==> partialData.portTemplate == ports)
    }

    /** Between two calls an open event has ports left. */
    predicate Valid()
      reads this, partialData
    {
      Consistent() && (partialData != null ==> partialData.HasRemainingElements())
    }

    function View(): Parser
      reads this, partialData
    {
      Parser(if partialData == null then None else Some(partialData.View()), remainingRawData, pushed)
    }

    method PushPartialEvent()
      requires partialData != null
      modifies this`partialData, this`pushed
      ensures partialData == null && pushed == old(pushed) + [old(partialData.vars)]
    {
      pushed := pushed + [partialData.vars];
      partialData := null;
    }

    method ClearUnprocessedData()
      modifies this`remainingRawData
      ensures remainingRawData == []
    {
      remainingRawData := [];
    }

    method HandlePacketTimeout()
      requires Valid()
      modifies this
      ensures Valid() && View() == Timeout(old(View()))
      ensures partialData == null
      ensures pushed == old(pushed) + (if old(partialData) != null then [old(partialData.vars)] else [])
      ensures remainingRawData == if old(partialData) != null then [] else old(remainingRawData)
    {
      if partialData != null {
        PushPartialEvent();
        ClearUnprocessedData();
      }
    }

    method Consume(n: nat)
      requires n <= |remainingRawData|
      modifies this`remainingRawData
      ensures remainingRawData == old(remainingRawData)[n..]
    {
      remainingRawData := remainingRawData[n..];
    }

    /** The bit pattern of a real number with the given number of bytes behind the tag. */
    method ReadXREALVariable(size: nat) returns (status: Status, bits: nat)
      modifies this`remainingRawData
      ensures if |old(remainingRawData)| < size + 1
              then status == Incomplete(size + 1 - |old(remainingRawData)|) && remainingRawData == old(remainingRawData)
              else status == Ok && bits == FromBigEndian(old(remainingRawData)[1..size + 1])
                   && remainingRawData == old(remainingRawData)[size + 1..]
    {
      bits := 0;
      if |remainingRawData| < size + 1 {
        status := Incomplete(size + 1 - |remainingRawData|);
      } else {
        Consume(1);
        assert remainingRawData[..size] == old(remainingRawData)[1..size + 1];
        bits := FromBigEndian(remainingRawData[..size]);
        Consume(size);
        status := Ok;
      }
    }

    method ReadXINTVariable() returns (status: Status, number: Int32)
      modifies this`remainingRawData
      ensures if |old(remainingRawData)| < 5
              then status == Incomplete(5 - |old(remainingRawData)|) && remainingRawData == old(remainingRawData)
              else status == Ok && number == SignedFromBigEndian(old(remainingRawData)[1..5])
                   && remainingRawData == old(remainingRawData)[5..]
    {
      number := 0;
      if |remainingRawData| < 5 {
        status := Incomplete(5 - |remainingRawData|);
      } else {
        Consume(1);
        assert remainingRawData[..4] == old(remainingRawData)[1..5];
        number := SignedFromBigEndian(remainingRawData[..4]);
        Consume(4);
        status := Ok;
      }
    }

    /** Tag and length are consumed together with the characters. */
    method ReadSTRINGVariable() returns (status: Status, chars: seq<byte>)
      requires remainingRawData != [] && remainingRawData[0] == STRING_TAG
      modifies this`remainingRawData
      ensures match ReadText(old(remainingRawData))
              case NeedMore(missing) => status == Incomplete(missing) && remainingRawData == old(remainingRawData)
              case Read(wire, size) =>
                status == Ok && wire == Text(chars) && remainingRawData == old(remainingRawData)[size..]
              case BadTag => false
    {
      chars := [];
      if |remainingRawData| < 3 {
        status := Incomplete(3 - |remainingRawData|);
        return;
      }
      var length := remainingRawData[1] as int * 256 + remainingRawData[2] as int;
      TwoBytesBack(remainingRawData[1..3]);
      if |remainingRawData| < 3 + length {
        status := Incomplete(3 + length - |remainingRawData|);
        return;
      }
      chars := remainingRawData[3..3 + length];
      Consume(3 + length);
      status := Ok;
    }

    method ReadBOOLVariable()
      requires remainingRawData != []
      modifies this`remainingRawData
      ensures remainingRawData == old(remainingRawData)[1..]
    {
      Consume(1);
    }

    /** Reads what the tag announces, consumes it, and converts it to the given type. */
    method ReadNextVariable(kind: FmiType) returns (status: Status, value: Option<Value>)
      requires remainingRawData != []
      modifies this`remainingRawData
      ensures var r := ReadValue(old(remainingRawData));
              match r
              case BadTag => status == InvalidBufferContent && remainingRawData == old(remainingRawData)
              case NeedMore(missing) => status == Incomplete(missing) && remainingRawData == old(remainingRawData)
              case Read(wire, size) =>
                && size <= |old(remainingRawData)| && remainingRawData == old(remainingRawData)[size..]
                && value == convert(kind, wire)
                && status == if value.Some? then Ok else TypeConversionError
    {
      Powers();
      value := None;
      var (tag, wire) := (remainingRawData[0], Bool(false));
      if tag == LREAL_TAG {
        var bits;
        status, bits := ReadXREALVariable(8);
        if status.Ok? {
          FromBigEndianBound(old(remainingRawData)[1..9]);
          wire := LReal(bits);
        }
      } else if tag == REAL_TAG {
        var bits;
        status, bits := ReadXREALVariable(4);
        if status.Ok? {
          FromBigEndianBound(old(remainingRawData)[1..5]);
          wire := Real(bits);
        }
      } else if tag == STRING_TAG {
        var chars;
        status, chars := ReadSTRINGVariable();
        wire := Text(chars);
      } else if tag == BOOL0_TAG {
        ReadBOOLVariable();
        status, wire := Ok, Bool(false);
      } else if tag == BOOL1_TAG {
        ReadBOOLVariable();
        status, wire := Ok, Bool(true);
      } else if tag == DINT_TAG {
        var number;
        status, number := ReadXINTVariable();
        wire := DInt(number);
      } else {
        status := InvalidBufferContent;
      }
      if status.Ok? {
        value := convert(kind, wire);
        if value.None? {
          status := TypeConversionError;
        }
      }
    }

    /** Reads one value into the open event. */
    method ProcessNextValue() returns (status: Status)
      requires Valid() && partialData != null && remainingRawData != []
      modifies this`remainingRawData, partialData
      ensures Consistent() && partialData == old(partialData) && pushed == old(pushed)
      ensures match status
              case InvalidBufferContent =>
                View() == old(View()) && Scan(ports, convert, View()) == Scanned(View(), true)
              case Incomplete(_) =>
                View() == old(View()) && Scan(ports, convert, View()) == Scanned(View(), false)
              case _ =>
                && |remainingRawData| < |old(remainingRawData)|
                && Scan(ports, convert, old(View())) == Scan(ports, convert, PushIfComplete(ports, View()))
    {
      ReadingIsStable(remainingRawData, []);
      var value;
      status, value := ReadNextVariable(partialData.GetNextPortType());
      if status.Ok? {
        partialData.PushNextValue(value.value);
      } else if status.TypeConversionError? {
        partialData.IgnoreNextValue();
      }
    }

    /** Fills the open event until it is complete, the buffer is empty, or the rest of the
        buffer cannot be read. */
    method ProcessRawDataToEvent() returns (status: Status)
      requires Valid() && partialData != null && remainingRawData != []
      modifies this`remainingRawData, partialData
      ensures Consistent() && partialData == old(partialData) && pushed == old(pushed)
      ensures status.Ok? || status.TypeConversionError? ==> |remainingRawData| < |old(remainingRawData)|
      ensures match status
              case InvalidBufferContent => Valid() && Scan(ports, convert, old(View())) == Scanned(View(), true)
              case Incomplete(_) => Valid() && Scan(ports, convert, old(View())) == Scanned(View(), false)
              case _ =>
                && (remainingRawData == [] || !partialData.HasRemainingElements())
                && Scan(ports, convert, old(View())) == Scan(ports, convert, PushIfComplete(ports, View()))
    {
      status := Ok;
      ghost var started := false;
      while remainingRawData != [] && partialData.HasRemainingElements() && (status.Ok? || status.TypeConversionError?)
        invariant Consistent() && partialData == old(partialData) && pushed == old(pushed)
        invariant if started
                  then |remainingRawData| < |old(remainingRawData)| || status.InvalidBufferContent? || status.Incomplete?
                  else View() == old(View()) && status.Ok?
        invariant Scan(ports, convert, old(View())) == Scan(ports, convert, PushIfComplete(ports, View()))
        invariant status.InvalidBufferContent? ==> Valid() && Scan(ports, convert, View()) == Scanned(View(), true)
        invariant status.Incomplete? ==> Valid() && Scan(ports, convert, View()) == Scanned(View(), false)
        decreases |remainingRawData|, if status.Ok? || status.TypeConversionError? then 1 else 0
      {
        status := ProcessNextValue();
        started := true;
      }
    }

    /** The chunk has the effect that the parser prescribes; in particular the loop ends. */
    method CommitData(chunk: seq<byte>)
      requires Valid()
      modifies this, partialData
      ensures Valid() && View() == Commit(ports, convert, old(View()), chunk)
      ensures partialData != null ==> partialData == old(partialData) || fresh(partialData)
    {
      remainingRawData := remainingRawData + chunk;
      ghost var start := View();
      ghost var done := false;
      while remainingRawData != []
        invariant Valid() && (partialData != null ==> partialData == old(partialData) || fresh(partialData))
        invariant done ==> remainingRawData == []
        invariant !done ==> Scan(ports, convert, start) == Scan(ports, convert, View())
        invariant done ==> View() == Commit(ports, convert, old(View()), chunk)
        decreases |remainingRawData|
      {
        ghost var before := View();
        if partialData == null {
          partialData := new PartialEvent(ports);
        }
        assert Scan(ports, convert, before) == Scan(ports, convert, View());
        var status := ProcessRawDataToEvent();
        if status.InvalidBufferContent? {
          PushPartialEvent();
          ClearUnprocessedData();
          done := true;
        } else if status.Incomplete? {
          break;
        }
        if partialData != null && !partialData.HasRemainingElements() {
          PushPartialEvent();
        }
      }
    }
  }
}
