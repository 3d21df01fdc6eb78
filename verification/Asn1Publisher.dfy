/** The publisher keeps the last value of each port and sends all of them whenever an event
    touches one. */
module Asn1Publisher {
  import opened Fmi
  import opened Asn1Codec
  import Images

  datatype DataType = REAL | LREAL | DINT | BOOL | STRING

  const DATA_TYPES: seq<DataType> := [REAL, LREAL, DINT, BOOL, STRING]
  const DATA_TYPE_NAMES: seq<string> := ["REAL", "LREAL", "DINT", "BOOL", "STRING"]

  /** Rounds a double to a float. */
  type Narrowing = Word64 -> Word32

  predicate IsCastable(kind: FmiType, dataType: DataType) {
    match kind
    case FmiReal => dataType == REAL || dataType == LREAL
    case FmiInteger => dataType == DINT
    case FmiBoolean => dataType == BOOL
    case FmiString => dataType == STRING
    case FmiUnknown => false
  }

  function DefaultType(kind: FmiType): (dataType: DataType)
    requires kind != FmiUnknown
    ensures IsCastable(kind, dataType)
  {
    match kind
    case FmiReal => LREAL
    case FmiInteger => DINT
    case FmiBoolean => BOOL
    case FmiString => STRING
  }

  function DefaultValue(kind: FmiType): (value: Value)
    requires kind != FmiUnknown
    ensures TypeOf(value) == kind
  {
    match kind
    case FmiReal => RealValue(0)
    case FmiInteger => IntegerValue(0)
    case FmiBoolean => BooleanValue(0)
    case FmiString => StringValue([])
  }

  /** What the wire carries of a value: reals may lose precision, every non-zero flag is
      true, and strings lose all but their length modulo 65536. */
  function WireOf(narrow: Narrowing, dataType: DataType, value: Value): (wire: Wire)
    requires IsCastable(TypeOf(value), dataType)
    ensures wire.Text? ==> |wire.chars| < 0x1_0000
  {
    match value
    case RealValue(bits) => if dataType == REAL then Real(narrow(bits)) else LReal(bits)
    case IntegerValue(n) => DInt(n)
    case BooleanValue(flag) => Bool(flag != 0)
    case StringValue(chars) => Text(chars[..|chars| % 0x1_0000])
  }

  predicate Fits(ports: seq<PortID>, types: seq<DataType>, values: seq<Value>) {
    && |types| == |values| == |ports|
    && forall i :: 0 <= i < |ports| ==> TypeOf(values[i]) == ports[i].kind && IsCastable(ports[i].kind, types[i])
  }

  predicate Castable(types: seq<DataType>, values: seq<Value>) {
    |types| == |values| && forall i :: 0 <= i < |values| ==> IsCastable(TypeOf(values[i]), types[i])
  }

  function EncodeFirst(narrow: Narrowing, types: seq<DataType>, values: seq<Value>, n: nat): seq<byte>
    requires Castable(types, values) && n <= |values|
  {
    if n == 0 then []
    else EncodeFirst(narrow, types, values, n - 1) + Encode(WireOf(narrow, types[n - 1], values[n - 1]))
  }

  function EncodeAll(narrow: Narrowing, types: seq<DataType>, values: seq<Value>): seq<byte>
    requires Castable(types, values)
  {
    EncodeFirst(narrow, types, values, |values|)
  }

  predicate AllValid(vars: seq<Variable>) {
    forall i :: 0 <= i < |vars| ==> IsValid(vars[i])
  }

  datatype TypeError = UnsupportedEncoding | CannotConvert
  datatype Types = Types(types: seq<DataType>) | ConfigurationError(error: TypeError, port: nat)

  function NameOf(dataType: DataType): string {
    match dataType
    case REAL => "REAL"
    case LREAL => "LREAL"
    case DINT => "DINT"
    case BOOL => "BOOL"
    case STRING => "STRING"
  }

  /** The encoding is the name of the data type. */
  predicate Names(encoding: string, dataType: DataType) {
    exists j :: 0 <= j < |DATA_TYPES| && DATA_TYPES[j] == dataType && DATA_TYPE_NAMES[j] == encoding
  }

  /** No name stands for two data types. */
  lemma NamesAreUnique(encoding: string, a: DataType, b: DataType)
    requires Names(encoding, a) && Names(encoding, b)
    ensures a == b
  {
    assert DATA_TYPE_NAMES[0][0] == 'R' && DATA_TYPE_NAMES[1][0] == 'L' && DATA_TYPE_NAMES[2][0] == 'D';
    assert DATA_TYPE_NAMES[3][0] == 'B' && DATA_TYPE_NAMES[4][0] == 'S';
    var i :| 0 <= i < |DATA_TYPES| && DATA_TYPES[i] == a && DATA_TYPE_NAMES[i] == encoding;
    var j :| 0 <= j < |DATA_TYPES| && DATA_TYPES[j] == b && DATA_TYPE_NAMES[j] == encoding;
    assert i == j;
  }

  predicate Configures(port: PortID, encoding: Option<string>, dataType: DataType)
    requires port.kind != FmiUnknown
  {
    if encoding.None? then dataType == DefaultType(port.kind) else Names(encoding.value, dataType)
  }

  predicate IsTyped(port: PortID, encoding: Option<string>, dataType: DataType)
    requires port.kind != FmiUnknown
  {
    Configures(port, encoding, dataType) && IsCastable(port.kind, dataType)
  }

  predicate CanBeTyped(port: PortID, encoding: Option<string>)
    requires port.kind != FmiUnknown
  {
    exists dataType :: IsTyped(port, encoding, dataType)
  }

  /** Each port gets its configured type or its default. The first port whose configuration
      is unknown or does not fit its type is an error. */
  method InitOutputTypes(ports: seq<PortID>, encodings: seq<Option<string>>) returns (r: Types)
    requires |encodings| == |ports| && AreTyped(ports)
    ensures r.Types? ==> |r.types| == |ports|
    ensures r.Types? ==>
              forall i :: 0 <= i < |ports| ==> IsTyped(ports[i], encodings[i], r.types[i])
    ensures r.Types? ==>
              forall i :: 0 <= i < |ports| ==>
                match encodings[i]
                case Some(name) => name == NameOf(r.types[i])
                case None => r.types[i] == match ports[i].kind
                  case FmiReal => LREAL
                  case FmiInteger => DINT
                  case FmiBoolean => BOOL
                  case FmiString => STRING
    ensures r.ConfigurationError? ==>
              && r.port < |ports| && encodings[r.port].Some? && !CanBeTyped(ports[r.port], encodings[r.port])
              && (forall i :: 0 <= i < r.port ==> CanBeTyped(ports[i], encodings[i]))
              && (r.error.UnsupportedEncoding? <==> forall t :: !Names(encodings[r.port].value, t))
  {
    var types := [];
    var i := 0;
    while i < |ports|
      invariant 0 <= i <= |ports| && |types| == i
      invariant forall k :: 0 <= k < i ==> IsTyped(ports[k], encodings[k], types[k])
      invariant forall k :: 0 <= k < i ==> CanBeTyped(ports[k], encodings[k])
    {
      var dataType := DefaultType(ports[i].kind);
      if encodings[i].Some? {
        var found := false;
        var j := 0;
        while j < |DATA_TYPE_NAMES| && !found
          invariant 0 <= j <= |DATA_TYPES| == |DATA_TYPE_NAMES|
          invariant found ==> Names(encodings[i].value, dataType)
          invariant !found ==> forall k :: 0 <= k < j ==> DATA_TYPE_NAMES[k] != encodings[i].value
        {
          if encodings[i].value == DATA_TYPE_NAMES[j] {
            dataType, found := DATA_TYPES[j], true;
          }
          j := j + 1;
        }
        if !found {
          assert forall t :: !Names(encodings[i].value, t);
          return ConfigurationError(UnsupportedEncoding, i);
        }
        if !IsCastable(ports[i].kind, dataType) {
          forall t | Names(encodings[i].value, t)
            ensures t == dataType
          {
            NamesAreUnique(encodings[i].value, t, dataType);
          }
          return ConfigurationError(CannotConvert, i);
        }
      }
      assert IsTyped(ports[i], encodings[i], dataType);
      types := types + [dataType];
      i := i + 1;
    }
    r := Types(types);
  }

  function Defaults(ports: seq<PortID>): (values: seq<Value>)
    requires AreTyped(ports)
    ensures |values| == |ports|
    ensures forall i :: 0 <= i < |ports| ==> TypeOf(values[i]) == ports[i].kind
  {
    seq(|ports|, i requires 0 <= i < |ports| => DefaultValue(ports[i].kind))
  }

  /** Valid events keep the values type-correct. */
  lemma UpdatedFits(ports: seq<PortID>, types: seq<DataType>, values: seq<Value>, vars: seq<Variable>)
    requires Fits(ports, types, values) && AllValid(vars)
    ensures Fits(ports, types, Images.Updated(ports, values, vars))
  {
    forall i | 0 <= i < |ports|
      ensures TypeOf(Images.LastAssigned(vars, ports[i], values[i])) == ports[i].kind
    {
      Images.LastAssignedIsAssigned(vars, ports[i], values[i]);
    }
  }

  class Publisher {
    const ports: seq<PortID>
    const types: seq<DataType>
    const narrow: Narrowing
    var values: seq<Value>

    constructor (ports: seq<PortID>, types: seq<DataType>, narrow: Narrowing)
      requires AreTyped(ports) && Fits(ports, types, Defaults(ports))
      ensures this.ports == ports && this.types == types && this.narrow == narrow
      ensures Valid() && values == Defaults(ports)
      ensures forall i :: 0 <= i < |ports| ==>
                values[i] == match ports[i].kind
                  case FmiReal => RealValue(0)
                  case FmiInteger => IntegerValue(0)
                  case FmiBoolean => BooleanValue(0)
                  case FmiString => StringValue([])
    {
      this.ports, this.types, this.narrow := ports, types, narrow;
      values := Defaults(ports);
    }

    predicate Valid()
      reads this
    {
      Fits(ports, types, values)
    }

    /** The message to send, if the event concerns this channel. */
    method EventTriggered(ev: Event) returns (message: Option<seq<byte>>)
      requires Valid() && AllValid(ev.vars)
      modifies this
      ensures Valid() && values == Images.Updated(ports, old(values), ev.vars)
      ensures message == if Images.Mentions(ev.vars, ports) then Some(EncodeAll(narrow, types, values)) else None
      ensures message.Some? <==>
              exists i, j :: 0 <= i < |ev.vars| && 0 <= j < |ports| && ev.vars[i].port == ports[j]
      ensures forall i, j :: 0 <= j < |ports| && Images.IsLastOf(ev.vars, ports[j], i) ==> values[j] == ev.vars[i].value
      ensures forall j :: 0 <= j < |ports| && Images.IsAbsent(ev.vars, ports[j]) ==> values[j] == old(values)[j]
    {
      UpdatedFits(ports, types, values, ev.vars);
      var updated;
      values, updated := Images.Update(ports, values, ev.vars);
      if updated {
        var buffer := EncodeOutputVariables();
        message := Some(buffer);
      } else {
        message := None;
      }
    }

    method EncodeOutputVariables() returns (buffer: seq<byte>)
      requires Valid()
      ensures buffer == EncodeAll(narrow, types, values)
    {
      buffer := [];
      var i := 0;
      while i < |values|
        invariant 0 <= i <= |values|
        invariant buffer == EncodeFirst(narrow, types, values, i)
      {
        buffer := EncodeValue(narrow, buffer, types[i], values[i]);
        i := i + 1;
      }
    }
  }

  method EncodeValue(narrow: Narrowing, buffer: seq<byte>, dataType: DataType, value: Value) returns (r: seq<byte>)
    requires IsCastable(TypeOf(value), dataType)
    ensures r == buffer + Encode(WireOf(narrow, dataType, value))
  {
    match value {
      case RealValue(bits) =>
        if dataType == REAL {
          r := EncodeNumber(buffer, REAL_TAG, narrow(bits), 4);
        } else {
          r := EncodeNumber(buffer, LREAL_TAG, bits, 8);
        }
      case IntegerValue(n) =>
        r := EncodeNumber(buffer, DINT_TAG, n, 4);
      case BooleanValue(flag) =>
        r := buffer + [if flag != 0 then BOOL1_TAG else BOOL0_TAG];
      case StringValue(chars) =>
        r := EncodeString(buffer, chars);
    }
  }

  /** The arithmetic shift to the right by a number of bytes. */
  function Shift(value: int, n: nat): int {
    if n == 0 then value else Shift(value, n - 1) / 256
  }

  /** Shifts the bytes out, most significant first. */
  method EncodeNumber(buffer: seq<byte>, tag: byte, value: int, size: nat) returns (r: seq<byte>)
    ensures r == buffer + ([tag] + BigEndian(value, size))
  {
    r := buffer + [tag];
    ghost var bytes := [];
    var i := size;
    while i > 0
      invariant 0 <= i <= size
      invariant bytes == BigEndian(Shift(value, i), size - i) && r == buffer + [tag] + bytes
    {
      i := i - 1;
      bytes := bytes + [Shift(value, i) % 256];
      r := r + [Shift(value, i) % 256];
    }
  }

  method EncodeString(buffer: seq<byte>, chars: seq<byte>) returns (r: seq<byte>)
    ensures r == buffer + Encode(Text(chars[..|chars| % 0x1_0000]))
  {
    var size := |chars| % 0x1_0000;
    TwoBytes(size);
    ghost var head := [STRING_TAG] + BigEndian(size, 2);
    r := buffer + [STRING_TAG, size / 256 % 256, size % 256];
    var i := 0;
    while i < size
      invariant 0 <= i <= size
      invariant r == buffer + (head + chars[..i])
    {
      assert chars[..i + 1] == chars[..i] + [chars[i]];
      r := r + [chars[i]];
      i := i + 1;
    }
    assert |chars[..size]| == size;
  }
}
