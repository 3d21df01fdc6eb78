/** The data that all components of the terminal block exchange: typed ports,
    values, variables and timed events. */
module Fmi {

  datatype Option<+T> = None | Some(value: T)

  type byte = b: int | 0 <= b < 256

  /** Bit patterns of a double and of a float; the arithmetic behind them is not interpreted. */
  type Word64 = w: int | 0 <= w < 0x1_0000_0000_0000_0000
  type Word32 = w: int | 0 <= w < 0x1_0000_0000
  type Int32 = n: int | -0x8000_0000 <= n < 0x8000_0000

  datatype FmiType = FmiReal | FmiInteger | FmiBoolean | FmiString | FmiUnknown

  /** A port is identified by its type and a number that is unique within the type. */
  datatype PortID = PortID(kind: FmiType, nr: int)

  /** fmiBoolean is an integer type in the original: every non-zero flag means true. */
  datatype Value =
    | RealValue(bits: Word64)
    | IntegerValue(number: Int32)
    | BooleanValue(flag: int)
    | StringValue(chars: seq<byte>)

  datatype Variable = Variable(port: PortID, value: Value)

  /** The number stands for the identity of the event object. */
  datatype Event = Event(id: nat, time: real, vars: seq<Variable>)

  function TypeOf(value: Value): FmiType {
    match value
    case RealValue(_) => FmiReal
    case IntegerValue(_) => FmiInteger
    case BooleanValue(_) => FmiBoolean
    case StringValue(_) => FmiString
  }

  predicate IsValid(variable: Variable) {
    TypeOf(variable.value) == variable.port.kind
  }

  /** The event carries at least one variable whose port is among `ports`. */
  predicate Touches(event: Event, ports: set<PortID>) {
    exists i :: 0 <= i < |event.vars| && event.vars[i].port in ports
  }

  /** No port has the unknown type. */
  predicate AreTyped(ports: seq<PortID>) {
    forall i :: 0 <= i < |ports| ==> ports[i].kind != FmiUnknown
  }
}
