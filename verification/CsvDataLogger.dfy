/** Writes events to a CSV data file. The texts of numbers are opaque tokens. */
module CsvDataLogger {
  import opened Fmi
  import opened CsvText

  datatype Cell = Number(token: string) | Text(chars: string)

  datatype LoggedVariable = LoggedVariable(port: PortID, cell: Cell)

  datatype LoggedEvent = LoggedEvent(time: string, vars: seq<LoggedVariable>)

  const UNKNOWN_TYPE: string := "unknown-type"

  function TypeName(kind: FmiType): string {
    match kind
    case FmiReal => "fmiReal"
    case FmiInteger => "fmiInteger"
    case FmiBoolean => "fmiBoolean"
    case FmiString => "fmiString"
    case FmiUnknown => "fmiUnknown"
  }

  /** The first variable of the port. */
  function Find(vars: seq<LoggedVariable>, port: PortID): Option<Cell> {
    if vars == [] then None
    else if vars[0].port == port then Some(vars[0].cell)
    else Find(vars[1..], port)
  }

  predicate IsFirstOf(vars: seq<LoggedVariable>, port: PortID, i: int) {
    0 <= i < |vars| && vars[i].port == port && forall j :: 0 <= j < i ==> vars[j].port != port
  }

  /** Nothing is written for an absent variable, which differs from an empty string. */
  function FieldOf(port: PortID, cell: Option<Cell>): string {
    match cell
    case None => ""
    case Some(value) =>
      if port.kind == FmiUnknown then Escape(UNKNOWN_TYPE)
      else match value
        case Number(token) => token
        case Text(chars) => Escape(chars)
  }

  function Fields(ports: seq<PortID>, ev: LoggedEvent): (fields: seq<string>)
    ensures |fields| == |ports|
  {
    seq(|ports|, i requires 0 <= i < |ports| => FieldOf(ports[i], Find(ev.vars, ports[i])))
  }

  function Names(names: seq<string>): (fields: seq<string>)
    ensures |fields| == |names|
  {
    seq(|names|, i requires 0 <= i < |names| => Escape(names[i]))
  }

  function TypeNames(ports: seq<PortID>): (fields: seq<string>)
    ensures |fields| == |ports|
  {
    seq(|ports|, i requires 0 <= i < |ports| => Escape(TypeName(ports[i].kind)))
  }

  /** The separator behind the first column is always there. */
  function Row(first: string, fields: seq<string>): string {
    first + [SEPARATOR] + Join(fields)
  }

  function HeaderLines(names: seq<string>, ports: seq<PortID>): seq<string> {
    [Row("\"time\"", Names(names)), Row(Escape("fmiReal"), TypeNames(ports))]
  }

  function EventLines(ports: seq<PortID>, events: seq<LoggedEvent>): (lines: seq<string>)
    ensures |lines| == |events|
  {
    seq(|events|, i requires 0 <= i < |events| => Row(events[i].time, Fields(ports, events[i])))
  }

  function Terminated(lines: seq<string>): string {
    if lines == [] then "" else Terminated(lines[..|lines| - 1]) + lines[|lines| - 1] + "\n"
  }

  /** Everything that is written before element i of a list with separators in between. */
  function Written(fields: seq<string>, i: nat): string
    requires i <= |fields|
  {
    if i == 0 then "" else Join(fields[..i]) + (if i < |fields| then [SEPARATOR] else "")
  }

  /** The columns of a line with the separators in between; without variables, there is one
      separator behind the time. */
  lemma RowHasSemicolons(first: string, fields: seq<string>, last: string)
    ensures Row(first, []) == first + ";" && Row(first, [last]) == first + ";" + last
    ensures fields != [] ==> Row(first, fields + [last]) == Row(first, fields) + ";" + last
  {
    assert (fields + [last])[..|fields|] == fields;
    Associate(first + ";", Join(fields), ";");
    Associate(first + ";", Join(fields) + ";", last);
  }

  lemma AppendStep(start: string, fields: seq<string>, i: nat)
    requires i < |fields|
    ensures start + Written(fields, i + 1)
         == start + Written(fields, i) + fields[i] + (if i + 1 < |fields| then [SEPARATOR] else "")
  {
    assert fields[..i + 1][..i] == fields[..i];
    Associate(start, Written(fields, i), fields[i]);
    Associate(start, Written(fields, i) + fields[i], if i + 1 < |fields| then [SEPARATOR] else "");
  }

  lemma Associate<T>(a: seq<T>, b: seq<T>, c: seq<T>)
    ensures a + (b + c) == a + b + c
  {
  }

  lemma TwoLines(first: string, second: string)
    ensures Terminated([first, second]) == first + "\n" + (second + "\n")
  {
    assert [first, second][..1] == [first] && [first][..0] == [];
    assert Terminated([first]) == first + "\n";
    Associate(first + "\n", second, "\n");
  }

  class Logger {
    const header: seq<PortID>
    var stream: string

    constructor (names: seq<string>, ports: seq<PortID>)
      requires |names| == |ports|
      ensures header == ports && stream == Terminated(HeaderLines(names, ports))
    {
      header := ports;
      stream := "";
      new;
      AppendHeader(names);
    }

    method AppendHeader(names: seq<string>)
      requires stream == ""
      modifies this
      ensures stream == Terminated(HeaderLines(names, header))
    {
      ghost var (first, second) := (Row("\"time\"", Names(names)), Row(Escape("fmiReal"), TypeNames(header)));
      stream := stream + "\"time\"" + [SEPARATOR];
      AppendNames(names);
      stream := stream + "\n";
      assert stream == first + "\n";
      AppendTypeLine();
      TwoLines(first, second);
    }

    method AppendTypeLine()
      modifies this
      ensures stream == old(stream) + (Row(Escape("fmiReal"), TypeNames(header)) + "\n")
    {
      AppendString("fmiReal");
      stream := stream + [SEPARATOR];
      AppendTypes();
      stream := stream + "\n";
      ghost var (start, first, rest) := (old(stream), Escape("fmiReal"), Join(TypeNames(header)));
      Associate(start, first, [SEPARATOR]);
      Associate(start, first + [SEPARATOR], rest);
      Associate(start, first + [SEPARATOR] + rest, "\n");
    }

    method AppendNames(names: seq<string>)
      modifies this
      ensures stream == old(stream) + Join(Names(names))
    {
      var i := 0;
      while i < |names|
        invariant 0 <= i <= |names|
        invariant stream == old(stream) + Written(Names(names), i)
      {
        AppendStep(old(stream), Names(names), i);
        AppendString(names[i]);
        if i + 1 < |names| {
          stream := stream + [SEPARATOR];
        }
        i := i + 1;
      }
      assert Names(names)[..i] == Names(names);
    }

    method AppendTypes()
      modifies this
      ensures stream == old(stream) + Join(TypeNames(header))
    {
      var i := 0;
      while i < |header|
        invariant 0 <= i <= |header|
        invariant stream == old(stream) + Written(TypeNames(header), i)
      {
        AppendStep(old(stream), TypeNames(header), i);
        AppendString(TypeName(header[i].kind));
        assert stream == old(stream) + Written(TypeNames(header), i) + TypeNames(header)[i];
        if i + 1 < |header| {
          stream := stream + [SEPARATOR];
        }
        i := i + 1;
      }
      assert TypeNames(header)[..i] == TypeNames(header);
    }

    method AppendString(value: string)
      modifies this
      ensures stream == old(stream) + Escape(value)
    {
      stream := stream + [QUOTE];
      var i := 0;
      while i < |value|
        invariant 0 <= i <= |value|
        invariant stream + Double(value[i..]) == old(stream) + [QUOTE] + Double(value)
      {
        assert value[i..][1..] == value[i + 1..];
        if value[i] == QUOTE {
          stream := stream + [QUOTE] + [QUOTE];
        } else {
          stream := stream + [value[i]];
        }
        i := i + 1;
      }
      assert stream + "" == stream;
      stream := stream + [QUOTE];
    }

    method FindVariable(id: PortID, vars: seq<LoggedVariable>) returns (cell: Option<Cell>)
      ensures cell == Find(vars, id)
      ensures match cell
              case Some(value) => exists i :: IsFirstOf(vars, id, i) && vars[i].cell == value
              case None => forall i :: 0 <= i < |vars| ==> vars[i].port != id
    {
      var i := 0;
      while i < |vars|
        invariant 0 <= i <= |vars|
        invariant Find(vars, id) == Find(vars[i..], id)
        invariant forall j :: 0 <= j < i ==> vars[j].port != id
      {
        if vars[i].port == id {
          assert IsFirstOf(vars, id, i);
          return Some(vars[i].cell);
        }
        assert vars[i..][1..] == vars[i + 1..];
        i := i + 1;
      }
      cell := None;
    }

    method AppendVariable(port: PortID, cell: Option<Cell>)
      modifies this
      ensures stream == old(stream) + FieldOf(port, cell)
    {
      match cell {
        case None =>
          assert stream + "" == stream;
        case Some(value) =>
          if port.kind == FmiUnknown {
            AppendString(UNKNOWN_TYPE);
          } else {
            match value {
              case Number(token) => stream := stream + token;
              case Text(chars) => AppendString(chars);
            }
          }
      }
    }

    method EventTriggered(ev: LoggedEvent)
      modifies this
      ensures stream == old(stream) + Row(ev.time, Fields(header, ev)) + "\n"
    {
      stream := stream + ev.time + [SEPARATOR];
      ghost var start := stream;
      ghost var fields := Fields(header, ev);
      var i := 0;
      while i < |header|
        invariant 0 <= i <= |header|
        invariant stream == start + Written(fields, i)
      {
        AppendStep(start, fields, i);
        var cell := FindVariable(header[i], ev.vars);
        AppendVariable(header[i], cell);
        if i + 1 < |header| {
          stream := stream + [SEPARATOR];
        }
        i := i + 1;
      }
      assert fields[..i] == fields;
      stream := stream + "\n";
    }
  }

  /** The file that a logger writes for a history of events. */
  function LogLines(names: seq<string>, ports: seq<PortID>, events: seq<LoggedEvent>): seq<string> {
    HeaderLines(names, ports) + EventLines(ports, events)
  }

  lemma LogLinesOneMore(names: seq<string>, ports: seq<PortID>, events: seq<LoggedEvent>, i: nat)
    requires i < |events|
    ensures Terminated(LogLines(names, ports, events[..i + 1]))
         == Terminated(LogLines(names, ports, events[..i])) + Row(events[i].time, Fields(ports, events[i])) + "\n"
  {
    var line := Row(events[i].time, Fields(ports, events[i]));
    EventLinesOneMore(ports, events[..i + 1], i);
    assert events[..i + 1][..i] == events[..i];
    Associate(HeaderLines(names, ports), EventLines(ports, events[..i]), [line]);
    TerminatedOneMore(LogLines(names, ports, events[..i]), line);
  }

  lemma EventLinesOneMore(ports: seq<PortID>, events: seq<LoggedEvent>, n: nat)
    requires n == |events| - 1
    ensures EventLines(ports, events)
         == EventLines(ports, events[..n]) + [Row(events[n].time, Fields(ports, events[n]))]
  {
  }

  lemma TerminatedOneMore(lines: seq<string>, line: string)
    ensures Terminated(lines + [line]) == Terminated(lines) + line + "\n"
  {
    assert (lines + [line])[..|lines|] == lines;
  }

  method WriteLog(names: seq<string>, ports: seq<PortID>, events: seq<LoggedEvent>) returns (text: string)
    requires |names| == |ports|
    ensures text == Terminated(LogLines(names, ports, events))
  {
    var logger := new Logger(names, ports);
    var i := 0;
    while i < |events|
      invariant 0 <= i <= |events| && logger.header == ports
      invariant logger.stream == Terminated(LogLines(names, ports, events[..i]))
    {
      LogLinesOneMore(names, ports, events, i);
      logger.EventTriggered(events[i]);
      i := i + 1;
    }
    assert events[..i] == events;
    text := logger.stream;
  }
}
