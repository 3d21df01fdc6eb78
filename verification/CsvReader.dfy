/** Reads a CSV data file: a header with names and types, then one event a line. */
module CsvReader {
  import opened Fmi
  import opened CsvText
  import opened CsvDataLogger

  datatype Result<+T> = Success(value: T) | ValueError | AssertionError

  /** Whether the text of a number can be converted to the given type. */
  type Accepts = (FmiType, string) -> bool

  datatype Header = Header(names: seq<string>, kinds: map<string, FmiType>)

  /** Absent variables are not in the map. */
  datatype ParsedEvent = ParsedEvent(time: string, values: map<string, Cell>)

  datatype File = File(header: Header, events: seq<ParsedEvent>)

  /** An empty line has no field at all. */
  function CsvRow(line: string): seq<string> {
    if line == "" then [] else Split(line)
  }

  function TypeOfName(name: string): Option<FmiType> {
    if name == "fmiReal" then Some(FmiReal)
    else if name == "fmiInteger" then Some(FmiInteger)
    else if name == "fmiBoolean" then Some(FmiBoolean)
    else if name == "fmiString" then Some(FmiString)
    else None
  }

  /** The names of the types in a file, for the logger and for the reader. */
  lemma TypesHaveNames(name: string)
    ensures TypeOfName(name) == Some(FmiReal) <==> name == TypeName(FmiReal) == "fmiReal"
    ensures TypeOfName(name) == Some(FmiInteger) <==> name == TypeName(FmiInteger) == "fmiInteger"
    ensures TypeOfName(name) == Some(FmiBoolean) <==> name == TypeName(FmiBoolean) == "fmiBoolean"
    ensures TypeOfName(name) == Some(FmiString) <==> name == TypeName(FmiString) == "fmiString"
    ensures TypeOfName(name) != Some(FmiUnknown) && TypeOfName(TypeName(FmiUnknown)).None?
  {
  }

  /** All values, if none is missing. */
  function Collect<T>(options: seq<Option<T>>): (r: Option<seq<T>>)
    ensures r.Some? <==> forall i :: 0 <= i < |options| ==> options[i].Some?
    ensures r.Some? ==> |r.value| == |options| && forall i :: 0 <= i < |options| ==> options[i] == Some(r.value[i])
  {
    if options == [] then Some([])
    else
      var n := |options| - 1;
      var (before, last) := (Collect(options[..n]), options[n]);
      if before.Some? && last.Some? then Some(before.value + [last.value]) else None
  }

  lemma CollectsAll<T>(options: seq<Option<T>>, values: seq<T>)
    requires |options| == |values| && forall i :: 0 <= i < |values| ==> options[i] == Some(values[i])
    ensures Collect(options) == Some(values)
  {
    assert Collect(options).value == values;
  }

  function Unpacked(values: seq<string>): (r: seq<Option<string>>)
    ensures |r| == |values|
  {
    seq(|values|, i requires 0 <= i < |values| => Unpack(values[i]))
  }

  function UnpackAll(values: seq<string>): (r: Option<seq<string>>)
    ensures r.Some? ==> |r.value| == |values|
  {
    Collect(Unpacked(values))
  }

  function Typed(names: seq<string>): (r: seq<Option<FmiType>>)
    ensures |r| == |names|
  {
    seq(|names|, i requires 0 <= i < |names| => TypeOfName(names[i]))
  }

  function TypesOfNames(names: seq<string>): (r: Option<seq<FmiType>>)
    ensures r.Some? ==> |r.value| == |names|
  {
    Collect(Typed(names))
  }

  /** Later columns win. */
  function Zip(names: seq<string>, kinds: seq<FmiType>): map<string, FmiType>
    requires |names| == |kinds|
  {
    if names == [] then map[]
    else
      var n := |names| - 1;
      Zip(names[..n], kinds[..n])[names[n] := kinds[n]]
  }

  /** The delimiter behind the time is still there when the file has no variables. */
  function DropPlaceholder(variables: seq<string>, fields: seq<string>): seq<string>
    requires |fields| == |variables|
  {
    if |variables| == 2 && variables[1] == "" then [fields[0]] else fields
  }

  function ParseHeader(variables: seq<string>, types: seq<string>): Result<Header> {
    if |variables| != |types| then ValueError
    else if |variables| <= 0 then ValueError
    else if variables[0] != "\"time\"" || types[0] != "\"fmiReal\"" then ValueError
    else
      var names := UnpackAll(DropPlaceholder(variables, variables));
      var typeNames := UnpackAll(DropPlaceholder(variables, types));
      if names.None? || typeNames.None? then ValueError
      else
        var kinds := TypesOfNames(typeNames.value[1..]);
        if kinds.None? then ValueError
        else Success(Header(names.value[1..], Zip(names.value[1..], kinds.value)))
  }

  function ParseField(accepts: Accepts, kind: FmiType, field: string): Result<Option<Cell>> {
    if field == "" then Success(None)
    else if kind == FmiString then
      var s := Unpack(field);
      if s.Some? then Success(Some(Text(s.value))) else ValueError
    else if kind == FmiUnknown then AssertionError
    else if accepts(kind, field) then Success(Some(Number(field)))
    else ValueError
  }

  /** The values of the first n columns. */
  function ParseFields(accepts: Accepts, header: Header, row: seq<string>, n: nat): Result<map<string, Cell>>
    requires n <= |header.names| && |row| == |header.names| + 1
    requires forall i :: 0 <= i < |header.names| ==> header.names[i] in header.kinds
  {
    if n == 0 then Success(map[])
    else
      var before := ParseFields(accepts, header, row, n - 1);
      if !before.Success? then before
      else
        var name := header.names[n - 1];
        match ParseField(accepts, header.kinds[name], row[n])
        case Success(None) => before
        case Success(Some(cell)) => Success(before.value[name := cell])
        case ValueError => ValueError
        case AssertionError => AssertionError
  }

  predicate IsHeader(header: Header) {
    && |header.kinds| <= |header.names|
    && forall i :: 0 <= i < |header.names| ==> header.names[i] in header.kinds
  }

  function ParseRow(accepts: Accepts, header: Header, row: seq<string>): Result<ParsedEvent>
    requires IsHeader(header)
  {
    if |header.names| != |header.kinds| then AssertionError
    else if |row| != |header.kinds| + 1 && !(|row| == 1 && |header.kinds| == 0) then ValueError
    else if !accepts(FmiReal, row[0]) then ValueError
    else match ParseFields(accepts, header, row, |header.names|)
      case Success(values) => Success(ParsedEvent(row[0], values))
      case ValueError => ValueError
      case AssertionError => AssertionError
  }

  function ParseRows(accepts: Accepts, header: Header, lines: seq<string>): Result<seq<ParsedEvent>>
    requires IsHeader(header)
  {
    if lines == [] then Success([])
    else
      var n := |lines| - 1;
      var before := ParseRows(accepts, header, lines[..n]);
      if !before.Success? then before
      else match ParseRow(accepts, header, Merge(CsvRow(lines[n])).fields)
        case Success(ev) => Success(before.value + [ev])
        case ValueError => ValueError
        case AssertionError => AssertionError
  }

  function ReadHeader(lines: seq<string>): Result<Header> {
    if |lines| < 2 then ValueError
    else ParseHeader(Merge(CsvRow(lines[0])).fields, Merge(CsvRow(lines[1])).fields)
  }

  function ParseFile(accepts: Accepts, lines: seq<string>): Result<File> {
    match ReadHeader(lines)
    case Success(header) =>
      ParsedHeaderIsHeader(Merge(CsvRow(lines[0])).fields, Merge(CsvRow(lines[1])).fields);
      (match ParseRows(accepts, header, lines[2..])
       case Success(events) => Success(File(header, events))
       case ValueError => ValueError
       case AssertionError => AssertionError)
    case ValueError => ValueError
    case AssertionError => AssertionError
  }

  lemma {:induction false} ZipIsHeader(names: seq<string>, kinds: seq<FmiType>)
    requires |names| == |kinds|
    ensures IsHeader(Header(names, Zip(names, kinds)))
  {
    if names != [] {
      ZipIsHeader(names[..|names| - 1], kinds[..|names| - 1]);
    }
  }

  lemma ParsedHeaderIsHeader(variables: seq<string>, types: seq<string>)
    ensures ParseHeader(variables, types).Success? ==> IsHeader(ParseHeader(variables, types).value)
  {
    var r := ParseHeader(variables, types);
    if r.Success? {
      var kinds := TypesOfNames(UnpackAll(DropPlaceholder(variables, types)).value[1..]).value;
      ZipIsHeader(r.value.names, kinds);
    }
  }

  class Reader {
    const accepts: Accepts
    var header: map<string, FmiType>
    var nameList: seq<string>

    constructor (accepts: Accepts)
      ensures this.accepts == accepts && header == map[] && nameList == []
    {
      this.accepts := accepts;
      header, nameList := map[], [];
    }

    method MergeColumns(row: seq<string>) returns (ret: seq<string>)
      ensures ret == Merge(row).fields
    {
      ret := [];
      var inEscapeSequence := false;
      var i := 0;
      assert row[..0] == [];
      while i < |row|
        invariant 0 <= i <= |row|
        invariant Merge(row[..i]) == Merged(ret, inEscapeSequence)
      {
        var field := row[i];
        assert row[..i + 1][..i] == row[..i];
        if inEscapeSequence {
          ret := AppendToLast(ret, [SEPARATOR] + field);
        } else {
          ret := ret + [field];
        }
        inEscapeSequence := inEscapeSequence != (CountQuotes(field) % 2 == 1);
        CountTellsParity(field);
        i := i + 1;
      }
      assert row[..i] == row;
    }

    method AddHeader(lines: seq<string>) returns (r: Result<()>)
      requires nameList == [] && header == map[]
      modifies this
      ensures match ReadHeader(lines)
              case Success(h) => r == Success(()) && h == Header(nameList, header)
              case ValueError => r == ValueError
              case AssertionError => r == AssertionError
    {
      if |lines| < 2 {
        return ValueError;
      }
      var variables := MergeColumns(CsvRow(lines[0]));
      var types := MergeColumns(CsvRow(lines[1]));
      var parsed := ParseHeader(variables, types);
      if parsed.Success? {
        Register(parsed.value);
        r := Success(());
      } else {
        r := if parsed.ValueError? then ValueError else AssertionError;
      }
    }

    method Register(h: Header)
      requires nameList == [] && header == map[]
      modifies this
      ensures h == Header(nameList, header)
    {
      header := header + h.kinds;
      nameList := nameList + h.names;
      assert map[] + h.kinds == h.kinds;
    }

    method ParseOneRow(row: seq<string>) returns (r: Result<ParsedEvent>)
      requires IsHeader(Header(nameList, header))
      ensures r == ParseRow(accepts, Header(nameList, header), row)
    {
      if |nameList| != |header| {
        return AssertionError;
      }
      if |row| != |header| + 1 && !(|row| == 1 && |header| == 0) {
        return ValueError;
      }
      if !accepts(FmiReal, row[0]) {
        return ValueError;
      }
      var values := map[];
      var i := 0;
      while i < |nameList|
        invariant 0 <= i <= |nameList|
        invariant ParseFields(accepts, Header(nameList, header), row, i) == Success(values)
      {
        var cell := ParseField(accepts, header[nameList[i]], row[i + 1]);
        if !cell.Success? {
          ErrorsPersist(accepts, Header(nameList, header), row, i + 1, |nameList|);
          return if cell.ValueError? then ValueError else AssertionError;
        }
        if cell.value.Some? {
          values := values[nameList[i] := cell.value.value];
        }
        i := i + 1;
      }
      r := Success(ParsedEvent(row[0], values));
    }

    /** What the generator yields, up to the first row that is an error. */
    method GenerateEvents(lines: seq<string>) returns (events: seq<ParsedEvent>, r: Result<()>)
      requires IsHeader(Header(nameList, header))
      ensures IsYielded(accepts, Header(nameList, header), lines, events, r)
    {
      events, r := [], Success(());
      var i := 0;
      while i < |lines|
        invariant 0 <= i <= |lines|
        invariant ParseRows(accepts, Header(nameList, header), lines[..i]) == Success(events)
      {
        RowsOneMore(accepts, Header(nameList, header), lines, i);
        var row := MergeColumns(CsvRow(lines[i]));
        var ev := ParseOneRow(row);
        if !ev.Success? {
          YieldedIsAllRead(accepts, Header(nameList, header), lines[..i], events);
          r := if ev.ValueError? then ValueError else AssertionError;
          return;
        }
        events := events + [ev.value];
        i := i + 1;
      }
      assert lines[..i] == lines;
      YieldedIsAllRead(accepts, Header(nameList, header), lines, events);
    }

    /** The header, then all events up to the first error. */
    method ReadFile(lines: seq<string>) returns (events: seq<ParsedEvent>, r: Result<()>)
      requires nameList == [] && header == map[]
      modifies this
      ensures match ParseFile(accepts, lines)
              case Success(file) => r == Success(()) && file == File(Header(nameList, header), events)
              case ValueError => r == ValueError
              case AssertionError => r == AssertionError
      ensures match ReadHeader(lines)
              case Success(h) =>
                && h == Header(nameList, header) && IsHeader(h)
                && IsYielded(accepts, h, lines[2..], events, r)
              case _ => events == []
    {
      events := [];
      r := AddHeader(lines);
      if r.Success? {
        ParsedHeaderIsHeader(Merge(CsvRow(lines[0])).fields, Merge(CsvRow(lines[1])).fields);
        events, r := GenerateEvents(lines[2..]);
        YieldedTellsResult(accepts, Header(nameList, header), lines[2..], events, r);
      }
    }
  }

  /** The events of the rows before the first error, and this error. */
  predicate IsYielded(accepts: Accepts, header: Header, lines: seq<string>, events: seq<ParsedEvent>, r: Result<()>)
    requires IsHeader(header)
  {
    && |events| <= |lines| && ParseRows(accepts, header, lines[..|events|]) == Success(events)
    && if |events| == |lines| then r == Success(())
       else match ParseRow(accepts, header, Merge(CsvRow(lines[|events|])).fields)
         case Success(_) => false
         case ValueError => r == ValueError
         case AssertionError => r == AssertionError
  }

  lemma {:induction false} YieldedIsAllRead(
    accepts: Accepts, header: Header, lines: seq<string>, events: seq<ParsedEvent>)
    requires IsHeader(header) && ParseRows(accepts, header, lines) == Success(events)
    ensures |events| == |lines|
  {
    if lines != [] {
      var n := |lines| - 1;
      YieldedIsAllRead(accepts, header, lines[..n], ParseRows(accepts, header, lines[..n]).value);
    }
  }

  lemma YieldedTellsResult(accepts: Accepts, header: Header, lines: seq<string>, events: seq<ParsedEvent>,
                           r: Result<()>)
    requires IsHeader(header) && IsYielded(accepts, header, lines, events, r)
    ensures match ParseRows(accepts, header, lines)
            case Success(all) => r == Success(()) && all == events
            case ValueError => r == ValueError
            case AssertionError => r == AssertionError
  {
    var n := |events|;
    if n == |lines| {
      assert lines[..n] == lines;
    } else {
      RowsOneMore(accepts, header, lines, n);
      ErrorPersists(accepts, header, lines, n + 1);
    }
  }

  lemma ErrorPersists(accepts: Accepts, header: Header, lines: seq<string>, n: nat)
    requires IsHeader(header) && n <= |lines|
    ensures var r := ParseRows(accepts, header, lines[..n]); !r.Success? ==> ParseRows(accepts, header, lines) == r
  {
    if !ParseRows(accepts, header, lines[..n]).Success? {
      RowErrorsPersist(accepts, header, lines, n);
    }
  }

  lemma RowsOneMore(accepts: Accepts, header: Header, lines: seq<string>, i: nat)
    requires IsHeader(header) && i < |lines|
    ensures var before := ParseRows(accepts, header, lines[..i]);
            var r := ParseRows(accepts, header, lines[..i + 1]);
            if !before.Success? then r == before
            else match ParseRow(accepts, header, Merge(CsvRow(lines[i])).fields)
              case Success(ev) => r == Success(before.value + [ev])
              case ValueError => r == ValueError
              case AssertionError => r == AssertionError
  {
    assert lines[..i + 1][..i] == lines[..i];
  }

  lemma {:induction false} RowErrorsPersist(accepts: Accepts, header: Header, lines: seq<string>, i: nat)
    requires IsHeader(header) && i <= |lines| && !ParseRows(accepts, header, lines[..i]).Success?
    ensures ParseRows(accepts, header, lines) == ParseRows(accepts, header, lines[..i])
    decreases |lines| - i
  {
    if i < |lines| {
      RowsOneMore(accepts, header, lines, i);
      RowErrorsPersist(accepts, header, lines, i + 1);
    } else {
      assert lines[..i] == lines;
    }
  }

  function CountQuotes(s: string): nat {
    if s == "" then 0 else CountQuotes(s[..|s| - 1]) + (if s[|s| - 1] == QUOTE then 1 else 0)
  }

  lemma {:induction false} CountTellsParity(s: string)
    ensures OddQuotes(s) <==> CountQuotes(s) % 2 == 1
  {
    if s != "" {
      CountTellsParity(s[..|s| - 1]);
    }
  }

  lemma {:induction false} ErrorsPersist(accepts: Accepts, header: Header, row: seq<string>, i: nat, n: nat)
    requires i <= n <= |header.names| && |row| == |header.names| + 1 && IsHeader(header)
    ensures var error := ParseFields(accepts, header, row, i);
            !error.Success? ==> ParseFields(accepts, header, row, n) == error
    decreases n
  {
    if i < n {
      ErrorsPersist(accepts, header, row, i, n - 1);
    }
  }
}
