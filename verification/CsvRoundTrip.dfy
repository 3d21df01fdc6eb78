/** Reading the lines of a log. */
module CsvRoundTrip {
  import opened Fmi
  import opened CsvText
  import opened CsvDataLogger
  import opened CsvReader
  import opened CsvLines

  // ----- one row

  /** What the reader sees of a row: a placeholder stands for no fields at all. */
  function RowFields(first: string, fields: seq<string>): seq<string> {
    [first] + (if fields == [] then [""] else fields)
  }

  lemma {:induction false} RowIsJoin(first: string, fields: seq<string>)
    ensures Row(first, fields) == Join(RowFields(first, fields))
  {
    if |fields| <= 1 {
      var all := RowFields(first, fields);
      assert all[..1] == [first];
    } else {
      var n := |fields| - 1;
      RowIsJoin(first, fields[..n]);
      assert RowFields(first, fields)[..n + 1] == RowFields(first, fields[..n]);
      assert Row(first, fields) == Row(first, fields[..n]) + [SEPARATOR] + fields[n];
    }
  }

  lemma RowIsRestored(first: string, fields: seq<string>)
    requires IsProtected(first) && !OddQuotes(first) && AreClosed(fields)
    ensures Merge(CsvRow(Row(first, fields))).fields == RowFields(first, fields)
  {
    RowIsJoin(first, fields);
    MergeRestoresFields(RowFields(first, fields));
  }

  // ----- the header

  predicate Distinct(names: seq<string>) {
    forall i, j :: 0 <= i < j < |names| ==> names[i] != names[j]
  }

  function KindsOf(ports: seq<PortID>): (kinds: seq<FmiType>)
    ensures |kinds| == |ports|
  {
    seq(|ports|, i requires 0 <= i < |ports| => ports[i].kind)
  }

  lemma UnpackEscaped(s: string)
    ensures Unpack(Escape(s)) == Some(s)
  {
    UnpackInvertsEscape(Escape(s), s);
  }

  lemma UnpackAllEscaped(fields: seq<string>, values: seq<string>)
    requires |fields| == |values| && forall i :: 0 <= i < |values| ==> fields[i] == Escape(values[i])
    ensures UnpackAll(fields) == Some(values)
  {
    forall i | 0 <= i < |values|
      ensures Unpacked(fields)[i] == Some(values[i])
    {
      UnpackEscaped(values[i]);
    }
    CollectsAll(Unpacked(fields), values);
  }

  lemma TypeNamesAreKnown(kind: FmiType)
    ensures TypeOfName(TypeName(kind)) == if kind == FmiUnknown then None else Some(kind)
  {
    var name := TypeName(kind);
    assert |name| != 10 || (name[3] == 'I' && kind.FmiInteger?) || (name[3] == 'B' && kind.FmiBoolean?)
           || (name[3] == 'U' && kind.FmiUnknown?);
    assert "fmiInteger"[3] == 'I' && "fmiBoolean"[3] == 'B';
  }

  lemma TypesOfTypeNames(ports: seq<PortID>, names: seq<string>)
    requires |names| == |ports| && forall i :: 0 <= i < |ports| ==> names[i] == TypeName(ports[i].kind)
    ensures TypesOfNames(names) == if AreKnown(ports) then Some(KindsOf(ports)) else None
  {
    forall i | 0 <= i < |ports|
      ensures Typed(names)[i] == if ports[i].kind == FmiUnknown then None else Some(ports[i].kind)
    {
      TypeNamesAreKnown(ports[i].kind);
    }
    if AreKnown(ports) {
      CollectsAll(Typed(names), KindsOf(ports));
    } else {
      var i :| 0 <= i < |ports| && ports[i].kind == FmiUnknown;
      assert Typed(names)[i].None?;
    }
  }

  predicate AreKnown(ports: seq<PortID>) {
    forall i :: 0 <= i < |ports| ==> ports[i].kind != FmiUnknown
  }

  function TypeNameTexts(ports: seq<PortID>): (texts: seq<string>)
    ensures |texts| == |ports|
  {
    seq(|ports|, i requires 0 <= i < |ports| => TypeName(ports[i].kind))
  }

  lemma NamesAreRestored(first: string, value: string, fields: seq<string>, values: seq<string>)
    requires first == Escape(value) && |fields| == |values|
    requires forall i :: 0 <= i < |values| ==> fields[i] == Escape(values[i])
    ensures var row := RowFields(first, fields);
            |row| == (if fields == [] then 2 else |fields| + 1)
            && (|row| == 2 && row[1] == "" <==> fields == [])
    ensures UnpackAll(if fields == [] then [first] else RowFields(first, fields)) == Some([value] + values)
  {
    if fields != [] {
      assert RowFields(first, fields)[1] == Escape(values[0]);
    }
    UnpackAllEscaped(if fields == [] then [first] else RowFields(first, fields), [value] + values);
  }

  lemma HeaderIsAccepted(variables: seq<string>, types: seq<string>,
                         names: seq<string>, typeNames: seq<string>, ports: seq<PortID>)
    requires |variables| == |types| > 0 && variables[0] == "\"time\"" && types[0] == "\"fmiReal\""
    requires |names| == |typeNames| == |ports| + 1
    requires UnpackAll(DropPlaceholder(variables, variables)) == Some(names)
    requires UnpackAll(DropPlaceholder(variables, types)) == Some(typeNames)
    requires TypesOfNames(typeNames[1..]) == if AreKnown(ports) then Some(KindsOf(ports)) else None
    ensures var r := ParseHeader(variables, types);
            if AreKnown(ports) then r == Success(Header(names[1..], Zip(names[1..], KindsOf(ports)))) else !r.Success?
  {
  }

  lemma HeaderIsRestored(timeName: string, realName: string, names: seq<string>, ports: seq<PortID>)
    requires |names| == |ports|
    requires Escape(timeName) == "\"time\"" && Escape(realName) == "\"fmiReal\""
    ensures var r := ParseHeader(RowFields(Escape(timeName), Names(names)),
                                 RowFields(Escape(realName), TypeNames(ports)));
            if AreKnown(ports) then r == Success(Header(names, Zip(names, KindsOf(ports)))) else !r.Success?
  {
    var texts := TypeNameTexts(ports);
    NamesAreRestored(Escape(timeName), timeName, Names(names), names);
    NamesAreRestored(Escape(realName), realName, TypeNames(ports), texts);
    TypesOfTypeNames(ports, texts);
    assert ([timeName] + names)[1..] == names && ([realName] + texts)[1..] == texts;
    HeaderIsAccepted(RowFields(Escape(timeName), Names(names)), RowFields(Escape(realName), TypeNames(ports)),
                     [timeName] + names, [realName] + texts, ports);
  }

  lemma PlainIsJustQuoted(s: string, literal: string)
    requires QUOTE !in s && literal == [QUOTE] + s + [QUOTE]
    ensures Escape(s) == literal
  {
    PlainStaysPlain(s);
  }

  lemma {:induction false} PlainStaysPlain(s: string)
    requires QUOTE !in s
    ensures Double(s) == s
  {
    if s != "" {
      PlainStaysPlain(s[1..]);
    }
  }

  lemma {:induction false} ZipKeys(names: seq<string>, kinds: seq<FmiType>)
    requires |names| == |kinds|
    ensures forall name :: name in Zip(names, kinds) <==> name in names
  {
    if names != [] {
      var n := |names| - 1;
      ZipKeys(names[..n], kinds[..n]);
      DistinctOneMore(names, n);
    }
  }

  /** The header is as long as the list of names exactly if no name occurs twice. */
  lemma {:induction false} ZipCounts(names: seq<string>, kinds: seq<FmiType>)
    requires |names| == |kinds|
    ensures |Zip(names, kinds)| <= |names|
    ensures |Zip(names, kinds)| == |names| <==> Distinct(names)
  {
    if names != [] {
      var n := |names| - 1;
      ZipCounts(names[..n], kinds[..n]);
      ZipKeys(names[..n], kinds[..n]);
      DistinctOneMore(names, n);
    }
  }

  lemma {:induction false} ZipLooksUp(names: seq<string>, kinds: seq<FmiType>, i: nat)
    requires |names| == |kinds| && i < |names| && Distinct(names)
    ensures names[i] in Zip(names, kinds) && Zip(names, kinds)[names[i]] == kinds[i]
    decreases |names|
  {
    var n := |names| - 1;
    if i < n {
      ZipLooksUp(names[..n], kinds[..n], i);
    }
  }

  lemma DistinctOneMore(names: seq<string>, n: nat)
    requires n == |names| - 1
    ensures Distinct(names) <==> Distinct(names[..n]) && names[n] !in names[..n]
    ensures forall name :: name in names <==> name in names[..n] || name == names[n]
  {
    assert names == names[..n] + [names[n]];
    if names[n] in names[..n] {
      var i :| 0 <= i < n && names[..n][i] == names[n];
      assert names[i] == names[n];
    }
  }

  // ----- the events

  /** What the logger is given: numbers as plain tokens that can be converted back, and
      values that fit the types of their ports. */
  predicate IsLoggable(accepts: Accepts, ports: seq<PortID>, ev: LoggedEvent) {
    && IsToken(accepts, FmiReal, ev.time)
    && forall i :: 0 <= i < |ports| ==>
         match Find(ev.vars, ports[i])
         case None => true
         case Some(Number(token)) =>
           ports[i].kind == FmiUnknown || (ports[i].kind != FmiString && IsToken(accepts, ports[i].kind, token))
         case Some(Text(_)) =>
           ports[i].kind == FmiUnknown || ports[i].kind == FmiString
  }

  predicate IsToken(accepts: Accepts, kind: FmiType, token: string) {
    token != "" && IsPlain(token) && IsOneLine(token) && accepts(kind, token)
  }

  /** The present variables of the first n columns. */
  function Present(names: seq<string>, ports: seq<PortID>, ev: LoggedEvent, n: nat): map<string, Cell>
    requires n <= |names| == |ports|
  {
    if n == 0 then map[]
    else
      var before := Present(names, ports, ev, n - 1);
      var cell := Find(ev.vars, ports[n - 1]);
      if cell.Some? then before[names[n - 1] := cell.value] else before
  }

  /** An event as it should be read: a column is there if and only if the event has a
      variable for it. */
  lemma {:induction false} PresentLooksUp(names: seq<string>, ports: seq<PortID>, ev: LoggedEvent, n: nat, i: nat)
    requires i < n <= |names| == |ports| && Distinct(names)
    ensures var present := Present(names, ports, ev, n);
            match Find(ev.vars, ports[i])
            case Some(cell) => names[i] in present && present[names[i]] == cell
            case None => names[i] !in present
    decreases n
  {
    if i == n - 1 {
      PresentOnlyHasItsNames(names, ports, ev, n - 1);
    } else {
      PresentLooksUp(names, ports, ev, n - 1, i);
    }
  }

  lemma {:induction false} PresentOnlyHasItsNames(names: seq<string>, ports: seq<PortID>, ev: LoggedEvent, n: nat)
    requires n <= |names| == |ports|
    ensures forall name :: name in Present(names, ports, ev, n) ==> name in names[..n]
  {
    if n > 0 {
      PresentOnlyHasItsNames(names, ports, ev, n - 1);
      assert names[..n] == names[..n - 1] + [names[n - 1]];
    }
  }

  function Expected(names: seq<string>, ports: seq<PortID>, ev: LoggedEvent): ParsedEvent
    requires |names| == |ports|
  {
    ParsedEvent(ev.time, Present(names, ports, ev, |names|))
  }

  function ExpectedAll(names: seq<string>, ports: seq<PortID>, events: seq<LoggedEvent>): (r: seq<ParsedEvent>)
    requires |names| == |ports|
    ensures |r| == |events|
  {
    seq(|events|, i requires 0 <= i < |events| => Expected(names, ports, events[i]))
  }

  lemma FieldIsRestored(accepts: Accepts, ports: seq<PortID>, ev: LoggedEvent, i: nat)
    requires IsLoggable(accepts, ports, ev) && AreKnown(ports) && i < |ports|
    ensures ParseField(accepts, ports[i].kind, Fields(ports, ev)[i]) == Success(Find(ev.vars, ports[i]))
  {
    match Find(ev.vars, ports[i])
    case None =>
    case Some(Number(token)) =>
    case Some(Text(chars)) => UnpackEscaped(chars);
  }

  lemma FieldsAreClosed(accepts: Accepts, ports: seq<PortID>, ev: LoggedEvent)
    requires IsLoggable(accepts, ports, ev) && AreKnown(ports)
    ensures AreClosed(Fields(ports, ev)) && IsProtected(ev.time) && !OddQuotes(ev.time)
  {
    PlainIsProtected(ev.time);
    forall i | 0 <= i < |ports|
      ensures IsProtected(Fields(ports, ev)[i]) && !OddQuotes(Fields(ports, ev)[i])
    {
      match Find(ev.vars, ports[i])
      case None =>
      case Some(Number(token)) => PlainIsProtected(token);
      case Some(Text(chars)) => EscapedIsProtected(chars);
    }
  }

  lemma {:induction false} FieldsAreRestored(
    accepts: Accepts, header: Header, ports: seq<PortID>, ev: LoggedEvent, row: seq<string>, n: nat)
    requires |header.names| == |ports| && AreKnown(ports) && IsLoggable(accepts, ports, ev)
    requires forall i :: 0 <= i < |ports| ==>
               header.names[i] in header.kinds && header.kinds[header.names[i]] == ports[i].kind
    requires |row| == |ports| + 1 && row[1..] == Fields(ports, ev) && n <= |ports|
    ensures ParseFields(accepts, header, row, n) == Success(Present(header.names, ports, ev, n))
  {
    if n > 0 {
      FieldsAreRestored(accepts, header, ports, ev, row, n - 1);
      FieldIsRestored(accepts, ports, ev, n - 1);
      assert row[n] == row[1..][n - 1];
    }
  }

  lemma ParsedRow(accepts: Accepts, header: Header, row: seq<string>, values: map<string, Cell>)
    requires IsHeader(header) && |header.names| == |header.kinds| && |row| == |header.names| + 1
    requires accepts(FmiReal, row[0]) && ParseFields(accepts, header, row, |header.names|) == Success(values)
    ensures ParseRow(accepts, header, row) == Success(ParsedEvent(row[0], values))
  {
  }

  /** A row is read back exactly if there is a variable and no name is used twice. */
  lemma RowIsRead(accepts: Accepts, names: seq<string>, ports: seq<PortID>, ev: LoggedEvent)
    requires |names| == |ports| && AreKnown(ports) && IsLoggable(accepts, ports, ev)
    requires IsHeader(Header(names, Zip(names, KindsOf(ports))))
    ensures var r := ParseRow(accepts, Header(names, Zip(names, KindsOf(ports))), RowFields(ev.time, Fields(ports, ev)));
            if |names| >= 1 && Distinct(names) then r == Success(Expected(names, ports, ev)) else !r.Success?
  {
    var header := Header(names, Zip(names, KindsOf(ports)));
    ZipCounts(names, KindsOf(ports));
    if |names| >= 1 && Distinct(names) {
      var row := [ev.time] + Fields(ports, ev);
      assert row[1..] == Fields(ports, ev);
      forall i | 0 <= i < |ports|
        ensures names[i] in header.kinds && header.kinds[names[i]] == ports[i].kind
      {
        ZipLooksUp(names, KindsOf(ports), i);
      }
      FieldsAreRestored(accepts, header, ports, ev, row, |names|);
      ParsedRow(accepts, header, row, Present(names, ports, ev, |names|));
    }
  }

  // ----- the file

  /** The names and events the round trip is about. */
  predicate IsLog(accepts: Accepts, names: seq<string>, ports: seq<PortID>, events: seq<LoggedEvent>) {
    && |names| == |ports|
    && (forall i :: 0 <= i < |events| ==> IsLoggable(accepts, ports, events[i]))
  }

  lemma OneMoreLine(accepts: Accepts, header: Header, lines: seq<string>, line: string)
    requires IsHeader(header)
    ensures var (before, last) := (ParseRows(accepts, header, lines), ParseLine(accepts, header, line));
            var r := ParseRows(accepts, header, lines + [line]);
            if before.Success? && last.Success? then r == Success(before.value + [last.value]) else !r.Success?
  {
    assert (lines + [line])[..|lines|] == lines;
  }

  function ParseLine(accepts: Accepts, header: Header, line: string): Result<ParsedEvent>
    requires IsHeader(header)
  {
    ParseRow(accepts, header, Merge(CsvRow(line)).fields)
  }

  lemma LineIsRead(accepts: Accepts, names: seq<string>, ports: seq<PortID>, ev: LoggedEvent)
    requires |names| == |ports| && AreKnown(ports) && IsLoggable(accepts, ports, ev)
    requires IsHeader(Header(names, Zip(names, KindsOf(ports))))
    ensures var r := ParseLine(accepts, Header(names, Zip(names, KindsOf(ports))), Row(ev.time, Fields(ports, ev)));
            if |names| >= 1 && Distinct(names) then r == Success(Expected(names, ports, ev)) else !r.Success?
  {
    FieldsAreClosed(accepts, ports, ev);
    RowIsRestored(ev.time, Fields(ports, ev));
    RowIsRead(accepts, names, ports, ev);
  }

  lemma ExpectedOneMore(names: seq<string>, ports: seq<PortID>, events: seq<LoggedEvent>, n: nat)
    requires n == |events| - 1 && |names| == |ports|
    ensures ExpectedAll(names, ports, events)
         == ExpectedAll(names, ports, events[..n]) + [Expected(names, ports, events[n])]
  {
  }

  /** The lines of the events up to n, for which the header stands for the names and types. */
  lemma {:induction false} RowsAreRead(
    accepts: Accepts, header: Header, names: seq<string>, ports: seq<PortID>, events: seq<LoggedEvent>)
    requires IsLog(accepts, names, ports, events) && AreKnown(ports)
    requires IsHeader(header) && header == Header(names, Zip(names, KindsOf(ports)))
    ensures var r := ParseRows(accepts, header, EventLines(ports, events));
            if events == [] || (|names| >= 1 && Distinct(names))
            then r == Success(ExpectedAll(names, ports, events))
            else !r.Success?
  {
    if events != [] {
      var n := |events| - 1;
      RowsAreRead(accepts, header, names, ports, events[..n]);
      EventLinesOneMore(ports, events, n);
      OneMoreLine(accepts, header, EventLines(ports, events[..n]), Row(events[n].time, Fields(ports, events[n])));
      LineIsRead(accepts, names, ports, events[n]);
      ExpectedOneMore(names, ports, events, n);
    }
  }

  lemma FileOfParts(accepts: Accepts, lines: seq<string>, header: Header)
    requires |lines| >= 2 && IsHeader(header)
    requires ReadHeader(lines) == Success(header)
    ensures var (rows, r) := (ParseRows(accepts, header, lines[2..]), ParseFile(accepts, lines));
            if rows.Success? then r == Success(File(header, rows.value)) else !r.Success?
  {
  }

  lemma HeaderRowsAreRestored(timeName: string, realName: string, names: seq<string>, ports: seq<PortID>)
    requires |names| == |ports|
    ensures Merge(CsvRow(Row(Escape(timeName), Names(names)))).fields == RowFields(Escape(timeName), Names(names))
    ensures Merge(CsvRow(Row(Escape(realName), TypeNames(ports)))).fields
         == RowFields(Escape(realName), TypeNames(ports))
  {
    EscapedIsProtected(timeName);
    EscapedIsProtected(realName);
    forall i | 0 <= i < |names|
      ensures IsProtected(Names(names)[i]) && !OddQuotes(Names(names)[i])
      ensures IsProtected(TypeNames(ports)[i]) && !OddQuotes(TypeNames(ports)[i])
    {
      EscapedIsProtected(names[i]);
      EscapedIsProtected(TypeName(ports[i].kind));
    }
    RowIsRestored(Escape(timeName), Names(names));
    RowIsRestored(Escape(realName), TypeNames(ports));
  }

  lemma HeaderLinesAreRead(timeName: string, realName: string, lines: seq<string>,
                           names: seq<string>, ports: seq<PortID>)
    requires |names| == |ports| && |lines| >= 2
    requires Escape(timeName) == "\"time\"" && Escape(realName) == "\"fmiReal\""
    requires lines[0] == Row(Escape(timeName), Names(names)) && lines[1] == Row(Escape(realName), TypeNames(ports))
    ensures var r := ReadHeader(lines);
            if AreKnown(ports) then r == Success(Header(names, Zip(names, KindsOf(ports)))) else !r.Success?
  {
    HeaderRowsAreRestored(timeName, realName, names, ports);
    HeaderIsRestored(timeName, realName, names, ports);
  }

  /** What reading a log is to return: the same names and types, and for each event its time
      and its present variables. */
  predicate IsRestored(names: seq<string>, ports: seq<PortID>, events: seq<LoggedEvent>, r: Result<File>)
    requires |names| == |ports|
  {
    r == Success(File(Header(names, Zip(names, KindsOf(ports))), ExpectedAll(names, ports, events)))
  }

  /** All types must be known, and events need a variable and no name that is used twice. */
  predicate HasColumns(names: seq<string>, ports: seq<PortID>, events: seq<LoggedEvent>) {
    AreKnown(ports) && (events == [] || (|names| >= 1 && Distinct(names)))
  }

  lemma FileIsReadBack(accepts: Accepts, timeName: string, realName: string, lines: seq<string>,
                       names: seq<string>, ports: seq<PortID>, events: seq<LoggedEvent>)
    requires IsLog(accepts, names, ports, events)
    requires Escape(timeName) == "\"time\"" && Escape(realName) == "\"fmiReal\""
    requires |lines| >= 2 && lines[2..] == EventLines(ports, events)
    requires lines[0] == Row(Escape(timeName), Names(names)) && lines[1] == Row(Escape(realName), TypeNames(ports))
    ensures var r := ParseFile(accepts, lines);
            if HasColumns(names, ports, events) then IsRestored(names, ports, events, r) else !r.Success?
  {
    HeaderLinesAreRead(timeName, realName, lines, names, ports);
    if AreKnown(ports) {
      EventsAreReadBack(accepts, Header(names, Zip(names, KindsOf(ports))), lines, names, ports, events);
    }
  }

  lemma EventsAreReadBack(accepts: Accepts, header: Header, lines: seq<string>,
                          names: seq<string>, ports: seq<PortID>, events: seq<LoggedEvent>)
    requires IsLog(accepts, names, ports, events) && AreKnown(ports)
    requires header == Header(names, Zip(names, KindsOf(ports)))
    requires |lines| >= 2 && lines[2..] == EventLines(ports, events) && ReadHeader(lines) == Success(header)
    ensures var r := ParseFile(accepts, lines);
            if HasColumns(names, ports, events) then IsRestored(names, ports, events, r) else !r.Success?
  {
    ZipIsHeader(names, KindsOf(ports));
    FileOfParts(accepts, lines, header);
    RowsAreRead(accepts, header, names, ports, events);
  }
}
