/** From the text of a log to the names and events it was made of. */
module CsvLogFile {
  import opened Fmi
  import opened CsvText
  import opened CsvLines
  import opened CsvDataLogger
  import opened CsvReader
  import opened CsvRoundTrip

  /** No string of the event has a line break. */
  predicate IsUnbroken(ports: seq<PortID>, ev: LoggedEvent) {
    forall i :: 0 <= i < |ports| ==> !BreaksAt(ports, ev, i)
  }

  predicate BreaksAt(ports: seq<PortID>, ev: LoggedEvent, i: nat)
    requires i < |ports|
  {
    ports[i].kind != FmiUnknown &&
    match Find(ev.vars, ports[i])
    case Some(Text(chars)) => !IsOneLine(chars)
    case _ => false
  }

  predicate AreUnbroken(ports: seq<PortID>, events: seq<LoggedEvent>) {
    forall k :: 0 <= k < |events| ==> IsUnbroken(ports, events[k])
  }

  // ----- texts without line breaks

  lemma FieldIsOneLine(accepts: Accepts, ports: seq<PortID>, ev: LoggedEvent, i: nat, unknown: string)
    requires IsLoggable(accepts, ports, ev) && i < |ports| && !BreaksAt(ports, ev, i) && unknown == UNKNOWN_TYPE
    ensures IsOneLine(Fields(ports, ev)[i])
  {
    match Find(ev.vars, ports[i])
    case None =>
    case Some(cell) =>
      if ports[i].kind == FmiUnknown {
        EscapedIsOneLine(unknown);
      } else if cell.Text? {
        EscapedIsOneLine(cell.chars);
      }
  }

  lemma EventIsOneLine(accepts: Accepts, ports: seq<PortID>, ev: LoggedEvent)
    requires IsLoggable(accepts, ports, ev) && IsUnbroken(ports, ev)
    ensures IsOneLine(Row(ev.time, Fields(ports, ev)))
  {
    forall i | 0 <= i < |ports|
      ensures IsOneLine(Fields(ports, ev)[i])
    {
      FieldIsOneLine(accepts, ports, ev, i, UNKNOWN_TYPE);
    }
    RowIsOneLine(ev.time, Fields(ports, ev));
  }

  lemma TypeNameIsOneLine(kind: FmiType)
    ensures IsOneLine(TypeName(kind))
  {
  }

  lemma NamesAreOneLine(timeName: string, names: seq<string>)
    requires IsOneLine(timeName) && AreLines(names)
    ensures IsOneLine(Row(Escape(timeName), Names(names)))
  {
    forall i | 0 <= i < |names|
      ensures IsOneLine(Names(names)[i])
    {
      EscapedIsOneLine(names[i]);
    }
    EscapedIsOneLine(timeName);
    RowIsOneLine(Escape(timeName), Names(names));
  }

  lemma TypesAreOneLine(realName: string, ports: seq<PortID>)
    requires IsOneLine(realName)
    ensures IsOneLine(Row(Escape(realName), TypeNames(ports)))
  {
    forall i | 0 <= i < |ports|
      ensures IsOneLine(TypeNames(ports)[i])
    {
      TypeNameIsOneLine(ports[i].kind);
      EscapedIsOneLine(TypeName(ports[i].kind));
    }
    EscapedIsOneLine(realName);
    RowIsOneLine(Escape(realName), TypeNames(ports));
  }

  lemma EventsAreLines(accepts: Accepts, ports: seq<PortID>, events: seq<LoggedEvent>, n: nat)
    requires n <= |events|
    requires forall k :: 0 <= k < n ==> IsLoggable(accepts, ports, events[k]) && IsUnbroken(ports, events[k])
    ensures AreLines(EventLines(ports, events)[..n])
  {
    forall k | 0 <= k < n
      ensures IsOneLine(EventLines(ports, events)[..n][k])
    {
      EventIsOneLine(accepts, ports, events[k]);
    }
  }

  // ----- a name with a line break

  /** The first line of the header ends as an open string, which is no name. */
  lemma BrokenNamesAreRejected(timeName: string, names: seq<string>, found: seq<string>, line: string)
    requires IsOneLine(timeName) && !AreLines(names)
    requires line == Row(Escape(timeName), Names(names))
    requires !IsOneLine(line) ==> found != [] && found[0] == line[..FirstBreak(line)]
    ensures !ReadHeader(found).Success?
  {
    var n := FirstBrokenName(names);
    var fields := [Escape(timeName)] + Names(names);
    RowIsJoin(Escape(timeName), Names(names));
    NamesBefore(timeName, names, n);
    CutLiteralIsOpen(names[n]);
    var cut := BrokenRowIsOpen(fields, n + 1, line);
    OpenHeaderIsRejected(found, fields[..n + 1], cut);
  }

  lemma FirstBrokenName(names: seq<string>) returns (n: nat)
    requires !AreLines(names)
    ensures n < |names| && !IsOneLine(names[n]) && AreLines(names[..n])
  {
    var broken :| 0 <= broken < |names| && !IsOneLine(names[broken]);
    n := 0;
    while IsOneLine(names[n])
      invariant n <= broken && AreLines(names[..n])
      decreases broken - n
    {
      assert names[..n + 1] == names[..n] + [names[n]];
      n := n + 1;
    }
  }

  lemma NamesBefore(timeName: string, names: seq<string>, n: nat)
    requires IsOneLine(timeName) && n < |names| && AreLines(names[..n])
    ensures var fields := [Escape(timeName)] + Names(names);
            AreLines(fields[..n + 1]) && AreClosed(fields[..n + 1]) && fields[n + 1] == Escape(names[n])
  {
    var before := ([Escape(timeName)] + Names(names))[..n + 1];
    forall i | 0 <= i < |before|
      ensures IsOneLine(before[i]) && IsProtected(before[i]) && !OddQuotes(before[i])
    {
      var name := if i == 0 then timeName else names[..n][i - 1];
      EscapedIsOneLine(name);
      EscapedIsProtected(name);
    }
  }

  lemma OpenHeaderIsRejected(found: seq<string>, before: seq<string>, cut: string)
    requires found != [] && before != [] && cut != "" && Unpack(cut).None?
    requires Merge(CsvRow(found[0])).fields == before + [cut]
    ensures !ReadHeader(found).Success?
  {
    var variables := before + [cut];
    assert DropPlaceholder(variables, variables) == variables;
    assert Unpacked(variables)[|before|].None?;
    assert UnpackAll(variables).None?;
  }

  // ----- a string with a line break

  lemma FailingLineFails(accepts: Accepts, header: Header, lines: seq<string>, k: nat)
    requires IsHeader(header) && k < |lines| && !ParseLine(accepts, header, lines[k]).Success?
    ensures !ParseRows(accepts, header, lines).Success?
  {
    RowsOneMore(accepts, header, lines, k);
    RowErrorsPersist(accepts, header, lines, k + 1);
  }

  lemma FieldsBefore(accepts: Accepts, ports: seq<PortID>, ev: LoggedEvent, n: nat)
    requires IsLoggable(accepts, ports, ev) && AreKnown(ports) && n < |ports|
    requires forall i :: 0 <= i < n ==> !BreaksAt(ports, ev, i)
    ensures var fields := [ev.time] + Fields(ports, ev); AreLines(fields[..n + 1]) && AreClosed(fields[..n + 1])
  {
    var before := ([ev.time] + Fields(ports, ev))[..n + 1];
    FieldsAreClosed(accepts, ports, ev);
    forall i | 0 <= i < |before|
      ensures IsOneLine(before[i]) && IsProtected(before[i]) && !OddQuotes(before[i])
    {
      if i > 0 {
        FieldIsOneLine(accepts, ports, ev, i - 1, UNKNOWN_TYPE);
        assert before[i] == Fields(ports, ev)[i - 1];
      }
    }
  }

  lemma BrokenEventRow(accepts: Accepts, ports: seq<PortID>, ev: LoggedEvent, n: nat, chars: string)
    returns (cut: string)
    requires IsLoggable(accepts, ports, ev) && AreKnown(ports) && n < |ports|
    requires forall i :: 0 <= i < n ==> !BreaksAt(ports, ev, i)
    requires Fields(ports, ev)[n] == Escape(chars) && !IsOneLine(chars)
    ensures var line := Row(ev.time, Fields(ports, ev));
            && !IsOneLine(line) && cut != "" && Unpack(cut).None?
            && Merge(CsvRow(line[..FirstBreak(line)])).fields == ([ev.time] + Fields(ports, ev))[..n + 1] + [cut]
  {
    var fields := [ev.time] + Fields(ports, ev);
    RowIsJoin(ev.time, Fields(ports, ev));
    FieldsBefore(accepts, ports, ev, n);
    CutLiteralIsOpen(chars);
    cut := BrokenRowIsOpen(fields, n + 1, Join(fields));
  }

  /** The first line of a row whose first broken field opens a string. */
  lemma BrokenRowIsOpen(fields: seq<string>, i: nat, line: string) returns (cut: string)
    requires 0 < i < |fields| && !IsOneLine(fields[i]) && AreLines(fields[..i]) && AreClosed(fields[..i])
    requires var part := fields[i][..FirstBreak(fields[i])]; part != "" && OddQuotes(part) && IsProtected(part)
    requires line == Join(fields)
    ensures !IsOneLine(line) && cut != "" && Unpack(cut).None?
    ensures Merge(CsvRow(line[..FirstBreak(line)])).fields == fields[..i] + [cut]
  {
    cut := fields[i][..FirstBreak(fields[i])];
    BrokenRow(fields, i);
    OpenRowIsRestored(fields[..i], cut);
    OpenStringIsNoLiteral(cut);
    JoinOneMore(fields[..i], cut);
  }

  /** The row ends as an open string: it has too few fields, or its last one is no string. */
  lemma BrokenEventIsRejected(accepts: Accepts, names: seq<string>, ports: seq<PortID>, ev: LoggedEvent, header: Header)
    requires |names| == |ports| && IsLoggable(accepts, ports, ev) && AreKnown(ports) && !IsUnbroken(ports, ev)
    requires IsHeader(header) && header == Header(names, Zip(names, KindsOf(ports)))
    ensures var line := Row(ev.time, Fields(ports, ev));
            !IsOneLine(line) && !ParseLine(accepts, header, line[..FirstBreak(line)]).Success?
  {
    var n, chars := FirstBroken(accepts, ports, ev);
    var cut := BrokenEventRow(accepts, ports, ev, n, chars);
    var before := ([ev.time] + Fields(ports, ev))[..n + 1];
    OpenRowIsRejected(accepts, names, ports, header, before, cut);
    var line := Row(ev.time, Fields(ports, ev));
    RejectedRow(accepts, header, line[..FirstBreak(line)], before + [cut]);
  }

  lemma RejectedRow(accepts: Accepts, header: Header, line: string, row: seq<string>)
    requires IsHeader(header) && Merge(CsvRow(line)).fields == row && !ParseRow(accepts, header, row).Success?
    ensures !ParseLine(accepts, header, line).Success?
  {
  }

  lemma FirstBroken(accepts: Accepts, ports: seq<PortID>, ev: LoggedEvent) returns (n: nat, chars: string)
    requires IsLoggable(accepts, ports, ev) && !IsUnbroken(ports, ev)
    ensures n < |ports| && forall i :: 0 <= i < n ==> !BreaksAt(ports, ev, i)
    ensures ports[n].kind == FmiString && !IsOneLine(chars) && Fields(ports, ev)[n] == Escape(chars)
  {
    n := 0;
    while !BreaksAt(ports, ev, n)
      invariant n < |ports| && forall i :: 0 <= i < n ==> !BreaksAt(ports, ev, i)
      decreases |ports| - n
    {
      n := n + 1;
    }
    chars := Find(ev.vars, ports[n]).value.chars;
  }

  lemma OpenRowIsRejected(accepts: Accepts, names: seq<string>, ports: seq<PortID>, header: Header,
                          before: seq<string>, cut: string)
    requires |names| == |ports| && 1 <= |before| <= |ports| && ports[|before| - 1].kind == FmiString
    requires IsHeader(header) && header == Header(names, Zip(names, KindsOf(ports)))
    requires cut != "" && Unpack(cut).None?
    ensures !ParseRow(accepts, header, before + [cut]).Success?
  {
    var row := before + [cut];
    ZipCounts(names, KindsOf(ports));
    if Distinct(names) && |row| == |names| + 1 {
      ZipLooksUp(names, KindsOf(ports), |names| - 1);
      assert row[|names|] == cut;
    }
  }

  // ----- the file

  lemma TextIsReadBack(accepts: Accepts, timeName: string, realName: string, lines: seq<string>,
                       names: seq<string>, ports: seq<PortID>, events: seq<LoggedEvent>)
    requires IsLog(accepts, names, ports, events) && IsOneLine(timeName) && IsOneLine(realName)
    requires Escape(timeName) == "\"time\"" && Escape(realName) == "\"fmiReal\""
    requires |lines| >= 2 && lines[2..] == EventLines(ports, events)
    requires lines[0] == Row(Escape(timeName), Names(names)) && lines[1] == Row(Escape(realName), TypeNames(ports))
    ensures var r := ParseFile(accepts, Lines(Terminated(lines)));
            if HasColumns(names, ports, events) && AreLines(names) && AreUnbroken(ports, events)
            then IsRestored(names, ports, events, r) else !r.Success?
  {
    if !AreLines(names) {
      BrokenHeaderIsRejected(accepts, timeName, lines, names);
    } else {
      NamesAreOneLine(timeName, names);
      TypesAreOneLine(realName, ports);
      if AreUnbroken(ports, events) {
        UnbrokenTextIsFound(accepts, lines, ports, events);
        FileIsReadBack(accepts, timeName, realName, lines, names, ports, events);
      } else {
        BrokenTextIsRejected(accepts, timeName, realName, lines, names, ports, events);
      }
    }
  }

  lemma BrokenHeaderIsRejected(accepts: Accepts, timeName: string, lines: seq<string>, names: seq<string>)
    requires IsOneLine(timeName) && !AreLines(names) && lines != [] && lines[0] == Row(Escape(timeName), Names(names))
    ensures !ParseFile(accepts, Lines(Terminated(lines))).Success?
  {
    LinesUpToBreak(lines, 0);
    BrokenNamesAreRejected(timeName, names, Lines(Terminated(lines)), lines[0]);
  }

  lemma UnbrokenTextIsFound(accepts: Accepts, lines: seq<string>, ports: seq<PortID>, events: seq<LoggedEvent>)
    requires forall k :: 0 <= k < |events| ==> IsLoggable(accepts, ports, events[k])
    requires AreUnbroken(ports, events)
    requires |lines| >= 2 && lines[2..] == EventLines(ports, events) && IsOneLine(lines[0]) && IsOneLine(lines[1])
    ensures Lines(Terminated(lines)) == lines
  {
    EventsAreLines(accepts, ports, events, |events|);
    HeaderAndEvents(lines, |events|);
    assert lines[..|lines|] == lines;
    AllLinesAreFound(lines);
  }

  lemma HeaderAndEvents(lines: seq<string>, n: nat)
    requires n + 2 <= |lines| && IsOneLine(lines[0]) && IsOneLine(lines[1]) && AreLines(lines[2..][..n])
    ensures AreLines(lines[..n + 2])
  {
    var part := lines[..n + 2];
    forall i | 0 <= i < |part|
      ensures IsOneLine(part[i])
    {
      assert i >= 2 ==> part[i] == lines[2..][..n][i - 2];
    }
  }

  lemma FirstBrokenEvent(ports: seq<PortID>, events: seq<LoggedEvent>) returns (n: nat)
    requires !AreUnbroken(ports, events)
    ensures n < |events| && !IsUnbroken(ports, events[n]) && forall k :: 0 <= k < n ==> IsUnbroken(ports, events[k])
  {
    n := 0;
    while IsUnbroken(ports, events[n])
      invariant n < |events| && forall k :: 0 <= k < n ==> IsUnbroken(ports, events[k])
      decreases |events| - n
    {
      n := n + 1;
    }
  }

  lemma BrokenTextIsRejected(accepts: Accepts, timeName: string, realName: string, lines: seq<string>,
                             names: seq<string>, ports: seq<PortID>, events: seq<LoggedEvent>)
    requires IsLog(accepts, names, ports, events) && !AreUnbroken(ports, events)
    requires Escape(timeName) == "\"time\"" && Escape(realName) == "\"fmiReal\""
    requires |lines| >= 2 && lines[2..] == EventLines(ports, events) && IsOneLine(lines[0]) && IsOneLine(lines[1])
    requires lines[0] == Row(Escape(timeName), Names(names)) && lines[1] == Row(Escape(realName), TypeNames(ports))
    ensures !ParseFile(accepts, Lines(Terminated(lines))).Success?
  {
    var n := FirstBrokenEvent(ports, events);
    EventsAreLines(accepts, ports, events, n);
    HeaderAndEvents(lines, n);
    FoundUpToBreak(lines, n + 2);
    assert lines[n + 2] == lines[2..][n];
    BrokenEventFails(accepts, timeName, realName, names, ports, events[n], Lines(Terminated(lines)), n);
  }

  lemma FoundUpToBreak(lines: seq<string>, k: nat)
    requires 2 <= k < |lines| && AreLines(lines[..k])
    ensures var found := Lines(Terminated(lines));
            && |found| >= k && found[0] == lines[0] && found[1] == lines[1]
            && (!IsOneLine(lines[k]) ==> |found| > k && found[k] == lines[k][..FirstBreak(lines[k])])
  {
    LinesUpToBreak(lines, k);
    var found := Lines(Terminated(lines));
    assert found[..k][0] == lines[..k][0] && found[..k][1] == lines[..k][1];
  }

  lemma BrokenEventFails(accepts: Accepts, timeName: string, realName: string, names: seq<string>, ports: seq<PortID>,
                         ev: LoggedEvent, found: seq<string>, n: nat)
    requires |names| == |ports| && IsLoggable(accepts, ports, ev) && !IsUnbroken(ports, ev)
    requires Escape(timeName) == "\"time\"" && Escape(realName) == "\"fmiReal\"" && |found| >= n + 2
    requires found[0] == Row(Escape(timeName), Names(names)) && found[1] == Row(Escape(realName), TypeNames(ports))
    requires var line := Row(ev.time, Fields(ports, ev));
             !IsOneLine(line) ==> |found| > n + 2 && found[n + 2] == line[..FirstBreak(line)]
    ensures !ParseFile(accepts, found).Success?
  {
    HeaderLinesAreRead(timeName, realName, found, names, ports);
    if AreKnown(ports) {
      var header := Header(names, Zip(names, KindsOf(ports)));
      ZipIsHeader(names, KindsOf(ports));
      BrokenEventIsRejected(accepts, names, ports, ev, header);
      BrokenLineIsRejected(accepts, header, found, n);
    }
  }

  lemma BrokenLineIsRejected(accepts: Accepts, header: Header, found: seq<string>, n: nat)
    requires IsHeader(header) && |found| > n + 2 && ReadHeader(found) == Success(header)
    requires !ParseLine(accepts, header, found[n + 2]).Success?
    ensures !ParseFile(accepts, found).Success?
  {
    assert found[2..][n] == found[n + 2];
    FailingLineFails(accepts, header, found[2..], n);
    FileOfParts(accepts, found, header);
  }

  lemma FixedNames() returns (timeName: string, realName: string)
    ensures IsOneLine(timeName) && Escape(timeName) == "\"time\""
    ensures IsOneLine(realName) && Escape(realName) == "\"fmiReal\"" && realName == "fmiReal"
  {
    timeName, realName := "time", "fmiReal";
    PlainIsJustQuoted(timeName, "\"time\"");
    PlainIsJustQuoted(realName, "\"fmiReal\"");
  }

  lemma PartsOfLog(names: seq<string>, ports: seq<PortID>, events: seq<LoggedEvent>)
    ensures var lines := LogLines(names, ports, events);
            && |lines| >= 2 && lines[2..] == EventLines(ports, events)
            && lines[0] == HeaderLines(names, ports)[0] && lines[1] == HeaderLines(names, ports)[1]
  {
    assert LogLines(names, ports, events)[2..] == EventLines(ports, events);
  }

  /** Reading the text that was logged restores the log if and only if all types are known,
      no name and no string has a line break, and there are no events, or there is at least
      one variable and no name is used twice. Otherwise reading fails. */
  lemma LogIsReadBack(accepts: Accepts, names: seq<string>, ports: seq<PortID>, events: seq<LoggedEvent>)
    requires IsLog(accepts, names, ports, events)
    ensures var r := ParseFile(accepts, Lines(Terminated(LogLines(names, ports, events))));
            if HasColumns(names, ports, events) && AreLines(names) && AreUnbroken(ports, events)
            then IsRestored(names, ports, events, r) else !r.Success?
  {
    var timeName, realName := FixedNames();
    PartsOfLog(names, ports, events);
    TextIsReadBack(accepts, timeName, realName, LogLines(names, ports, events), names, ports, events);
  }

  /** The logger and the reader, one after the other. */
  method WriteAndRead(accepts: Accepts, names: seq<string>, ports: seq<PortID>, events: seq<LoggedEvent>)
    returns (reader: Reader, read: seq<ParsedEvent>, r: Result<()>)
    requires IsLog(accepts, names, ports, events)
    ensures if HasColumns(names, ports, events) && AreLines(names) && AreUnbroken(ports, events)
            then r == Success(()) && read == ExpectedAll(names, ports, events)
                 && reader.nameList == names && reader.header == Zip(names, KindsOf(ports))
            else !r.Success?
  {
    var text := WriteLog(names, ports, events);
    LogIsReadBack(accepts, names, ports, events);
    reader := new Reader(accepts);
    read, r := reader.ReadFile(Lines(text));
  }
}
