/** How a text falls into lines. A line feed, a carriage return, or both in this order end a
    line. */
module CsvLines {
  import opened CsvText
  import opened CsvDataLogger

  predicate IsBreak(c: char) {
    c == '\n' || c == '\r'
  }

  predicate IsOneLine(s: string) {
    '\n' !in s && '\r' !in s
  }

  predicate AreLines(lines: seq<string>) {
    forall i :: 0 <= i < |lines| ==> IsOneLine(lines[i])
  }

  function FirstBreak(text: string): (n: nat)
    requires !IsOneLine(text)
    ensures n < |text| && IsBreak(text[n]) && IsOneLine(text[..n])
  {
    if IsBreak(text[0]) then 0
    else
      assert text == [text[0]] + text[1..];
      var n := 1 + FirstBreak(text[1..]);
      assert text[..n] == [text[0]] + text[1..][..n - 1];
      n
  }

  lemma FirstBreakIsUnique(text: string, n: nat)
    requires n < |text| && IsBreak(text[n]) && IsOneLine(text[..n])
    ensures !IsOneLine(text) && FirstBreak(text) == n
  {
    assert text[n] in text;
  }

  /** The break of the first text that has one is the break of all. */
  lemma FirstBreakWithin(head: string, s: string, rest: string)
    requires IsOneLine(head) && !IsOneLine(s)
    ensures !IsOneLine(head + (s + rest)) && FirstBreak(head + (s + rest)) == |head| + FirstBreak(s)
    ensures (head + (s + rest))[..|head| + FirstBreak(s)] == head + s[..FirstBreak(s)]
  {
    var (text, n) := (head + (s + rest), |head| + FirstBreak(s));
    assert text[n] == s[FirstBreak(s)];
    assert text[..n] == head + s[..FirstBreak(s)];
    FirstBreakIsUnique(text, n);
  }

  function NextLine(text: string): (n: nat)
    requires !IsOneLine(text)
    ensures 0 < n <= |text|
  {
    var n := FirstBreak(text);
    if text[n] == '\r' && n + 1 < |text| && text[n + 1] == '\n' then n + 2 else n + 1
  }

  function Lines(text: string): seq<string> {
    if text == "" then []
    else if IsOneLine(text) then [text]
    else [text[..FirstBreak(text)]] + Lines(text[NextLine(text)..])
  }

  lemma LinesOfOne(line: string, rest: string)
    requires IsOneLine(line)
    ensures Lines(line + "\n" + rest) == [line] + Lines(rest)
  {
    var text := line + "\n" + rest;
    assert text[|line|] == '\n' && text[..|line|] == line;
    FirstBreakIsUnique(text, |line|);
    assert text[|line| + 1..] == rest;
  }

  lemma {:induction false} LinesOfTerminated(lines: seq<string>, rest: string)
    requires AreLines(lines)
    ensures Lines(Terminated(lines) + rest) == lines + Lines(rest)
    decreases |lines|
  {
    if lines == [] {
      assert Terminated(lines) + rest == rest;
      assert lines + Lines(rest) == Lines(rest);
    } else {
      var n := |lines| - 1;
      var (before, line) := (Terminated(lines[..n]), lines[n]);
      TextOneMore(before, line, rest);
      LinesOfTerminated(lines[..n], line + "\n" + rest);
      LinesOfOne(line, rest);
      LinesOneMore(lines, n, Lines(rest));
    }
  }

  lemma TextOneMore(before: string, line: string, rest: string)
    ensures before + line + "\n" + rest == before + (line + "\n" + rest)
  {
  }

  lemma LinesOneMore(lines: seq<string>, n: nat, rest: seq<string>)
    requires n == |lines| - 1
    ensures lines[..n] + ([lines[n]] + rest) == lines + rest
  {
  }

  lemma AllLinesAreFound(lines: seq<string>)
    requires AreLines(lines)
    ensures Lines(Terminated(lines)) == lines
  {
    LinesOfTerminated(lines, "");
    assert Terminated(lines) + "" == Terminated(lines);
  }

  /** What follows the first k lines of a text. */
  lemma {:induction false} TextFromLine(lines: seq<string>, k: nat) returns (rest: string)
    requires k < |lines|
    ensures Terminated(lines) == Terminated(lines[..k]) + (lines[k] + rest)
  {
    var n := |lines| - 1;
    if k == n {
      rest := "\n";
      Associate(Terminated(lines[..n]), lines[n], "\n");
    } else {
      assert lines[..n][..k] == lines[..k];
      var r := TextFromLine(lines[..n], k);
      rest := r + (lines[n] + "\n");
      Associate(Terminated(lines[..n]), lines[n], "\n");
      Associate(Terminated(lines[..k]), lines[k] + r, lines[n] + "\n");
      Associate(lines[k], r, lines[n] + "\n");
    }
  }

  /** Up to the first line that has a break inside, the lines are found, and this one is cut
      at its break. */
  lemma LinesUpToBreak(lines: seq<string>, k: nat)
    requires k < |lines| && AreLines(lines[..k])
    ensures var found := Lines(Terminated(lines));
            && |found| >= k && found[..k] == lines[..k]
            && (!IsOneLine(lines[k]) ==> |found| > k && found[k] == lines[k][..FirstBreak(lines[k])])
  {
    var rest := TextFromLine(lines, k);
    LinesOfTerminated(lines[..k], lines[k] + rest);
    if !IsOneLine(lines[k]) {
      FirstBreakWithin("", lines[k], rest);
      assert "" + (lines[k] + rest) == lines[k] + rest;
      assert "" + lines[k][..FirstBreak(lines[k])] == lines[k][..FirstBreak(lines[k])];
    }
  }

  // ----- rows

  lemma EscapedIsOneLine(s: string)
    requires IsOneLine(s)
    ensures IsOneLine(Escape(s))
  {
    DoubledIsOneLine(s);
  }

  lemma {:induction false} DoubledIsOneLine(s: string)
    requires IsOneLine(s)
    ensures IsOneLine(Double(s))
  {
    if s != "" {
      DoubledIsOneLine(s[1..]);
    }
  }

  lemma {:induction false} JoinedIsOneLine(fields: seq<string>)
    requires AreLines(fields)
    ensures IsOneLine(Join(fields))
  {
    if |fields| > 1 {
      JoinedIsOneLine(fields[..|fields| - 1]);
    }
  }

  lemma RowIsOneLine(first: string, fields: seq<string>)
    requires IsOneLine(first) && AreLines(fields)
    ensures IsOneLine(Row(first, fields))
  {
    JoinedIsOneLine(fields);
  }

  // ----- broken rows

  lemma {:induction false} DoubleOfConcat(a: string, b: string)
    ensures Double(a + b) == Double(a) + Double(b)
  {
    if a == "" {
      assert a + b == b;
    } else {
      DoubleOfConcat(a[1..], b);
      assert (a + b)[1..] == a[1..] + b && (a + b)[0] == a[0];
      Associate(if a[0] == QUOTE then [QUOTE, QUOTE] else [a[0]], Double(a[1..]), Double(b));
    }
  }

  /** A literal that is cut at a line break inside is an open string. */
  lemma CutLiteralIsOpen(s: string)
    requires !IsOneLine(s)
    ensures !IsOneLine(Escape(s))
    ensures var cut := Escape(s)[..FirstBreak(Escape(s))]; cut != "" && OddQuotes(cut) && IsProtected(cut)
  {
    var n := FirstBreak(s);
    var (start, behind) := ([QUOTE] + Double(s[..n]), Double(s[n..]) + [QUOTE]);
    DoubleOfConcat(s[..n], s[n..]);
    assert s == s[..n] + s[n..];
    assert Escape(s) == start + behind;
    assert behind[0] == s[n];
    DoubledIsOneLine(s[..n]);
    assert Escape(s)[..|start|] == start && Escape(s)[|start|] == s[n];
    FirstBreakIsUnique(Escape(s), |start|);
    ProtectedOneMore("", QUOTE);
    assert "" + [QUOTE] == [QUOTE];
    DoubledKeepsParity([QUOTE], s[..n]);
  }

  lemma OpenStringIsNoLiteral(value: string)
    requires OddQuotes(value)
    ensures Unpack(value).None?
  {
    var r := Unpack(value);
    if r.Some? {
      UnpackInvertsEscape(value, r.value);
      EscapedIsProtected(r.value);
      ProtectedOneMore(Escape(r.value), '\n');
    }
  }

  /** What follows the first i fields of a row. */
  lemma {:induction false} RowFromField(fields: seq<string>, i: nat) returns (rest: string)
    requires 0 < i < |fields|
    ensures Join(fields) == (Join(fields[..i]) + [SEPARATOR]) + (fields[i] + rest)
  {
    var n := |fields| - 1;
    if i == n {
      rest := "";
      assert fields[n] + "" == fields[n];
    } else {
      assert fields[..n][..i] == fields[..i];
      var r := RowFromField(fields[..n], i);
      rest := r + ([SEPARATOR] + fields[n]);
      Associate(Join(fields[..n]), [SEPARATOR], fields[n]);
      Associate(Join(fields[..i]) + [SEPARATOR], fields[i] + r, [SEPARATOR] + fields[n]);
      Associate(fields[i], r, [SEPARATOR] + fields[n]);
    }
  }

  /** A row is cut within the first field that has a line break. */
  lemma BrokenRow(fields: seq<string>, i: nat)
    requires 0 < i < |fields| && !IsOneLine(fields[i]) && AreLines(fields[..i])
    ensures !IsOneLine(Join(fields))
    ensures Join(fields)[..FirstBreak(Join(fields))] == Join(fields[..i] + [fields[i][..FirstBreak(fields[i])]])
  {
    var (before, cut) := (fields[..i], fields[i][..FirstBreak(fields[i])]);
    var rest := RowFromField(fields, i);
    JoinedIsOneLine(before);
    FirstBreakWithin(Join(before) + [SEPARATOR], fields[i], rest);
    JoinOneMore(before, cut);
  }

  lemma JoinOneMore(fields: seq<string>, field: string)
    requires fields != []
    ensures Join(fields + [field]) == Join(fields) + [SEPARATOR] + field
  {
    assert (fields + [field])[..|fields|] == fields;
  }

  /** Every field is protected and complete. */
  predicate AreClosed(fields: seq<string>) {
    forall i :: 0 <= i < |fields| ==> IsProtected(fields[i]) && !OddQuotes(fields[i])
  }

  /** A last field may be an open string. */
  lemma OpenRowIsRestored(fields: seq<string>, cut: string)
    requires AreClosed(fields) && IsProtected(cut)
    ensures Merge(Split(Join(fields + [cut]))).fields == fields + [cut]
  {
    MergeRestoresFields(fields + [cut]);
  }
}
