/** The text level of the data files: strings are enclosed in quotes and inner quotes are
    doubled, fields are separated by semicolons (RFC 4180, section 2, rules 6 and 7, with
    another separator). */
module CsvText {
  import opened Fmi

  const QUOTE: char := '"'
  const SEPARATOR: char := ';'

  // ----- string literals

  function Double(s: string): string {
    if s == "" then ""
    else (if s[0] == QUOTE then [QUOTE, QUOTE] else [s[0]]) + Double(s[1..])
  }

  function Escape(s: string): string {
    [QUOTE] + Double(s) + [QUOTE]
  }

  /** What the pattern ([^"]|"")* matches as a whole. */
  predicate IsBody(body: string) {
    || body == ""
    || (body[0] != QUOTE && IsBody(body[1..]))
    || (|body| >= 2 && body[0] == QUOTE && body[1] == QUOTE && IsBody(body[2..]))
  }

  /** Replaces pairs of quotes from left to right. */
  function Undouble(body: string): string {
    if body == "" then ""
    else if |body| >= 2 && body[0] == QUOTE && body[1] == QUOTE then [QUOTE] + Undouble(body[2..])
    else [body[0]] + Undouble(body[1..])
  }

  /** The end of the pattern also matches in front of a final line break. */
  function WithoutFinalBreak(value: string): string {
    if value != "" && value[|value| - 1] == '\n' then value[..|value| - 1] else value
  }

  function Body(literal: string): string
    requires |literal| >= 2
  {
    literal[1..|literal| - 1]
  }

  predicate IsLiteral(literal: string) {
    |literal| >= 2 && literal[0] == QUOTE && literal[|literal| - 1] == QUOTE && IsBody(Body(literal))
  }

  function Unpack(value: string): Option<string> {
    var literal := WithoutFinalBreak(value);
    if IsLiteral(literal) then Some(Undouble(Body(literal))) else None
  }

  /** Doubling works character by character, and concerns quotes only. */
  lemma {:induction false} DoubleIsCharacterwise(s: string, c: char)
    ensures Double(s + [c]) == Double(s) + (if c == '"' then ['"', '"'] else [c])
  {
    if s == "" {
      assert s + [c] == [c];
      assert [c][1..] == s;
    } else {
      DoubleIsCharacterwise(s[1..], c);
      assert (s + [c])[1..] == s[1..] + [c];
    }
  }

  lemma {:induction false} UndoubleUndoes(s: string)
    ensures IsBody(Double(s)) && Undouble(Double(s)) == s
  {
    if s != "" {
      UndoubleUndoes(s[1..]);
      if s[0] == QUOTE {
        assert Double(s)[2..] == Double(s[1..]);
      } else {
        assert Double(s)[1..] == Double(s[1..]);
      }
    }
  }

  lemma {:induction false} DoubleUndoes(body: string)
    requires IsBody(body)
    ensures Double(Undouble(body)) == body
  {
    if body != "" {
      if body[0] == QUOTE {
        DoubleUndoes(body[2..]);
        assert Undouble(body)[1..] == Undouble(body[2..]);
      } else {
        DoubleUndoes(body[1..]);
        assert Undouble(body)[1..] == Undouble(body[1..]);
      }
    }
  }

  /** What the pattern accepts is the escaped form of what it unpacks to. */
  lemma LiteralIsEscaped(literal: string, s: string)
    ensures IsLiteral(literal) && Undouble(Body(literal)) == s <==> literal == Escape(s)
  {
    UndoubleUndoes(s);
    if IsLiteral(literal) {
      DoubleUndoes(Body(literal));
      assert literal == [QUOTE] + Body(literal) + [QUOTE];
    }
    assert Body(Escape(s)) == Double(s);
  }

  /** Unpacking accepts exactly the literals that escaping produces, give or take a final
      line break, and inverts it. */
  lemma UnpackInvertsEscape(value: string, s: string)
    ensures Unpack(value) == Some(s) <==> value == Escape(s) || value == Escape(s) + "\n"
  {
    LiteralIsEscaped(WithoutFinalBreak(value), s);
    FinalBreakIsOptional(value, Escape(s));
  }

  lemma FinalBreakIsOptional(value: string, literal: string)
    requires literal != "" && literal[|literal| - 1] == QUOTE
    ensures WithoutFinalBreak(value) == literal <==> value == literal || value == literal + "\n"
  {
    if value != "" && value[|value| - 1] == '\n' {
      assert value == value[..|value| - 1] + "\n";
    }
    assert (literal + "\n")[..|literal|] == literal;
  }

  // ----- fields

  function Join(fields: seq<string>): string {
    if fields == [] then ""
    else if |fields| == 1 then fields[0]
    else Join(fields[..|fields| - 1]) + [SEPARATOR] + fields[|fields| - 1]
  }

  function AppendToLast(fields: seq<string>, c: string): seq<string>
    requires fields != []
  {
    fields[..|fields| - 1] + [fields[|fields| - 1] + c]
  }

  /** Splits at every separator, whether it is quoted or not. */
  function Split(line: string): (fields: seq<string>)
    ensures fields != []
  {
    if line == "" then [""]
    else
      var n := |line| - 1;
      if line[n] == SEPARATOR then Split(line[..n]) + [""] else AppendToLast(Split(line[..n]), [line[n]])
  }

  predicate OddQuotes(s: string) {
    s != "" && (OddQuotes(s[..|s| - 1]) != (s[|s| - 1] == QUOTE))
  }

  /** The fields so far, and whether a quoted string is still open. */
  datatype Merged = Merged(fields: seq<string>, open: bool)

  /** Glues split fields together while a string is open. */
  function Merge(row: seq<string>): (m: Merged)
    ensures row != [] ==> m.fields != []
    ensures m.open ==> m.fields != []
  {
    if row == [] then Merged([], false)
    else
      var n := |row| - 1;
      var before := Merge(row[..n]);
      Merged(if before.open then AppendToLast(before.fields, [SEPARATOR] + row[n]) else before.fields + [row[n]],
             before.open != OddQuotes(row[n]))
  }

  /** Splits character by character at the separators outside of strings. */
  function QuoteAwareSplit(line: string): (m: Merged)
    ensures m.fields != []
  {
    if line == "" then Merged([""], false)
    else
      var n := |line| - 1;
      var (before, c) := (QuoteAwareSplit(line[..n]), line[n]);
      Merged(if c == SEPARATOR && !before.open then before.fields + [""] else AppendToLast(before.fields, [c]),
             before.open != (c == QUOTE))
  }

  lemma MergeOneMore(row: seq<string>, field: string)
    ensures Merge(row + [field])
         == Merged(if Merge(row).open then AppendToLast(Merge(row).fields, [SEPARATOR] + field)
                   else Merge(row).fields + [field],
                   Merge(row).open != OddQuotes(field))
  {
    assert (row + [field])[..|row|] == row;
  }

  lemma MergeLongerLast(row: seq<string>, field: string, c: char)
    ensures Merge(row + [field + [c]])
         == Merged(AppendToLast(Merge(row + [field]).fields, [c]), Merge(row + [field]).open != (c == QUOTE))
  {
    MergeOneMore(row, field);
    MergeOneMore(row, field + [c]);
    assert (field + [c])[..|field|] == field;
    var m := Merge(row);
    if m.open {
      var last := m.fields[|m.fields| - 1];
      assert last + ([SEPARATOR] + (field + [c])) == (last + ([SEPARATOR] + field)) + [c];
    }
  }

  /** The naive split with the repair afterwards is the same as splitting with an eye on the
      quotes, on every line. */
  lemma {:induction false} MergeRepairsSplit(line: string)
    ensures Merge(Split(line)) == QuoteAwareSplit(line)
  {
    if line == "" {
      assert [""][..0] == [];
    } else {
      var n := |line| - 1;
      MergeRepairsSplit(line[..n]);
      var fields := Split(line[..n]);
      if line[n] == SEPARATOR {
        MergeOneMore(fields, "");
        assert [SEPARATOR] + "" == [line[n]];
      } else {
        var k := |fields| - 1;
        assert fields == fields[..k] + [fields[k]];
        MergeLongerLast(fields[..k], fields[k], line[n]);
      }
    }
  }

  /** Every separator within the field is quoted. */
  predicate IsProtected(field: string) {
    forall i :: 0 <= i < |field| && field[i] == SEPARATOR ==> OddQuotes(field[..i])
  }

  /** All separators are quoted, and only the last field may end inside a string. */
  predicate AreProtected(fields: seq<string>) {
    forall i :: 0 <= i < |fields| ==> IsProtected(fields[i]) && (OddQuotes(fields[i]) ==> i == |fields| - 1)
  }

  lemma ProtectedOneMore(field: string, c: char)
    ensures IsProtected(field + [c]) <==> IsProtected(field) && (c == SEPARATOR ==> OddQuotes(field))
    ensures OddQuotes(field + [c]) <==> OddQuotes(field) != (c == QUOTE)
  {
    var longer := field + [c];
    assert longer[..|field|] == field;
    assert forall i :: 0 <= i < |field| ==> longer[..i] == field[..i] && longer[i] == field[i];
    assert longer[|field|] == c;
  }

  lemma {:induction false} QuoteAwareFieldsAreProtected(line: string)
    ensures var m := QuoteAwareSplit(line);
            AreProtected(m.fields) && (m.open <==> OddQuotes(m.fields[|m.fields| - 1]))
  {
    if line != "" {
      var n := |line| - 1;
      QuoteAwareFieldsAreProtected(line[..n]);
      var before := QuoteAwareSplit(line[..n]);
      ProtectedOneMore(before.fields[|before.fields| - 1], line[n]);
    }
  }

  /** Appending a protected field to a line that ends outside of strings. */
  lemma {:induction false} SplitAppendsField(line: string, field: string)
    requires !QuoteAwareSplit(line).open && IsProtected(field)
    ensures QuoteAwareSplit(line + field)
         == Merged(AppendToLast(QuoteAwareSplit(line).fields, field), OddQuotes(field))
  {
    var m := QuoteAwareSplit(line);
    if field == "" {
      assert line + field == line;
      assert m.fields[|m.fields| - 1] + "" == m.fields[|m.fields| - 1];
    } else {
      var n := |field| - 1;
      assert field == field[..n] + [field[n]];
      ProtectedOneMore(field[..n], field[n]);
      SplitAppendsField(line, field[..n]);
      assert (line + field)[..|line + field| - 1] == line + field[..n];
      var last := m.fields[|m.fields| - 1];
      assert (last + field[..n]) + [field[n]] == last + field;
    }
  }

  lemma SplitAppendsSeparator(line: string)
    requires !QuoteAwareSplit(line).open
    ensures QuoteAwareSplit(line + [SEPARATOR]) == Merged(QuoteAwareSplit(line).fields + [""], false)
  {
    assert (line + [SEPARATOR])[..|line|] == line;
  }

  lemma {:induction false} ProtectedFieldsSurvive(fields: seq<string>)
    requires fields != [] && AreProtected(fields)
    ensures QuoteAwareSplit(Join(fields)) == Merged(fields, OddQuotes(fields[|fields| - 1]))
  {
    var n := |fields| - 1;
    assert fields == fields[..n] + [fields[n]];
    if n == 0 {
      SplitAppendsField("", fields[0]);
      assert "" + fields[0] == fields[0];
    } else {
      var line := Join(fields[..n]);
      ProtectedFieldsSurvive(fields[..n]);
      assert !OddQuotes(fields[n - 1]);
      SplitAppendsSeparator(line);
      SplitAppendsField(line + [SEPARATOR], fields[n]);
      LastOfExtended(fields[..n], fields[n]);
    }
  }

  lemma LastOfExtended(fields: seq<string>, field: string)
    ensures AppendToLast(fields + [""], field) == fields + [field]
  {
    assert "" + field == field;
  }

  /** Reading a joined line restores its fields if and only if all separators within them
      are quoted and no field but the last one ends inside a string. */
  lemma MergeRestoresFields(fields: seq<string>)
    requires fields != []
    ensures Merge(Split(Join(fields))).fields == fields <==> AreProtected(fields)
  {
    MergeRepairsSplit(Join(fields));
    QuoteAwareFieldsAreProtected(Join(fields));
    if AreProtected(fields) {
      ProtectedFieldsSurvive(fields);
    }
  }

  // ----- what the logger writes is protected

  lemma {:induction false} DoubledKeepsParity(prefix: string, s: string)
    requires OddQuotes(prefix) && IsProtected(prefix)
    ensures OddQuotes(prefix + Double(s)) && IsProtected(prefix + Double(s))
    decreases |s|
  {
    if s == "" {
      assert prefix + Double(s) == prefix;
    } else {
      var head := if s[0] == QUOTE then [QUOTE, QUOTE] else [s[0]];
      assert prefix + Double(s) == (prefix + head) + Double(s[1..]);
      if s[0] == QUOTE {
        ProtectedOneMore(prefix, QUOTE);
        ProtectedOneMore(prefix + [QUOTE], QUOTE);
        assert prefix + head == (prefix + [QUOTE]) + [QUOTE];
      } else {
        ProtectedOneMore(prefix, s[0]);
      }
      DoubledKeepsParity(prefix + head, s[1..]);
    }
  }

  lemma EscapedIsProtected(s: string)
    ensures IsProtected(Escape(s)) && !OddQuotes(Escape(s))
  {
    ProtectedOneMore("", QUOTE);
    assert "" + [QUOTE] == [QUOTE];
    DoubledKeepsParity([QUOTE], s);
    ProtectedOneMore([QUOTE] + Double(s), QUOTE);
  }

  predicate IsPlain(token: string) {
    QUOTE !in token && SEPARATOR !in token
  }

  lemma {:induction false} PlainIsProtected(token: string)
    requires IsPlain(token)
    ensures IsProtected(token) && !OddQuotes(token)
  {
    if token != "" {
      PlainIsProtected(token[..|token| - 1]);
    }
  }
}
