/** The text encodings of the shared database access layer: result rows as tab- and
    newline-separated text, and SQL character string literals. */
module DbText {
  import opened Text

  /** A fetched cell: NULL, or a value already rendered as text (str or JSON text). */
  datatype Cell = Null | Value(text: string)

  function StringifyCell(c: Cell): string {
    match c
    case Null => ""
    case Value(t) => t
  }

  function StringifyRow(row: seq<Cell>): seq<string> {
    seq(|row|, i requires 0 <= i < |row| => StringifyCell(row[i]))
  }

  function Stringified(rows: seq<seq<Cell>>): seq<seq<string>> {
    seq(|rows|, i requires 0 <= i < |rows| => StringifyRow(rows[i]))
  }

  function RenderRow(row: seq<Cell>): string {
    Join("\t", StringifyRow(row))
  }

  function RenderRows(rows: seq<seq<Cell>>): seq<string> {
    seq(|rows|, i requires 0 <= i < |rows| => RenderRow(rows[i]))
  }

  /** The text run_psql returns. */
  function RunPsql(rows: seq<seq<Cell>>): string {
    Join("\n", RenderRows(rows))
  }

  /** The rows query_rows reads back from lines of text. */
  function RowsOfLines(lines: seq<string>): seq<seq<string>> {
    if lines == [] then []
    else
      var front := RowsOfLines(lines[..|lines| - 1]);
      var line := lines[|lines| - 1];
      if Strip(line) == "" then front else front + [SplitOn('\t', line)]
  }

  method QueryRows(fetched: seq<seq<Cell>>) returns (rows: seq<seq<string>>)
    ensures rows == RowsOfLines(SplitLines(RunPsql(fetched)))
  {
    rows := [];
    var lines := SplitLines(RunPsql(fetched));
    for i := 0 to |lines|
      invariant rows == RowsOfLines(lines[..i])
    {
      assert lines[..i + 1][..i] == lines[..i];
      if Strip(lines[i]) != "" {
        rows := rows + [SplitOn('\t', lines[i])];
      }
    }
    assert lines[..|lines|] == lines;
  }

  predicate CleanCell(text: string) {
    '\t' !in text && Lacks(text, IsLineBreak)
  }

  /** A row survives the trip when its cells hold no tab or line break and are not all blank. */
  predicate CleanRow(row: seq<string>) {
    && (forall j :: 0 <= j < |row| ==> CleanCell(row[j]))
    && exists j :: 0 <= j < |row| && !Blank(row[j])
  }

  lemma {:induction false} JoinBlank(parts: seq<string>)
    ensures Blank(Join("\t", parts)) <==> forall j :: 0 <= j < |parts| ==> Blank(parts[j])
  {
    if |parts| > 1 {
      var rest := Join("\t", parts[1..]);
      var s := parts[0] + "\t" + rest;
      JoinBlank(parts[1..]);
      if Blank(s) {
        forall i | 0 <= i < |parts[0]| ensures IsSpace(parts[0][i]) { assert s[i] == parts[0][i]; }
        forall i | 0 <= i < |rest| ensures IsSpace(rest[i]) { assert s[|parts[0]| + 1 + i] == rest[i]; }
        assert forall j :: 0 < j < |parts| ==> parts[j] == parts[1..][j - 1];
      }
      if forall j :: 0 <= j < |parts| ==> Blank(parts[j]) {
        assert Blank(parts[0]);
        assert forall j :: 0 <= j < |parts[1..]| ==> parts[1..][j] == parts[j + 1];
      }
    }
  }

  lemma {:induction false} JoinClean(parts: seq<string>)
    requires forall j :: 0 <= j < |parts| ==> CleanCell(parts[j])
    ensures Lacks(Join("\t", parts), IsLineBreak)
  {
    if |parts| > 1 { JoinClean(parts[1..]); }
  }

  /** Every row read back is clean, whatever was fetched. */
  lemma {:induction false} ReadRowsAreClean(lines: seq<string>)
    requires forall i :: 0 <= i < |lines| ==> Lacks(lines[i], IsLineBreak)
    ensures forall i :: 0 <= i < |RowsOfLines(lines)| ==> CleanRow(RowsOfLines(lines)[i])
  {
    if lines != [] {
      var line := lines[|lines| - 1];
      ReadRowsAreClean(lines[..|lines| - 1]);
      StripFacts(line);
      if !Blank(line) {
        var parts := SplitOn('\t', line);
        SplitParts('\t', line);
        PartsOfCleanLine(parts);
        JoinBlank(parts);
      }
    }
  }

  lemma {:induction false} PartsOfCleanLine(parts: seq<string>)
    requires Lacks(Join("\t", parts), IsLineBreak)
    ensures forall j :: 0 <= j < |parts| ==> Lacks(parts[j], IsLineBreak)
  {
    if |parts| > 1 {
      var rest := Join("\t", parts[1..]);
      var s := parts[0] + "\t" + rest;
      forall i | 0 <= i < |rest| ensures !IsLineBreak(rest[i]) { assert s[|parts[0]| + 1 + i] == rest[i]; }
      forall i | 0 <= i < |parts[0]| ensures !IsLineBreak(parts[0][i]) { assert s[i] == parts[0][i]; }
      PartsOfCleanLine(parts[1..]);
      assert forall j :: 0 < j < |parts| ==> parts[j] == parts[1..][j - 1];
    }
  }

  lemma {:induction false} CleanRowsReadBack(rows: seq<seq<string>>, lines: seq<string>)
    requires |lines| == |rows|
    requires forall i :: 0 <= i < |rows| ==> CleanRow(rows[i]) && lines[i] == Join("\t", rows[i])
    ensures RowsOfLines(lines) == rows
  {
    if rows != [] {
      var n := |rows| - 1;
      CleanRowsReadBack(rows[..n], lines[..n]);
      assert CleanRow(rows[n]);
      JoinBlank(rows[n]);
      StripFacts(lines[n]);
      SplitJoin('\t', rows[n]);
      assert rows == rows[..n] + [rows[n]];
    }
  }

  lemma RowAt(fetched: seq<seq<Cell>>, i: nat)
    requires i < |fetched|
    ensures Stringified(fetched)[i] == StringifyRow(fetched[i])
    ensures RenderRows(fetched)[i] == Join("\t", Stringified(fetched)[i])
  {
  }

  lemma CleanLines(fetched: seq<seq<Cell>>, rows: seq<seq<string>>, lines: seq<string>)
    requires rows == Stringified(fetched) && lines == RenderRows(fetched)
    requires forall i :: 0 <= i < |rows| ==> CleanRow(rows[i])
    ensures |lines| == |rows| && forall i :: 0 <= i < |rows| ==> lines[i] == Join("\t", rows[i])
    ensures forall i :: 0 <= i < |lines| ==> Lacks(lines[i], IsLineBreak) && lines[i] != ""
  {
    forall i | 0 <= i < |rows|
      ensures lines[i] == Join("\t", rows[i]) && Lacks(lines[i], IsLineBreak) && lines[i] != ""
    {
      RowAt(fetched, i);
      assert CleanRow(rows[i]);
      JoinClean(rows[i]);
      JoinBlank(rows[i]);
    }
  }

  lemma CleanRowsRoundTrip(rows: seq<seq<string>>, lines: seq<string>)
    requires |lines| == |rows| && forall i :: 0 <= i < |rows| ==> CleanRow(rows[i])
    requires forall i :: 0 <= i < |rows| ==> lines[i] == Join("\t", rows[i])
    requires forall i :: 0 <= i < |lines| ==> Lacks(lines[i], IsLineBreak) && lines[i] != ""
    ensures RowsOfLines(SplitLines(Join("\n", lines))) == rows
  {
    LinesJoin(IsLineBreak, lines);
    forall i | 0 <= i < |rows| ensures CleanRow(rows[i]) && lines[i] == Join("\t", rows[i]) {}
    CleanRowsReadBack(rows, lines);
  }

  /** The row encoding is undone exactly when every row is clean: nothing else reads back. */
  lemma RowsRoundTrip(fetched: seq<seq<Cell>>)
    ensures RowsOfLines(SplitLines(RunPsql(fetched))) == Stringified(fetched)
       <==> forall i :: 0 <= i < |fetched| ==> CleanRow(Stringified(fetched)[i])
  {
    var rows, lines := Stringified(fetched), RenderRows(fetched);
    LinesLack(IsLineBreak, RunPsql(fetched));
    ReadRowsAreClean(SplitLines(RunPsql(fetched)));
    if forall i :: 0 <= i < |rows| ==> CleanRow(rows[i]) {
      CleanLines(fetched, rows, lines);
      CleanRowsRoundTrip(rows, lines);
    }
  }

  /** The rows as texts, NULL as the empty one. */
  predicate Shows(rows: seq<seq<string>>, fetched: seq<seq<Cell>>) {
    && |rows| == |fetched|
    && forall i :: 0 <= i < |fetched| ==> ShowsRow(rows[i], fetched[i])
  }

  predicate ShowsRow(row: seq<string>, fetched: seq<Cell>) {
    && |row| == |fetched|
    && forall j :: 0 <= j < |fetched| ==> row[j] == if fetched[j].Null? then "" else fetched[j].text
  }

  /** A row reads back when no value holds a tab or line break and some value is not blank. */
  predicate ReadableRow(row: seq<Cell>) {
    && (forall j :: 0 <= j < |row| && row[j].Value? ==> '\t' !in row[j].text && Lacks(row[j].text, IsLineBreak))
    && exists j :: 0 <= j < |row| && row[j].Value? && !Blank(row[j].text)
  }

  lemma OneReadableRow(row: seq<Cell>)
    ensures CleanRow(StringifyRow(row)) <==> ReadableRow(row)
  {
    var texts := StringifyRow(row);
    if ReadableRow(row) {
      var j :| 0 <= j < |row| && row[j].Value? && !Blank(row[j].text);
      assert !Blank(texts[j]);
    }
    if CleanRow(texts) {
      forall j | 0 <= j < |row| && row[j].Value? ensures '\t' !in row[j].text && Lacks(row[j].text, IsLineBreak) {
        assert CleanCell(texts[j]);
      }
    }
  }

  lemma OnlyShown(rows: seq<seq<string>>, fetched: seq<seq<Cell>>)
    ensures Shows(rows, fetched) <==> rows == Stringified(fetched)
  {
    if Shows(rows, fetched) {
      forall i | 0 <= i < |rows| ensures rows[i] == StringifyRow(fetched[i]) { assert ShowsRow(rows[i], fetched[i]); }
    }
  }

  /** What was fetched is what is read, value by value, exactly when every row is readable. */
  lemma FetchedIsReadIff(fetched: seq<seq<Cell>>)
    ensures Shows(RowsOfLines(SplitLines(RunPsql(fetched))), fetched) <==> forall i :: 0 <= i < |fetched| ==> ReadableRow(fetched[i])
  {
    RowsRoundTrip(fetched);
    OnlyShown(RowsOfLines(SplitLines(RunPsql(fetched))), fetched);
    forall i | 0 <= i < |fetched| ensures CleanRow(Stringified(fetched)[i]) <==> ReadableRow(fetched[i]) {
      OneReadableRow(fetched[i]);
    }
  }

  /** The empty string and NULL are not told apart by the row encoding. */
  lemma NullReadsAsEmpty(before: seq<Cell>, after: seq<Cell>)
    ensures RenderRow(before + [Null] + after) == RenderRow(before + [Value("")] + after)
  {
    var nulls, empties := before + [Null] + after, before + [Value("")] + after;
    forall i | 0 <= i < |nulls| ensures StringifyCell(nulls[i]) == StringifyCell(empties[i]) {}
    assert StringifyRow(nulls) == StringifyRow(empties);
  }

  // ---------------------------------------------------------------- SQL literals

  /** str.replace("'", "''"). */
  function DoubleQuotes(s: string): string {
    if s == "" then ""
    else (if s[0] == '\'' then "''" else [s[0]]) + DoubleQuotes(s[1..])
  }

  function SqlLiteral(value: Cell): string {
    match value
    case Null => "NULL"
    case Value(t) => "'" + DoubleQuotes(t) + "'"
  }

  datatype Scan = NotALiteral | Literal(text: string, rest: string)

  /** A character string literal of section 5.3 of ISO/IEC 9075-2: quotes around characters in
      which a quote is written twice; the first unpaired quote ends it. */
  function ScanLiteral(input: string): Scan {
    if input != "" && input[0] == '\'' then ScanBody(input[1..]) else NotALiteral
  }

  function ScanBody(input: string): Scan {
    if input == "" then NotALiteral
    else if input[0] != '\'' then Prepend(input[0], ScanBody(input[1..]))
    else if |input| > 1 && input[1] == '\'' then Prepend('\'', ScanBody(input[2..]))
    else Literal("", input[1..])
  }

  function Prepend(c: char, s: Scan): Scan {
    match s
    case NotALiteral => NotALiteral
    case Literal(text, rest) => Literal([c] + text, rest)
  }

  function PrependAll(s: string, scan: Scan): Scan {
    if s == "" then scan else Prepend(s[0], PrependAll(s[1..], scan))
  }

  lemma {:induction false} PrependAllNone(s: string)
    ensures PrependAll(s, NotALiteral) == NotALiteral
  {
    if s != "" { PrependAllNone(s[1..]); }
  }

  lemma {:induction false} PrependAllText(s: string, text: string, rest: string)
    ensures PrependAll(s, Literal(text, rest)) == Literal(s + text, rest)
  {
    if s == "" {
      assert s + text == text;
    } else {
      PrependAllText(s[1..], text, rest);
      HeadFirst(s, text);
    }
  }

  lemma HeadFirst(s: string, text: string)
    requires s != ""
    ensures [s[0]] + (s[1..] + text) == s + text
  {
  }

  lemma ScanBodyStep(c: char, tail: string)
    ensures c != '\'' ==> ScanBody([c] + tail) == Prepend(c, ScanBody(tail))
    ensures ScanBody("''" + tail) == Prepend('\'', ScanBody(tail))
  {
    assert ([c] + tail)[1..] == tail;
    assert ("''" + tail)[2..] == tail;
  }

  lemma DoubleQuotesStep(s: string, after: string)
    requires s != ""
    ensures DoubleQuotes(s) + after ==
            (if s[0] == '\'' then "''" else [s[0]]) + (DoubleQuotes(s[1..]) + after)
  {
  }

  lemma {:induction false} ScanQuoted(s: string, after: string)
    ensures ScanBody(DoubleQuotes(s) + after) == PrependAll(s, ScanBody(after))
  {
    if s == "" {
      assert DoubleQuotes(s) + after == after;
    } else {
      DoubleQuotesStep(s, after);
      ScanBodyStep(s[0], DoubleQuotes(s[1..]) + after);
      ScanQuoted(s[1..], after);
    }
  }

  /** Scanning a rendered literal recovers the string and stops right after it, exactly when the
      text that follows does not begin with another quote. */
  lemma LiteralRoundTrip(s: string, rest: string)
    ensures ScanLiteral(SqlLiteral(Value(s)) + rest) == Literal(s, rest)
       <==> !StartsWith(rest, "'")
  {
    var input := SqlLiteral(Value(s)) + rest;
    assert input[1..] == DoubleQuotes(s) + ("'" + rest);
    ScanQuoted(s, "'" + rest);
    if StartsWith(rest, "'") {
      assert ("'" + rest)[2..] == rest[1..];
      var behind := ScanBody(rest[1..]);
      if behind.Literal? {
        PrependAllText(s, ['\''] + behind.text, behind.rest);
        assert |s + (['\''] + behind.text)| > |s|;
      } else {
        PrependAllNone(s);
      }
    } else {
      PrependAllText(s, "", rest);
      assert ("'" + rest)[1..] == rest;
      assert s + "" == s;
    }
  }

  /** NULL is never mistaken for a literal, so the encoding is injective on all values. */
  lemma LiteralInjective(a: Cell, b: Cell)
    requires SqlLiteral(a) == SqlLiteral(b)
    ensures a == b
  {
    LiteralStart(a);
    LiteralStart(b);
    if a.Value? && b.Value? {
      LiteralRoundTrip(a.text, "");
      LiteralRoundTrip(b.text, "");
      assert SqlLiteral(a) + "" == SqlLiteral(a) && SqlLiteral(b) + "" == SqlLiteral(b);
    }
  }

  lemma LiteralStart(a: Cell)
    ensures SqlLiteral(a) != "" && (SqlLiteral(a)[0] == '\'' <==> a.Value?)
    ensures a.Null? ==> SqlLiteral(a) == "NULL"
  {
  }
}
