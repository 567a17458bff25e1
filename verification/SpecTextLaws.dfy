/** Headings, rows and tables as a hand may write them: what is recognised, what is read, and exactly
    what is refused. */
module SpecTextLaws {
  import opened Wrappers
  import opened Text
  import opened SpecTables

  // ---------------------------------------------------------------- headings

  /** A heading is any line of four characters or more that starts with two signs and white space. */
  lemma HeadingIff(line: string)
    ensures SectionTitle(line).Some? <==> |line| >= 4 && line[0] == '#' && line[1] == '#' && IsSpace(line[2])
  {
    if |line| >= 3 {
      assert line[..2] == "##" <==> line[0] == '#' && line[1] == '#';
      StripFacts(line[2..]);
      if |line| == 3 { assert line[2..] == [line[2]]; }
    }
  }

  /** A heading of white space alone is titled by its last character. */
  lemma BlankHeading(gap: string)
    requires Blank(gap) && |gap| >= 2
    ensures SectionTitle("##" + gap) == Some([gap[|gap| - 1]])
  {
    var line := "##" + gap;
    assert line[..2] == "##" && line[2..] == gap && line[2] == gap[0];
    StripBlankIsEmpty(gap);
    assert gap[|gap| - 1..] == [gap[|gap| - 1]];
  }

  lemma HeadingRead(gap: string, title: string, trail: string)
    requires gap != "" && Blank(gap) && title != "" && Trimmed(title) && Blank(trail)
    ensures SectionTitle("##" + gap + title + trail) == Some(title)
  {
    var line := "##" + gap + title + trail;
    assert line[..2] == "##" && line[2..] == gap + title + trail && line[2] == gap[0];
    StripPadded(gap, title, trail);
  }

  // ---------------------------------------------------------------- rows

  predicate AllTicks(s: string) {
    forall i :: 0 <= i < |s| ==> s[i] == '`'
  }

  /** How a cell may be written: its text between ticks, between blanks. */
  predicate CellShape(cell: string, text: string, before: string, open: string, close: string, after: string) {
    && cell == before + (open + text + close) + after
    && Blank(before) && Blank(after) && AllTicks(open) && AllTicks(close)
    && Trimmed(open + text + close)
    && (text == "" || (text[0] != '`' && text[|text| - 1] != '`'))
  }

  ghost predicate WritesCell(cell: string, text: string) {
    exists before, open, close, after :: CellShape(cell, text, before, open, close, after)
  }

  lemma TicksDropped(open: string, text: string, close: string)
    requires AllTicks(open) && AllTicks(close) && (text == "" || (text[0] != '`' && text[|text| - 1] != '`'))
    ensures StripTicks(open + text + close) == text
  {
    var tick := (c: char) => c == '`';
    assert open + text + close == open + (text + close);
    LStripBlank(tick, open, text + close);
    if text == "" {
      assert text + close == close && close + "" == close;
      LStripBlank(tick, close, "");
    } else {
      assert (text + close)[0] == text[0];
      RStripBlank(tick, text, close);
    }
  }

  lemma CellRead(cell: string, text: string)
    requires WritesCell(cell, text)
    ensures StripTicks(Strip(cell)) == text
  {
    var before, open, close, after :| CellShape(cell, text, before, open, close, after);
    StripPadded(before, open + text + close, after);
    TicksDropped(open, text, close);
  }

  lemma EdgesDropped(before: string, inner: string, after: string)
    requires Blank(before) && Blank(after)
    ensures SplitTableRow(before + ("|" + inner + "|") + after) == Ok(CleanCells(SplitOn('|', inner)))
  {
    var row := "|" + inner + "|";
    assert row[0] == '|' && row[|row| - 1] == '|' && row[1..|row| - 1] == inner;
    StripPadded(before, row, after);
    assert row[..1] == "|" && row[|row| - 1..] == "|";
  }

  lemma AllCellsRead(cells: seq<string>, texts: seq<string>)
    requires |texts| == |cells| && forall i :: 0 <= i < |cells| ==> WritesCell(cells[i], texts[i])
    ensures CleanCells(cells) == texts
  {
    forall i | 0 <= i < |cells| ensures StripTicks(Strip(cells[i])) == texts[i] { CellRead(cells[i], texts[i]); }
  }

  /** A row of cells so written, blanks around it allowed, reads as their texts. */
  lemma WrittenRowRead(before: string, cells: seq<string>, after: string, texts: seq<string>)
    requires Blank(before) && Blank(after) && cells != [] && |texts| == |cells|
    requires forall i :: 0 <= i < |cells| ==> '|' !in cells[i] && WritesCell(cells[i], texts[i])
    ensures SplitTableRow(before + ("|" + Join("|", cells) + "|") + after) == Ok(texts)
  {
    EdgesDropped(before, Join("|", cells), after);
    SplitJoin('|', cells);
    AllCellsRead(cells, texts);
  }

  /** A line is refused as a row exactly when, trimmed, it does not begin and end with a pipe. */
  lemma RowReadsIff(line: string)
    ensures SplitTableRow(line).Ok? <==> Strip(line) != "" && Strip(line)[0] == '|' && Strip(line)[|Strip(line)| - 1] == '|'
  {
    var s := Strip(line);
    if s != "" {
      assert s[..1] == "|" <==> s[0] == '|';
      assert s[|s| - 1..] == "|" <==> s[|s| - 1] == '|';
    }
  }

  // ---------------------------------------------------------------- tables

  /** A line belongs to a table when its first character that is no white space is a pipe. */
  lemma TableLineIff(line: string)
    ensures IsTableLine(line) <==> exists i :: 0 <= i < |line| && line[i] == '|' && Blank(line[..i])
  {
    var k := LStripCut(IsSpace, line);
    if IsTableLine(line) {
      assert line[k..][..1] == "|";
      assert line[k] == '|' && Blank(line[..k]);
    }
    if i :| 0 <= i < |line| && line[i] == '|' && Blank(line[..i]) {
      FirstNonBlank(line, i, k);
      assert line[k..][..1] == "|";
    }
  }

  lemma FirstNonBlank(line: string, i: nat, k: nat)
    requires i < |line| && !IsSpace(line[i]) && Blank(line[..i])
    requires k <= |line| && (forall j :: 0 <= j < k ==> IsSpace(line[j])) && (k < |line| ==> !IsSpace(line[k]))
    ensures k == i
  {
    forall j | 0 <= j < i ensures IsSpace(line[j]) { assert line[..i][j] == line[j]; }
  }

  /** Any number of blank lines may stand between a heading and its table. */
  lemma {:induction false} BlanksSkipped(blanks: seq<string>, lines: seq<string>)
    requires forall i :: 0 <= i < |blanks| ==> Blank(blanks[i])
    ensures LeadingBlank(blanks + lines) == |blanks| + LeadingBlank(lines)
  {
    if blanks == [] {
      assert blanks + lines == lines;
    } else {
      StripFacts(blanks[0]);
      BlanksSkipped(blanks[1..], lines);
      assert (blanks + lines)[1..] == blanks[1..] + lines;
    }
  }

  predicate RowOfWidth(line: string, width: nat) {
    SplitTableRow(line).Ok? && |SplitTableRow(line).value| == width
  }

  /** All rows were read, each from its own line; or some line is not a row of the width. */
  ghost predicate RowsFrom(headers: seq<string>, lines: seq<string>, rows: Result<seq<map<string, string>>, TableError>) {
    match rows
    case Ok(read) => |read| == |lines| && forall i :: 0 <= i < |lines| ==> RowFrom(headers, lines[i], read[i])
    case Err(_) => exists i :: 0 <= i < |lines| && !RowOfWidth(lines[i], |headers|)
  }

  predicate RowFrom(headers: seq<string>, line: string, row: map<string, string>) {
    RowOfWidth(line, |headers|) && row == RowMap(headers, SplitTableRow(line).value)
  }

  lemma ParseRowsThen(headers: seq<string>, front: seq<string>, line: string)
    ensures var rows := ParseRows(headers, front + [line]);
            && (rows.Ok? <==> ParseRows(headers, front).Ok? && RowOfWidth(line, |headers|))
            && (rows.Ok? ==> rows.value == ParseRows(headers, front).value + [RowMap(headers, SplitTableRow(line).value)])
  {
    assert (front + [line])[..|front|] == front;
  }

  lemma RowsFromStep(headers: seq<string>, front: seq<string>, line: string,
      rows: Result<seq<map<string, string>>, TableError>, more: Result<seq<map<string, string>>, TableError>)
    requires RowsFrom(headers, front, rows)
    requires more.Ok? <==> rows.Ok? && RowOfWidth(line, |headers|)
    requires more.Ok? ==> more.value == rows.value + [RowMap(headers, SplitTableRow(line).value)]
    ensures RowsFrom(headers, front + [line], more)
  {
    var lines := front + [line];
    if rows.Err? {
      var i :| 0 <= i < |front| && !RowOfWidth(front[i], |headers|);
      assert !RowOfWidth(lines[i], |headers|);
    } else if more.Err? {
      assert !RowOfWidth(lines[|front|], |headers|);
    } else {
      forall i | 0 <= i < |lines| ensures RowFrom(headers, lines[i], more.value[i]) {
        if i < |front| { assert RowFrom(headers, front[i], rows.value[i]); }
      }
    }
  }

  lemma RowsGrow(headers: seq<string>, front: seq<string>, line: string)
    requires RowsFrom(headers, front, ParseRows(headers, front))
    ensures RowsFrom(headers, front + [line], ParseRows(headers, front + [line]))
  {
    ParseRowsThen(headers, front, line);
    RowsFromStep(headers, front, line, ParseRows(headers, front), ParseRows(headers, front + [line]));
  }

  /** What holds of no lines, and of more lines when of fewer, holds of all. */
  lemma {:induction false} LineByLine(p: seq<string> -> bool, lines: seq<string>)
    requires p([]) && forall front, line {:trigger p(front + [line])} :: p(front) ==> p(front + [line])
    ensures p(lines)
  {
    if lines != [] {
      LineByLine(p, lines[..|lines| - 1]);
      assert lines == lines[..|lines| - 1] + [lines[|lines| - 1]];
    }
  }

  lemma RowsReadIff(headers: seq<string>, lines: seq<string>)
    ensures RowsFrom(headers, lines, ParseRows(headers, lines))
  {
    var read := (some: seq<string>) => RowsFrom(headers, some, ParseRows(headers, some));
    forall front, line | read(front) ensures read(front + [line]) { RowsGrow(headers, front, line); }
    LineByLine(read, lines);
  }

  /** What a table of these lines must be. */
  ghost predicate TableFrom(lines: seq<string>, table: Result<Table, TableError>) {
    match table
    case Ok(t) =>
      && |lines| >= 2 && SplitTableRow(lines[0]) == Ok(t.headers) && RowOfWidth(lines[1], |t.headers|)
      && |t.rows| == |lines| - 2 && forall i :: 2 <= i < |lines| ==> RowFrom(t.headers, lines[i], t.rows[i - 2])
    case Err(_) =>
      || |lines| < 2 || SplitTableRow(lines[0]).Err?
      || exists i :: 1 <= i < |lines| && !RowOfWidth(lines[i], |SplitTableRow(lines[0]).value|)
  }

  /** A table is read exactly when it has two lines or more and every line is a row of the width of
      the first; the second line is not looked at otherwise. */
  lemma TableReadsIff(lines: seq<string>)
    ensures TableFrom(lines, ParseTable(lines))
  {
    if |lines| >= 2 && SplitTableRow(lines[0]).Ok? {
      var headers := SplitTableRow(lines[0]).value;
      if !RowOfWidth(lines[1], |headers|) {
      } else {
        RowsReadIff(headers, lines[2..]);
        RowsOfTable(headers, lines, ParseRows(headers, lines[2..]));
      }
    }
  }

  lemma RowsOfTable(headers: seq<string>, lines: seq<string>, rows: Result<seq<map<string, string>>, TableError>)
    requires |lines| >= 2 && RowsFrom(headers, lines[2..], rows)
    ensures rows.Ok? ==>
            |rows.value| == |lines| - 2 && forall i :: 2 <= i < |lines| ==> RowFrom(headers, lines[i], rows.value[i - 2])
    ensures rows.Err? ==> exists i :: 1 <= i < |lines| && !RowOfWidth(lines[i], |headers|)
  {
    if rows.Ok? {
      forall i | 2 <= i < |lines| ensures RowFrom(headers, lines[i], rows.value[i - 2]) {
        assert RowFrom(headers, lines[2..][i - 2], rows.value[i - 2]);
      }
    } else {
      var i :| 0 <= i < |lines[2..]| && !RowOfWidth(lines[2..][i], |headers|);
      assert lines[i + 2] == lines[2..][i];
    }
  }
}
