/** Scanning the canonical rendering of section tables gives the tables back. */
module SpecTableLaws {
  import opened Wrappers
  import opened Text
  import opened SpecTables

  // ---------------------------------------------------------------- one row

  lemma TicksKept(c: string)
    requires c == "" || (c[0] != '`' && c[|c| - 1] != '`')
    ensures StripTicks(c) == c
  {
  }

  lemma PaddedCells(cells: seq<string>)
    requires CarriedRow(cells)
    ensures CleanCells(Padded(cells)) == cells
    ensures forall i :: 0 <= i < |cells| ==> '|' !in Padded(cells)[i]
  {
    forall i | 0 <= i < |cells| ensures CleanCells(Padded(cells))[i] == cells[i] && '|' !in Padded(cells)[i] {
      assert CarriedCell(cells[i]);
      StripPadded(" ", cells[i], " ");
      TicksKept(cells[i]);
    }
  }

  lemma RowShape(cells: seq<string>)
    ensures var line := RenderRow(cells);
            |line| >= 2 && line[0] == '|' && line[|line| - 1] == '|' && line[1..|line| - 1] == Join("|", Padded(cells))
  {
  }

  lemma PipeEdged(line: string)
    requires |line| >= 2 && line[0] == '|' && line[|line| - 1] == '|'
    ensures Strip(line) == line && StartsWith(line, "|") && EndsWith(line, "|") && LStripIf(IsSpace, line) == line
  {
    StripFacts(line);
    PipeEnds(line);
  }

  lemma PipeEnds(line: string)
    requires |line| >= 2 && line[0] == '|' && line[|line| - 1] == '|'
    ensures StartsWith(line, "|") && EndsWith(line, "|")
  {
    assert line[..1] == "|" && line[|line| - 1..] == "|";
  }

  /** A rendered row splits back into its cells. */
  lemma RowRoundTrip(cells: seq<string>)
    requires cells != [] && CarriedRow(cells)
    ensures SplitTableRow(RenderRow(cells)) == Ok(cells)
    ensures IsTableLine(RenderRow(cells))
  {
    RowShape(cells);
    PipeEdged(RenderRow(cells));
    PaddedCells(cells);
    SplitJoin('|', Padded(cells));
  }

  // ---------------------------------------------------------------- one table

  lemma ParseRowsStep(headers: seq<string>, lines: seq<string>, rows: seq<map<string, string>>, line: string, cells: seq<string>)
    requires ParseRows(headers, lines) == Ok(rows) && SplitTableRow(line) == Ok(cells) && |cells| == |headers|
    ensures ParseRows(headers, lines + [line]) == Ok(rows + [RowMap(headers, cells)])
  {
    assert (lines + [line])[..|lines|] == lines;
  }

  predicate CarriedRows(width: nat, rows: seq<seq<string>>) {
    forall i :: 0 <= i < |rows| ==> |rows[i]| == width && CarriedRow(rows[i])
  }

  lemma {:induction false} RowsRoundTrip(headers: seq<string>, rows: seq<seq<string>>)
    requires headers != [] && CarriedRows(|headers|, rows)
    ensures ParseRows(headers, RenderRows(rows)) == Ok(RowMaps(headers, rows))
  {
    if rows != [] {
      var n := |rows| - 1;
      RowsRoundTrip(headers, rows[..n]);
      RowRoundTrip(rows[n]);
      ParseRowsStep(headers, RenderRows(rows[..n]), RowMaps(headers, rows[..n]), RenderRow(rows[n]), rows[n]);
    }
  }

  lemma {:induction false} RenderedAreTableLines(width: nat, rows: seq<seq<string>>)
    requires width > 0 && CarriedRows(width, rows)
    ensures forall i :: 0 <= i < |RenderRows(rows)| ==> IsTableLine(RenderRows(rows)[i])
  {
    if rows != [] {
      RenderedAreTableLines(width, rows[..|rows| - 1]);
      RowRoundTrip(rows[|rows| - 1]);
    }
  }

  lemma DelimitersCarried(headers: seq<string>)
    ensures CarriedRow(Delimiters(headers))
  {
  }

  lemma TableRoundTrip(s: Section)
    requires Canonical(s)
    ensures ParseTable(TableLines(s)) == Ok(TableOf(s))
  {
    RowRoundTrip(s.headers);
    DelimitersCarried(s.headers);
    RowRoundTrip(Delimiters(s.headers));
    RowsRoundTrip(s.headers, s.rows);
    assert TableLines(s)[2..] == RenderRows(s.rows);
  }

  lemma TableLinesAreTableLines(s: Section)
    requires Canonical(s)
    ensures forall i :: 0 <= i < |TableLines(s)| ==> IsTableLine(TableLines(s)[i])
  {
    RowRoundTrip(s.headers);
    DelimitersCarried(s.headers);
    RowRoundTrip(Delimiters(s.headers));
    RenderedAreTableLines(|s.headers|, s.rows);
    AllTableLines(RenderRow(s.headers), RenderRow(Delimiters(s.headers)), RenderRows(s.rows));
  }

  lemma AllTableLines(first: string, second: string, rest: seq<string>)
    requires IsTableLine(first) && IsTableLine(second) && forall i :: 0 <= i < |rest| ==> IsTableLine(rest[i])
    ensures forall i :: 0 <= i < |[first, second] + rest| ==> IsTableLine(([first, second] + rest)[i])
  {
  }

  lemma {:induction false} AllTable(lines: seq<string>)
    requires forall i :: 0 <= i < |lines| ==> IsTableLine(lines[i])
    ensures LeadingTable(lines) == |lines|
  {
    if lines != [] { AllTable(lines[1..]); }
  }

  lemma LineSkipped(line: string, more: seq<string>, tables: map<string, Table>)
    requires SectionTitle(line).None?
    ensures Scan(ParseTable, [line] + more, tables) == Scan(ParseTable, more, tables)
  {
    assert ([line] + more)[1..] == more;
  }

  /** A function of lines that ignores each of these lines in front ignores them all. */
  lemma {:induction false} SkipAll<R>(f: seq<string> -> R, skipped: seq<string>, more: seq<string>)
    requires forall line, rest {:trigger f([line] + rest)} :: line in skipped ==> f([line] + rest) == f(rest)
    ensures f(skipped + more) == f(more)
  {
    if skipped == [] {
      assert skipped + more == more;
    } else {
      var rest := skipped[1..];
      SkipAll(f, rest, more);
      assert skipped + more == [skipped[0]] + (rest + more);
    }
  }

  lemma ProseSkipped(prose: seq<string>, more: seq<string>, tables: map<string, Table>)
    requires Prose(prose)
    ensures Scan(ParseTable, prose + more, tables) == Scan(ParseTable, more, tables)
  {
    var scan := (lines: seq<string>) => Scan(ParseTable, lines, tables);
    forall line, rest | line in prose ensures scan([line] + rest) == scan(rest) { LineSkipped(line, rest, tables); }
    SkipAll(scan, prose, more);
  }

  lemma HeadingTitle(title: string)
    requires title != "" && Trimmed(title)
    ensures SectionTitle("## " + title) == Some(title)
  {
    var line := "## " + title;
    assert line[..2] == "##" && line[2..] == " " + title;
    StripPadded(" ", title, "");
    assert " " + title + "" == " " + title;
  }

  lemma BlankEndsTable(table: seq<string>, more: seq<string>)
    requires forall i :: 0 <= i < |table| ==> IsTableLine(table[i])
    ensures LeadingTable(table + ([""] + more)) == |table|
  {
    AllTable(table);
    LeadingTablePrefix(table, [""] + more);
  }

  lemma TableFollowsHeading(lines: seq<string>, table: seq<string>, after: seq<string>)
    requires table != [] && IsTableLine(table[0])
    requires |lines| >= 2 && lines[2..] == table + after && lines[1] == ""
    ensures LeadingBlank(lines[1..]) == 1
  {
    assert lines[1..][1..] == lines[2..];
    assert lines[2..][0] == table[0];
    TableLineNotBlank(table[0]);
    StripBlankIsEmpty("");
  }

  lemma TableLineNotBlank(line: string)
    requires IsTableLine(line)
    ensures Strip(line) != ""
  {
    var k := LStripCut(IsSpace, line);
    assert line[k..][..1] == "|";
    assert line[k] == '|';
    StripFacts(line);
  }

  /** Scanning one canonical section records exactly its table and goes on behind it. */
  lemma SectionScanned(s: Section, more: seq<string>, tables: map<string, Table>)
    requires Canonical(s)
    ensures Scan(ParseTable, SectionLines(s) + more, tables) == Scan(ParseTable, more, tables[s.title := TableOf(s)])
  {
    var table := TableLines(s);
    var after := [""] + (s.prose + more);
    var lines := SectionLines(s) + more;
    SectionShape(s, more);
    HeadingTitle(s.title);
    TableLinesAreTableLines(s);
    TableFollowsHeading(lines, table, after);
    BlankEndsTable(table, s.prose + more);
    TableRoundTrip(s);
    TableCut(lines, table, after);
    ScanPastTable(ParseTable, lines, 0, 2, 2 + |table|, tables);
    ProseAfterTable(s.prose, more, tables[s.title := TableOf(s)]);
  }

  lemma TableCut(lines: seq<string>, table: seq<string>, after: seq<string>)
    requires |lines| >= 2 && lines[2..] == table + after
    ensures |lines| == 2 + |table| + |after| && lines[0..] == lines
    ensures lines[2..2 + |table|] == table && lines[2 + |table|..] == after
  {
    assert lines[2..2 + |table|] == lines[2..][..|table|];
    assert lines[2 + |table|..] == lines[2..][|table|..];
  }

  lemma ProseAfterTable(prose: seq<string>, more: seq<string>, tables: map<string, Table>)
    requires Prose(prose)
    ensures Scan(ParseTable, [""] + (prose + more), tables) == Scan(ParseTable, more, tables)
  {
    BlankIsNoHeading();
    LineSkipped("", prose + more, tables);
    ProseSkipped(prose, more, tables);
  }

  lemma BlankIsNoHeading()
    ensures SectionTitle("").None?
  {
  }

  lemma SectionShape(s: Section, more: seq<string>)
    ensures var lines := SectionLines(s) + more;
            && |lines| >= 2 && lines[0] == "## " + s.title && lines[1] == ""
            && lines[2..] == TableLines(s) + ([""] + (s.prose + more))
  {
    var lines := SectionLines(s) + more;
    assert lines == ["## " + s.title, ""] + (TableLines(s) + ([""] + (s.prose + more)));
  }

  // ---------------------------------------------------------------- a whole document

  function TablesOf(sections: seq<Section>): map<string, Table>
    requires forall i :: 0 <= i < |sections| ==> Canonical(sections[i])
  {
    if sections == [] then map[]
    else
      var n := |sections| - 1;
      TablesOf(sections[..n])[sections[n].title := TableOf(sections[n])]
  }

  lemma {:induction false} DocumentScanned(preamble: seq<string>, sections: seq<Section>, more: seq<string>)
    requires Prose(preamble) && forall i :: 0 <= i < |sections| ==> Canonical(sections[i])
    ensures Scan(ParseTable, DocumentLines(preamble, sections) + more, map[]) == Scan(ParseTable, more, TablesOf(sections))
  {
    if sections == [] {
      ProseSkipped(preamble, more, map[]);
    } else {
      var n := |sections| - 1;
      var front := DocumentLines(preamble, sections[..n]);
      DocumentScanned(preamble, sections[..n], SectionLines(sections[n]) + more);
      assert front + SectionLines(sections[n]) + more == front + (SectionLines(sections[n]) + more);
      SectionScanned(sections[n], more, TablesOf(sections[..n]));
    }
  }

  /** Lines free of line breaks, each ended by a newline. */
  function FileText(lines: seq<string>): string {
    Join("\n", lines) + "\n"
  }

  lemma FileTextLines(lines: seq<string>)
    requires lines != [] && forall i :: 0 <= i < |lines| ==> Lacks(lines[i], IsLineBreak)
    ensures SplitLines(FileText(lines)) == lines
  {
    LinesThen(IsLineBreak, lines, "", []);
    assert FileText(lines) == Join("\n", lines) + "\n" + "";
  }

  /** Round trip: scanning the text of a canonical document yields the table of every section,
      under its title, and nothing else. */
  lemma ScanRoundTrip(preamble: seq<string>, sections: seq<Section>)
    requires Prose(preamble) && sections != []
    requires forall i :: 0 <= i < |sections| ==> Canonical(sections[i])
    requires forall i :: 0 <= i < |DocumentLines(preamble, sections)| ==> Lacks(DocumentLines(preamble, sections)[i], IsLineBreak)
    requires forall i, j :: 0 <= i < j < |sections| ==> sections[i].title != sections[j].title
    ensures var scanned := Scan(ParseTable, SplitLines(FileText(DocumentLines(preamble, sections))), map[]);
            && scanned.Ok?
            && (forall i :: 0 <= i < |sections| ==>
                  sections[i].title in scanned.value && scanned.value[sections[i].title] == TableOf(sections[i]))
            && (forall t :: t in scanned.value ==> exists i :: 0 <= i < |sections| && sections[i].title == t)
  {
    var lines := DocumentLines(preamble, sections);
    assert SectionLines(sections[|sections| - 1])[0] in lines;
    FileTextLines(lines);
    DocumentScanned(preamble, sections, []);
    assert lines + [] == lines;
    TablesByTitle(sections);
  }

  ghost predicate Held(tables: map<string, Table>, s: Section)
    requires Canonical(s)
  {
    s.title in tables && tables[s.title] == TableOf(s)
  }

  lemma {:induction false} TableByTitle(sections: seq<Section>, i: nat)
    requires forall i :: 0 <= i < |sections| ==> Canonical(sections[i])
    requires forall i, j :: 0 <= i < j < |sections| ==> sections[i].title != sections[j].title
    requires i < |sections|
    ensures Held(TablesOf(sections), sections[i])
  {
    var n := |sections| - 1;
    if i < n {
      assert sections[..n][i] == sections[i];
      TableByTitle(sections[..n], i);
    }
  }

  lemma {:induction false} TitleOfTable(sections: seq<Section>, t: string) returns (i: nat)
    requires forall i :: 0 <= i < |sections| ==> Canonical(sections[i])
    requires t in TablesOf(sections)
    ensures i < |sections| && sections[i].title == t
  {
    var n := |sections| - 1;
    if sections[n].title == t {
      i := n;
    } else {
      i := TitleOfTable(sections[..n], t);
      assert sections[..n][i] == sections[i];
    }
  }

  lemma TablesByTitle(sections: seq<Section>)
    requires forall i :: 0 <= i < |sections| ==> Canonical(sections[i])
    requires forall i, j :: 0 <= i < j < |sections| ==> sections[i].title != sections[j].title
    ensures forall i :: 0 <= i < |sections| ==>
      sections[i].title in TablesOf(sections) && TablesOf(sections)[sections[i].title] == TableOf(sections[i])
    ensures forall t :: t in TablesOf(sections) ==> exists i :: 0 <= i < |sections| && sections[i].title == t
  {
    forall i | 0 <= i < |sections| ensures Held(TablesOf(sections), sections[i]) { TableByTitle(sections, i); }
    forall t | t in TablesOf(sections) ensures exists i :: 0 <= i < |sections| && sections[i].title == t {
      var i := TitleOfTable(sections, t);
    }
  }

  /** With distinct headers a row maps each header to the cell under it. */
  lemma {:induction false} RowMapAt(headers: seq<string>, cells: seq<string>, i: nat)
    requires |headers| == |cells| && i < |headers|
    requires forall j, k :: 0 <= j < k < |headers| ==> headers[j] != headers[k]
    ensures headers[i] in RowMap(headers, cells) && RowMap(headers, cells)[headers[i]] == cells[i]
  {
    if i < |headers| - 1 {
      RowMapAt(headers[..|headers| - 1], cells[..|headers| - 1], i);
    }
  }
}
