/** Scanning the Markdown tables of a component spec, section by section. */
module SpecTables {
  import opened Wrappers
  import opened Text

  datatype TableError = TooFewRows | DelimiterWidth | RowWidth | MalformedRow

  datatype Table = Table(headers: seq<string>, rows: seq<map<string, string>>)

  /** The title the pattern ^##\s+(.+?)\s*$ captures.  A heading of whitespace only is titled by
      its last whitespace character, provided there are two. */
  function SectionTitle(line: string): Option<string> {
    if |line| < 3 || line[..2] != "##" || !IsSpace(line[2]) then None
    else
      var rest := line[2..];
      if Strip(rest) != "" then Some(Strip(rest))
      else if |rest| >= 2 then Some(rest[|rest| - 1..])
      else None
  }

  predicate IsTableLine(line: string) {
    StartsWith(LStripIf(IsSpace, line), "|")
  }

  function StripTicks(s: string): string {
    var tick := (c: char) => c == '`';
    RStripIf(tick, LStripIf(tick, s))
  }

  function CleanCells(cells: seq<string>): seq<string> {
    seq(|cells|, i requires 0 <= i < |cells| => StripTicks(Strip(cells[i])))
  }

  function SplitTableRow(line: string): Result<seq<string>, TableError> {
    var s := Strip(line);
    if !StartsWith(s, "|") || !EndsWith(s, "|") then Err(MalformedRow)
    else
      var inner := if |s| < 2 then "" else s[1..|s| - 1];
      Ok(CleanCells(SplitOn('|', inner)))
  }

  /** {headers[i]: cells[i]}: a repeated header keeps the last cell. */
  function RowMap(headers: seq<string>, cells: seq<string>): map<string, string>
    requires |headers| == |cells|
  {
    if headers == [] then map[]
    else
      var n := |headers| - 1;
      RowMap(headers[..n], cells[..n])[headers[n] := cells[n]]
  }

  function ParseRows(headers: seq<string>, lines: seq<string>): Result<seq<map<string, string>>, TableError> {
    if lines == [] then Ok([])
    else
      var n := |lines| - 1;
      match ParseRows(headers, lines[..n])
      case Err(e) => Err(e)
      case Ok(rows) =>
        match SplitTableRow(lines[n])
        case Err(e) => Err(e)
        case Ok(cells) => if |cells| != |headers| then Err(RowWidth) else Ok(rows + [RowMap(headers, cells)])
  }

  /** The table held by a run of table lines. */
  function ParseTable(lines: seq<string>): Result<Table, TableError> {
    if |lines| < 2 then Err(TooFewRows)
    else
      match SplitTableRow(lines[0])
      case Err(e) => Err(e)
      case Ok(headers) =>
        match SplitTableRow(lines[1])
        case Err(e) => Err(e)
        case Ok(delimiters) =>
          if |headers| != |delimiters| then Err(DelimiterWidth)
          else
            match ParseRows(headers, lines[2..])
            case Err(e) => Err(e)
            case Ok(rows) => Ok(Table(headers, rows))
  }

  function LeadingBlank(lines: seq<string>): (n: nat)
    ensures n <= |lines|
  {
    if lines != [] && Strip(lines[0]) == "" then 1 + LeadingBlank(lines[1..]) else 0
  }

  function LeadingTable(lines: seq<string>): (n: nat)
    ensures n <= |lines|
  {
    if lines != [] && IsTableLine(lines[0]) then 1 + LeadingTable(lines[1..]) else 0
  }

  type TableParser = seq<string> -> Result<Table, TableError>

  /** The section tables of the remaining lines, added to those already found; a later section of
      the same title replaces an earlier one. */
  function Scan(parse: TableParser, lines: seq<string>, tables: map<string, Table>): Result<map<string, Table>, TableError>
    decreases |lines|
  {
    if lines == [] then Ok(tables)
    else if SectionTitle(lines[0]).None? then Scan(parse, lines[1..], tables)
    else
      var rest := lines[1 + LeadingBlank(lines[1..])..];
      var n := LeadingTable(rest);
      if n == 0 then Scan(parse, rest, tables)
      else
        match parse(rest[..n])
        case Err(e) => Err(e)
        case Ok(table) => Scan(parse, rest[n..], tables[SectionTitle(lines[0]).value := table])
  }

  // ---------------------------------------------------------------- the scanner as it runs

  lemma LeadingTableStep(lines: seq<string>, start: nat, index: nat)
    requires start <= index <= |lines| && index == start + LeadingTable(lines[start..index])
    ensures index < |lines| && IsTableLine(lines[index]) ==>
              index + 1 == start + LeadingTable(lines[start..index + 1])
    ensures (index == |lines| || !IsTableLine(lines[index])) ==> index == start + LeadingTable(lines[start..])
  {
    LeadingTablePrefix(lines[start..index], lines[index..]);
    assert lines[start..index] + lines[index..] == lines[start..];
    if index < |lines| {
      LeadingTablePrefix(lines[start..index], [lines[index]]);
      assert lines[start..index] + [lines[index]] == lines[start..index + 1];
    }
  }

  lemma {:induction false} LeadingTablePrefix(front: seq<string>, rest: seq<string>)
    requires LeadingTable(front) == |front|
    ensures LeadingTable(front + rest) == |front| + LeadingTable(rest)
  {
    if front == [] {
      assert front + rest == rest;
    } else {
      LeadingTablePrefix(front[1..], rest);
      assert (front + rest)[1..] == front[1..] + rest;
    }
  }

  /** _parse_markdown_table: gathers table lines from start and splits them. */
  method ParseMarkdownTable(lines: seq<string>, start: nat) returns (result: Result<Table, TableError>, index: nat)
    requires start < |lines| && IsTableLine(lines[start])
    ensures start < index <= |lines| && index == start + LeadingTable(lines[start..])
    ensures result == ParseTable(lines[start..index])
  {
    index := start;
    while index < |lines| && IsTableLine(lines[index])
      invariant start <= index <= |lines| && index == start + LeadingTable(lines[start..index])
    {
      LeadingTableStep(lines, start, index);
      index := index + 1;
    }
    LeadingTableStep(lines, start, index);
    result := ParseTableLines(lines[start..index]);
  }

  method ParseDataRows(headers: seq<string>, lines: seq<string>) returns (result: Result<seq<map<string, string>>, TableError>)
    ensures result == ParseRows(headers, lines)
  {
    var rows: seq<map<string, string>> := [];
    for i := 0 to |lines|
      invariant ParseRows(headers, lines[..i]) == Ok(rows)
    {
      var cells := SplitTableRow(lines[i]);
      assert lines[..i + 1][..i] == lines[..i];
      if cells.Err? {
        RowErrorStays(headers, lines, i + 1);
        return Err(cells.error);
      }
      if |cells.value| != |headers| {
        RowErrorStays(headers, lines, i + 1);
        return Err(RowWidth);
      }
      rows := rows + [RowMap(headers, cells.value)];
    }
    assert lines[..|lines|] == lines;
    result := Ok(rows);
  }

  method ParseTableLines(raw: seq<string>) returns (result: Result<Table, TableError>)
    ensures result == ParseTable(raw)
  {
    if |raw| < 2 { return Err(TooFewRows); }
    var headers := SplitTableRow(raw[0]);
    if headers.Err? { return Err(headers.error); }
    var delimiters := SplitTableRow(raw[1]);
    if delimiters.Err? { return Err(delimiters.error); }
    if |headers.value| != |delimiters.value| { return Err(DelimiterWidth); }
    var rows := ParseDataRows(headers.value, raw[2..]);
    if rows.Err? { return Err(rows.error); }
    result := Ok(Table(headers.value, rows.value));
  }

  lemma {:induction false} RowErrorStays(headers: seq<string>, lines: seq<string>, n: nat)
    requires n <= |lines| && ParseRows(headers, lines[..n]).Err?
    ensures ParseRows(headers, lines) == ParseRows(headers, lines[..n])
  {
    if n == |lines| {
      assert lines[..n] == lines;
    } else {
      assert lines[..|lines| - 1][..n] == lines[..n];
      RowErrorStays(headers, lines[..|lines| - 1], n);
    }
  }

  lemma LeadingBlankStep(lines: seq<string>, from: nat)
    requires from < |lines|
    ensures LeadingBlank(lines[from..]) ==
            if Strip(lines[from]) == "" then 1 + LeadingBlank(lines[from + 1..]) else 0
  {
    assert lines[from..][1..] == lines[from + 1..];
  }

  method SkipBlank(lines: seq<string>, start: nat) returns (next: nat)
    requires start <= |lines|
    ensures next == start + LeadingBlank(lines[start..])
  {
    next := start;
    while next < |lines|
      invariant start <= next <= |lines|
      invariant next + LeadingBlank(lines[next..]) == start + LeadingBlank(lines[start..])
    {
      LeadingBlankStep(lines, next);
      if Strip(lines[next]) != "" { return; }
      next := next + 1;
    }
  }

  lemma ScanPastLine(parse: TableParser, lines: seq<string>, index: nat, tables: map<string, Table>)
    requires index < |lines| && SectionTitle(lines[index]).None?
    ensures Scan(parse, lines[index..], tables) == Scan(parse, lines[index + 1..], tables)
  {
    assert lines[index..][1..] == lines[index + 1..];
  }

  lemma ScanHeading(parse: TableParser, lines: seq<string>, blank: nat, tables: map<string, Table>)
    requires lines != [] && SectionTitle(lines[0]).Some? && blank == LeadingBlank(lines[1..])
    requires lines[1 + blank..] == [] || !IsTableLine(lines[1 + blank..][0])
    ensures Scan(parse, lines, tables) == Scan(parse, lines[1 + blank..], tables)
  {
    assert LeadingTable(lines[1 + blank..]) == 0;
  }

  lemma ScanPastHeading(parse: TableParser, lines: seq<string>, index: nat, next: nat, tables: map<string, Table>)
    requires index < next <= |lines| && SectionTitle(lines[index]).Some?
    requires next == index + 1 + LeadingBlank(lines[index + 1..])
    requires next == |lines| || !IsTableLine(lines[next])
    ensures Scan(parse, lines[index..], tables) == Scan(parse, lines[next..], tables)
  {
    Slices(lines, index, next, next);
    ScanHeading(parse, lines[index..], next - index - 1, tables);
  }

  lemma ScanTable(parse: TableParser, lines: seq<string>, blank: nat, table: nat, tables: map<string, Table>)
    requires lines != [] && SectionTitle(lines[0]).Some? && blank == LeadingBlank(lines[1..])
    requires table == LeadingTable(lines[1 + blank..]) && table > 0
    ensures Scan(parse, lines, tables) ==
            match parse(lines[1 + blank..][..table])
              case Err(e) => Err(e)
              case Ok(t) => Scan(parse, lines[1 + blank..][table..], tables[SectionTitle(lines[0]).value := t])
  {
  }

  lemma Slices(lines: seq<string>, index: nat, next: nat, after: nat)
    requires index < next <= after <= |lines|
    ensures lines[index..][0] == lines[index] && lines[index..][1..] == lines[index + 1..]
    ensures lines[index..][next - index..] == lines[next..]
    ensures lines[next..][..after - next] == lines[next..after] && lines[next..][after - next..] == lines[after..]
  {
  }

  lemma ScanPastTable(parse: TableParser, lines: seq<string>, index: nat, next: nat, after: nat, tables: map<string, Table>)
    requires index < next < after <= |lines| && SectionTitle(lines[index]).Some?
    requires next == index + 1 + LeadingBlank(lines[index + 1..])
    requires after == next + LeadingTable(lines[next..])
    ensures Scan(parse, lines[index..], tables) ==
            match parse(lines[next..after])
              case Err(e) => Err(e)
              case Ok(table) => Scan(parse, lines[after..], tables[SectionTitle(lines[index]).value := table])
  {
    Slices(lines, index, next, after);
    ScanTable(parse, lines[index..], next - index - 1, after - next, tables);
  }

  /** The section loop of the extractor.  Its index only moves forward, so it ends on every input. */
  method ScanSections(lines: seq<string>) returns (result: Result<map<string, Table>, TableError>)
    ensures result == Scan(ParseTable, lines, map[])
  {
    var tables: map<string, Table> := map[];
    var index := 0;
    assert lines[0..] == lines;
    while index < |lines|
      invariant index <= |lines|
      invariant Scan(ParseTable, lines[index..], tables) == Scan(ParseTable, lines, map[])
      decreases |lines| - index
    {
      var title := SectionTitle(lines[index]);
      if title.None? {
        ScanPastLine(ParseTable, lines, index, tables);
        index := index + 1;
        continue;
      }
      var next := SkipBlank(lines, index + 1);
      if next < |lines| && IsTableLine(lines[next]) {
        var table, after := ParseMarkdownTable(lines, next);
        ScanPastTable(ParseTable, lines, index, next, after, tables);
        if table.Err? { return Err(table.error); }
        tables := tables[title.value := table.value];
        index := after;
      } else {
        ScanPastHeading(ParseTable, lines, index, next, tables);
        index := next;
      }
    }
    result := Ok(tables);
  }

  // ---------------------------------------------------------------- canonical rendering

  datatype Section = Section(title: string, headers: seq<string>, rows: seq<seq<string>>, prose: seq<string>)

  function Padded(cells: seq<string>): seq<string> {
    seq(|cells|, i requires 0 <= i < |cells| => " " + cells[i] + " ")
  }

  function RenderRow(cells: seq<string>): string {
    "|" + Join("|", Padded(cells)) + "|"
  }

  function RenderRows(rows: seq<seq<string>>): seq<string> {
    if rows == [] then [] else RenderRows(rows[..|rows| - 1]) + [RenderRow(rows[|rows| - 1])]
  }

  function Delimiters(headers: seq<string>): seq<string> {
    seq(|headers|, _ => "---")
  }

  function TableLines(s: Section): seq<string> {
    [RenderRow(s.headers), RenderRow(Delimiters(s.headers))] + RenderRows(s.rows)
  }

  function SectionLines(s: Section): seq<string> {
    ["## " + s.title, ""] + (TableLines(s) + ([""] + s.prose))
  }

  function DocumentLines(preamble: seq<string>, sections: seq<Section>): seq<string> {
    if sections == [] then preamble
    else DocumentLines(preamble, sections[..|sections| - 1]) + SectionLines(sections[|sections| - 1])
  }

  /** A cell the row syntax carries: trimmed, free of pipes, and not edged by a backtick. */
  predicate CarriedCell(c: string) {
    Trimmed(c) && '|' !in c && (c == "" || (c[0] != '`' && c[|c| - 1] != '`'))
  }

  predicate CarriedRow(cells: seq<string>) {
    forall i :: 0 <= i < |cells| ==> CarriedCell(cells[i])
  }

  predicate Prose(lines: seq<string>) {
    forall i :: 0 <= i < |lines| ==> SectionTitle(lines[i]).None?
  }

  predicate Canonical(s: Section) {
    && s.title != "" && Trimmed(s.title)
    && s.headers != [] && CarriedRow(s.headers)
    && (forall i :: 0 <= i < |s.rows| ==> |s.rows[i]| == |s.headers| && CarriedRow(s.rows[i]))
    && Prose(s.prose)
  }

  function RowMaps(headers: seq<string>, rows: seq<seq<string>>): seq<map<string, string>>
    requires forall i :: 0 <= i < |rows| ==> |rows[i]| == |headers|
  {
    if rows == [] then [] else RowMaps(headers, rows[..|rows| - 1]) + [RowMap(headers, rows[|rows| - 1])]
  }

  function TableOf(s: Section): Table
    requires Canonical(s)
  {
    Table(s.headers, RowMaps(s.headers, s.rows))
  }
}
