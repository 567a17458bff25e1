/** What becomes of a document's body when its header is rewritten.  The header is counted in lines
    of the file, but skipped in lines of str.splitlines, which cuts at more characters. */
module DocBodyLaws {
  import opened Wrappers
  import opened Text
  import opened DocHeader
  import opened DocHeaderLaws

  /** A line boundary other than newline; splitlines cuts there, a text file does not. */
  predicate IsOtherBreak(c: char) {
    IsLineBreak(c) && c != '\n'
  }

  function DropFinalNewline(s: string): string {
    if s != "" && s[|s| - 1] == '\n' then s[..|s| - 1] else s
  }

  // ---------------------------------------------------------------- header rows

  /** The splitlines rows of newline-ended lines. */
  function RowsOf(lines: seq<string>): seq<string> {
    if lines == [] then [] else SplitLines(lines[0] + "\n") + RowsOf(lines[1..])
  }

  /** How many rows more than lines: one for each other line boundary in them. */
  function ExtraRows(lines: seq<string>): nat
    ensures |RowsOf(lines)| == |lines| + ExtraRows(lines)
  {
    if lines == [] then 0
    else
      LineHasRow(lines[0], "");
      |SplitLines(lines[0] + "\n")| - 1 + ExtraRows(lines[1..])
  }

  /** The rows of a rendered header that the body reader does not skip: it skips as many rows as
      the header has lines of the file, up to the first blank one. */
  function Leaked(sc: Schema, values: map<string, string>): seq<string> {
    var rows, header := SplitLines(RenderHeader(sc, values)), HeaderLines(RenderHeader(sc, values));
    if |header| <= |rows| then rows[|header|..] else []
  }

  predicate AllEmpty(rows: seq<string>) {
    forall i :: 0 <= i < |rows| ==> rows[i] == ""
  }

  /** No header text comes back as body. */
  predicate LeakFree(sc: Schema, values: map<string, string>) {
    AllEmpty(Leaked(sc, values))
  }

  lemma LineHasRow(a: string, b: string)
    ensures |SplitLines(a + "\n" + b)| >= 1
  {
    assert a + "\n" + b != "";
  }

  lemma LineApart(first: string, rest: string)
    ensures SplitLines(first + "\n" + rest) == SplitLines(first + "\n") + SplitLines(rest)
  {
    LinesAppend(IsLineBreak, first + "\n", rest);
  }

  lemma RowsHead(lines: seq<string>, rest: seq<string>)
    requires lines != []
    ensures RowsOf(lines) + rest == SplitLines(lines[0] + "\n") + (RowsOf(lines[1..]) + rest)
  {
  }

  lemma {:induction false} RowsOfJoined(lines: seq<string>, rest: string)
    requires lines != []
    ensures SplitLines(Join("\n", lines) + "\n" + rest) == RowsOf(lines) + SplitLines(rest)
  {
    RowsHead(lines, SplitLines(rest));
    if |lines| == 1 {
      LineApart(lines[0], rest);
      assert RowsOf(lines[1..]) + SplitLines(rest) == SplitLines(rest);
    } else {
      RowsOfJoined(lines[1..], rest);
      JoinStep(lines, rest);
      LineApart(lines[0], Join("\n", lines[1..]) + "\n" + rest);
    }
  }

  lemma LoneNewline(brk: char -> bool)
    requires brk('\n')
    ensures Lines(brk, "\n") == [""]
  {
    BlankLineThen(brk, "");
    assert "\n" + "" == "\n";
  }

  /** A rendered header ends in a blank line, and what follows it starts a new one. */
  lemma HeaderEnds(brk: char -> bool, sc: Schema, values: map<string, string>, body: string)
    requires brk('\n')
    ensures var header := RenderHeader(sc, values);
            && Lines(brk, header) == Lines(brk, Join("\n", FieldLines(sc.fields, values)) + "\n") + [""]
            && Lines(brk, header + body) == Lines(brk, header) + Lines(brk, body)
  {
    var t := Join("\n", FieldLines(sc.fields, values)) + "\n";
    var header := RenderHeader(sc, values);
    assert header == t + "\n";
    LoneNewline(brk);
    LinesAppend(brk, t, "\n");
    LinesAppend(brk, header, body);
  }

  lemma {:induction false} BlockStops(front: seq<string>, more: seq<string>, limit: nat)
    ensures HeaderBlock(front + [""] + more, limit) == HeaderBlock(front + [""], limit)
    ensures |HeaderBlock(front + [""], limit)| <= |front| + 1
    decreases |front|
  {
    var lines, longer := front + [""], front + [""] + more;
    if front != [] && limit > 0 {
      BlockStops(front[1..], more, limit - 1);
      assert lines[1..] == front[1..] + [""] && longer[1..] == front[1..] + [""] + more;
    }
  }

  lemma SameHeader(sc: Schema, values: map<string, string>, body: string)
    ensures HeaderLines(RenderHeader(sc, values) + body) == HeaderLines(RenderHeader(sc, values))
    ensures |HeaderLines(RenderHeader(sc, values))| <= |SplitLines(RenderHeader(sc, values))|
  {
    HeaderEnds(IsFileBreak, sc, values, body);
    BlockStops(FileLines(Join("\n", FieldLines(sc.fields, values)) + "\n"), FileLines(body), HEADER_LINE_LIMIT);
    FewerFileLines(RenderHeader(sc, values));
  }

  lemma FirstLineStarts(start: string, rest: string)
    requires start != "" && Lacks(start, IsFileBreak)
    ensures FileLines(start + rest) != []
    ensures var first := FileLines(start + rest)[0];
            |first| >= |start| && first[..|start|] == start && Lacks(first, IsFileBreak)
  {
    var s := start + rest;
    var k := Span(IsFileBreak, s);
    assert forall i :: 0 <= i < |start| ==> s[i] == start[i];
    if k < |s| { LinesCut(IsFileBreak, s); }
    LinesLack(IsFileBreak, s);
  }

  lemma KeyOfNamed(f: string, x: string)
    requires FieldName(f)
    ensures KeyOf(f + ": " + x) == f
  {
    var line := f + ": " + x;
    assert line[|f|] == ':' && forall i :: 0 <= i < |f| ==> line[i] == f[i];
    SpanAt(c => c == ':', line, |f|);
    assert line[..|f|] == f;
    StripFacts(f);
  }

  /** The first header line names the first field, whatever its value. */
  lemma FirstKey(sc: Schema, values: map<string, string>)
    requires Fits(sc)
    ensures var header := HeaderLines(RenderHeader(sc, values)); header != [] && KeyOf(header[0]) == sc.fields[0]
  {
    var f := sc.fields[0];
    assert FieldName(f);
    var start := f + ": ";
    var rest := RenderStarts(sc, values, "");
    assert RenderHeader(sc, values) + "" == RenderHeader(sc, values);
    assert RenderHeader(sc, values) == start + (ValueFor(values, f) + "\n" + rest);
    forall i | 0 <= i < |start| ensures !IsFileBreak(start[i]) {
      if i < |f| { assert start[i] == f[i] && !IsLineBreak(f[i]); }
    }
    FirstLineStarts(start, ValueFor(values, f) + "\n" + rest);
    var first := FileLines(RenderHeader(sc, values))[0];
    assert first == start + first[|start|..];
    KeyOfNamed(f, first[|start|..]);
  }

  /** What the body reader finds behind a rendered header, for any values and any body. */
  lemma BodyBehindHeader(sc: Schema, values: map<string, string>, body: string)
    requires Fits(sc)
    ensures ReadBody(sc, RenderHeader(sc, values) + body) == LStripIf(IsNewline, Join("\n", Leaked(sc, values) + SplitLines(body)))
  {
    var n := |HeaderLines(RenderHeader(sc, values))|;
    SameHeader(sc, values, body);
    FirstKey(sc, values);
    HeaderEnds(IsLineBreak, sc, values, body);
    DropRows(SplitLines(RenderHeader(sc, values)), SplitLines(body), n);
  }

  lemma DropRows(rows: seq<string>, rest: seq<string>, n: nat)
    requires n <= |rows|
    ensures (rows + rest)[n..] == rows[n..] + rest
  {
  }

  lemma RowsOfHeader(sc: Schema, values: map<string, string>)
    requires sc.fields != []
    ensures SplitLines(RenderHeader(sc, values)) == RowsOf(FieldLines(sc.fields, values)) + [""]
  {
    var lines := FieldLines(sc.fields, values);
    HeaderEnds(IsLineBreak, sc, values, "");
    RowsOfJoined(lines, "");
    assert Join("\n", lines) + "\n" + "" == Join("\n", lines) + "\n";
    assert RowsOf(lines) + SplitLines("") == RowsOf(lines);
  }

  lemma HeaderCount(sc: Schema, values: map<string, string>)
    requires Fits(sc) && OneLineValues(sc, values)
    ensures |HeaderLines(RenderHeader(sc, values))| == |sc.fields| + 1
  {
    BlockOfRendered(sc, values, "");
    assert RenderHeader(sc, values) + "" == RenderHeader(sc, values);
  }

  lemma LeakedRows(sc: Schema, values: map<string, string>, rows: seq<string>)
    requires Fits(sc) && OneLineValues(sc, values) && rows == RowsOf(FieldLines(sc.fields, values)) + [""]
    ensures |sc.fields| + 1 <= |rows| && Leaked(sc, values) == rows[|sc.fields| + 1..]
  {
    RowsOfHeader(sc, values);
    HeaderCount(sc, values);
    var extra := ExtraRows(FieldLines(sc.fields, values));
  }

  /** Values that stay on one line of the file leak one row for each other line boundary in them. */
  lemma LeakedCount(sc: Schema, values: map<string, string>)
    requires Fits(sc) && OneLineValues(sc, values)
    ensures |Leaked(sc, values)| == ExtraRows(FieldLines(sc.fields, values))
  {
    LeakedRows(sc, values, RowsOf(FieldLines(sc.fields, values)) + [""]);
  }

  // ---------------------------------------------------------------- re-reading the body alone

  function Reread(body: string): string {
    LStripIf(IsNewline, Join("\n", SplitLines(body)))
  }

  lemma {:induction false} JoinedLack(lines: seq<string>)
    requires forall i :: 0 <= i < |lines| ==> Lacks(lines[i], IsLineBreak)
    ensures Lacks(Join("\n", lines), IsOtherBreak)
  {
    if |lines| > 1 { JoinedLack(lines[1..]); }
  }

  lemma LStripKeeps(s: string)
    requires s == "" || s[0] != '\n'
    ensures LStripIf(IsNewline, s) == s
  {
  }

  predicate StableBody(body: string) {
    Lacks(body, IsOtherBreak) && (body == "" || (body[0] != '\n' && body[|body| - 1] != '\n'))
  }

  lemma JoinedRows(body: string)
    requires Lacks(body, IsOtherBreak)
    ensures Join("\n", SplitLines(body)) == DropFinalNewline(body)
  {
    assert Lacks(body, c => IsLineBreak(c) && c != '\n');
    JoinLines(IsLineBreak, body);
  }

  lemma StrippedJoin(lines: seq<string>)
    requires forall i :: 0 <= i < |lines| ==> Lacks(lines[i], IsLineBreak)
    ensures Lacks(LStripIf(IsNewline, Join("\n", lines)), IsOtherBreak)
    ensures var s := LStripIf(IsNewline, Join("\n", lines)); s == "" || s[0] != '\n'
  {
    JoinedLack(lines);
    var k := LStripCut(IsNewline, Join("\n", lines));
  }

  lemma RereadStable(body: string)
    ensures Reread(body) == body <==> StableBody(body)
  {
    LinesLack(IsLineBreak, body);
    StrippedJoin(SplitLines(body));
    if Lacks(body, IsOtherBreak) {
      JoinedRows(body);
      var k := LStripCut(IsNewline, DropFinalNewline(body));
      if StableBody(body) { LStripKeeps(body); }
    }
  }

  // ---------------------------------------------------------------- leaked rows

  lemma {:induction false} EmptyRowsVanish(empties: seq<string>, rows: seq<string>)
    requires AllEmpty(empties)
    ensures LStripIf(IsNewline, Join("\n", empties + rows)) == LStripIf(IsNewline, Join("\n", rows))
  {
    if empties == [] {
      assert empties + rows == rows;
    } else {
      var rest := empties[1..] + rows;
      EmptyRowsVanish(empties[1..], rows);
      assert empties + rows == [""] + rest;
      if rest != [] { JoinCons("", rest); }
    }
  }

  lemma {:induction false} JoinedLength(front: seq<string>, rows: seq<string>)
    ensures |Join("\n", front + rows)| >= |Join("\n", rows)|
    ensures front != [] && rows != [] ==> |Join("\n", front + rows)| >= 1 + |Join("\n", rows)|
  {
    if front == [] {
      assert front + rows == rows;
    } else {
      var rest := front[1..] + rows;
      JoinedLength(front[1..], rows);
      assert front + rows == [front[0]] + rest;
      if rest != [] { JoinCons(front[0], rest); }
    }
  }

  /** Leaked rows with some text in them make what is read longer than the body's own rows. */
  lemma {:induction false} TextLeaks(leaked: seq<string>, rows: seq<string>)
    requires !AllEmpty(leaked) && leaked[|leaked| - 1] == ""
    requires forall i :: 0 <= i < |leaked| ==> '\n' !in leaked[i]
    ensures var s := LStripIf(IsNewline, Join("\n", leaked + rows));
            |s| >= 2 && (rows != [] ==> |s| >= 3 + |Join("\n", rows)|)
  {
    var first, rest := leaked[0], leaked[1..];
    assert leaked + rows == [first] + (rest + rows);
    assert rest[|rest| - 1] == "";
    JoinCons(first, rest + rows);
    if first == "" {
      EmptyRowsVanish([""], rest + rows);
      TextLeaks(rest, rows);
    } else {
      LStripKeeps(Join("\n", leaked + rows));
      JoinedLength(rest, rows);
    }
  }

  lemma LastRows(rows: seq<string>, n: nat)
    requires n < |rows| && rows[|rows| - 1] == "" && forall i :: 0 <= i < |rows| ==> Lacks(rows[i], IsLineBreak)
    ensures var last := rows[n..];
            last[|last| - 1] == "" && forall i :: 0 <= i < |last| ==> '\n' !in last[i]
  {
    forall i | n <= i < |rows| ensures '\n' !in rows[i] {
      forall k | 0 <= k < |rows[i]| ensures rows[i][k] != '\n' { assert !IsLineBreak(rows[i][k]); }
    }
  }

  lemma LeakedFacts(sc: Schema, values: map<string, string>)
    requires Leaked(sc, values) != []
    ensures var leaked := Leaked(sc, values);
            leaked[|leaked| - 1] == "" && forall i :: 0 <= i < |leaked| ==> '\n' !in leaked[i]
  {
    HeaderEnds(IsLineBreak, sc, values, "");
    LinesLack(IsLineBreak, RenderHeader(sc, values));
    LastRows(SplitLines(RenderHeader(sc, values)), |HeaderLines(RenderHeader(sc, values))|);
  }

  lemma LeakedIsLonger(sc: Schema, values: map<string, string>, body: string)
    requires Fits(sc) && !LeakFree(sc, values) && Lacks(body, IsOtherBreak)
    ensures |ReadBody(sc, RenderHeader(sc, values) + body)| >= |body| + 2
  {
    var leaked := LeakedText(sc, values);
    BodyBehindHeader(sc, values, body);
    LongerBody(leaked, body, ReadBody(sc, RenderHeader(sc, values) + body));
  }

  lemma LeakedText(sc: Schema, values: map<string, string>) returns (leaked: seq<string>)
    requires !LeakFree(sc, values)
    ensures leaked == Leaked(sc, values) && !AllEmpty(leaked) && leaked[|leaked| - 1] == ""
    ensures forall i :: 0 <= i < |leaked| ==> '\n' !in leaked[i]
  {
    leaked := Leaked(sc, values);
    assert leaked != [];
    LeakedFacts(sc, values);
  }

  lemma LongerBody(leaked: seq<string>, body: string, again: string)
    requires !AllEmpty(leaked) && leaked[|leaked| - 1] == "" && forall i :: 0 <= i < |leaked| ==> '\n' !in leaked[i]
    requires Lacks(body, IsOtherBreak) && again == LStripIf(IsNewline, Join("\n", leaked + SplitLines(body)))
    ensures |again| >= |body| + 2
  {
    TextLeaks(leaked, SplitLines(body));
    JoinedRows(body);
  }

  lemma FewRows(rows: seq<string>, extra: nat)
    requires |rows| == extra && (rows != [] ==> rows[|rows| - 1] == "")
    ensures extra <= 1 ==> AllEmpty(rows)
  {
  }

  /** One extra row is only the blank line that ends the header; text leaks from the second on. */
  lemma OneExtraRowIsHarmless(sc: Schema, values: map<string, string>)
    requires Fits(sc) && OneLineValues(sc, values)
    ensures ExtraRows(FieldLines(sc.fields, values)) <= 1 ==> LeakFree(sc, values)
  {
    LeakedCount(sc, values);
    if Leaked(sc, values) != [] { LeakedFacts(sc, values); }
    FewRows(Leaked(sc, values), ExtraRows(FieldLines(sc.fields, values)));
  }

  // ---------------------------------------------------------------- the body after a rewrite

  lemma ReadBodyIsClean(sc: Schema, values: map<string, string>, body: string)
    requires Fits(sc)
    ensures Lacks(ReadBody(sc, RenderHeader(sc, values) + body), IsOtherBreak)
  {
    SameHeader(sc, values, body);
    FirstKey(sc, values);
    KeptBody(sc, RenderHeader(sc, values) + body);
  }

  /** Re-reading the body behind a rewritten header gives the leaked header rows and the body's rows.
      If nothing leaks, a newline-only body loses its leading newlines and at most one trailing one.
      The body comes back unchanged exactly when nothing leaks and it has no other line boundary and
      neither starts nor ends with a newline. */
  lemma BodyAfterRewrite(sc: Schema, values: map<string, string>, body: string)
    requires Fits(sc)
    ensures var again := ReadBody(sc, RenderHeader(sc, values) + body);
            && again == LStripIf(IsNewline, Join("\n", Leaked(sc, values) + SplitLines(body)))
            && (LeakFree(sc, values) && Lacks(body, IsOtherBreak) ==> again == LStripIf(IsNewline, DropFinalNewline(body)))
            && (again == body <==> LeakFree(sc, values) && StableBody(body))
  {
    BodyBehindHeader(sc, values, body);
    if LeakFree(sc, values) {
      EmptyRowsVanish(Leaked(sc, values), SplitLines(body));
      RereadStable(body);
      if Lacks(body, IsOtherBreak) { JoinedRows(body); }
    } else if Lacks(body, IsOtherBreak) {
      LeakedIsLonger(sc, values, body);
    } else {
      ReadBodyIsClean(sc, values, body);
    }
  }

  /** A body read from behind a header has no other line boundary and no leading newline. */
  lemma KeptBody(sc: Schema, text: string)
    requires HeaderLines(text) != [] && KeyOf(HeaderLines(text)[0]) in sc.fields
    ensures Lacks(ReadBody(sc, text), IsOtherBreak)
    ensures ReadBody(sc, text) == "" || ReadBody(sc, text)[0] != '\n'
  {
    var lines := SplitLines(text);
    var n := |HeaderLines(text)|;
    LinesLack(IsLineBreak, text);
    if n <= |lines| { StrippedJoin(lines[n..]); } else { StrippedJoin([]); }
  }

  /** A further set-header drops one trailing newline of a kept body exactly when nothing leaks from
      the rewritten header; otherwise the body grows, each time again. */
  lemma RewriteErodesBody(sc: Schema, text: string, given: map<string, string>, explicit: set<string>, bodyArgument: string)
    requires Fits(sc) && "Title" in sc.fields && forall f :: f in sc.fields ==> f in given
    requires HeaderLines(text) != [] && KeyOf(HeaderLines(text)[0]) in sc.fields
    requires ReadBody(sc, text) != ""
    ensures var values := RewriteValues(sc, given, explicit, ParseRecord(sc, text));
            var before, after := ReadBody(sc, text), ReadBody(sc, Rewritten(sc, Some(text), given, explicit, bodyArgument));
            if LeakFree(sc, values) then after == DropFinalNewline(before) else |after| >= |before| + 2
  {
    var values := RewriteValues(sc, given, explicit, ParseRecord(sc, text));
    var body := ReadBody(sc, text);
    KeptBody(sc, text);
    if LeakFree(sc, values) {
      BodyAfterRewrite(sc, values, body);
      LStripKeeps(DropFinalNewline(body));
    } else {
      LeakedIsLonger(sc, values, body);
    }
  }

  // ---------------------------------------------------------------- values without other boundaries

  ghost predicate BreakFreeValues(sc: Schema, values: map<string, string>) {
    forall f :: f in sc.fields ==> Lacks(ValueFor(values, f), IsLineBreak)
  }

  lemma FieldLineBreakFree(f: string, v: string)
    requires FieldName(f) && Lacks(v, IsLineBreak)
    ensures Lacks(f + ": " + v, IsLineBreak)
  {
    var line := f + ": " + v;
    forall k | 0 <= k < |line| ensures !IsLineBreak(line[k]) {
      if k < |f| { assert line[k] == f[k]; } else if k >= |f| + 2 { assert line[k] == v[k - |f| - 2]; }
    }
  }

  lemma {:induction false} NoExtraRows(lines: seq<string>)
    requires forall i :: 0 <= i < |lines| ==> Lacks(lines[i], IsLineBreak)
    ensures ExtraRows(lines) == 0
  {
    if lines != [] {
      LinesHead(IsLineBreak, lines[0], "");
      assert lines[0] + "\n" + "" == lines[0] + "\n";
      NoExtraRows(lines[1..]);
    }
  }

  lemma BreakFreeIsOneLine(sc: Schema, values: map<string, string>)
    requires BreakFreeValues(sc, values)
    ensures OneLineValues(sc, values)
  {
    forall f | f in sc.fields ensures OneLine(ValueFor(values, f)) {
      var v := ValueFor(values, f);
      forall k | 0 <= k < |v| ensures v[k] != '\n' && v[k] != '\r' { assert !IsLineBreak(v[k]); }
    }
  }

  /** Values without line boundaries never leak. */
  lemma BreakFreeValuesDoNotLeak(sc: Schema, values: map<string, string>)
    requires Fits(sc) && BreakFreeValues(sc, values)
    ensures LeakFree(sc, values)
  {
    forall i | 0 <= i < |sc.fields| ensures Lacks(FieldLine(values, sc.fields[i]), IsLineBreak) {
      assert FieldName(sc.fields[i]);
      FieldLineBreakFree(sc.fields[i], ValueFor(values, sc.fields[i]));
    }
    NoExtraRows(FieldLines(sc.fields, values));
    BreakFreeIsOneLine(sc, values);
    OneExtraRowIsHarmless(sc, values);
  }

  // ---------------------------------------------------------------- inputs where the body changes

  const TITLE_ONLY := Schema(["Title"], {}, "Canonical")
  const VERTICAL_TAB := "\U{0B}"
  const TABBED := map["Title" := "a" + VERTICAL_TAB + "b" + VERTICAL_TAB + "c"]

  lemma CutAt(a: string, brk: string, rest: string)
    requires Lacks(a, IsLineBreak) && |brk| == 1 && IsLineBreak(brk[0]) && brk != "\r"
    ensures SplitLines(a + brk + rest) == [a] + SplitLines(rest)
  {
    var s := a + brk + rest;
    SpanAt(IsLineBreak, s, |a|);
    assert s[..|a|] == a && s[|a| + 1..] == rest;
  }

  lemma TabbedLine()
    ensures FieldLines(TITLE_ONLY.fields, TABBED) == ["Title: a" + VERTICAL_TAB + "b" + VERTICAL_TAB + "c"]
  {
    assert FieldLine(TABBED, "Title") == "Title: a" + VERTICAL_TAB + "b" + VERTICAL_TAB + "c";
  }

  lemma TwoCuts(a: string, b: string, c: string, brk: string)
    requires Lacks(a, IsLineBreak) && Lacks(b, IsLineBreak) && Lacks(c, IsLineBreak)
    requires |brk| == 1 && IsLineBreak(brk[0]) && brk != "\r"
    ensures SplitLines(a + brk + (b + brk + (c + "\n"))) == [a] + ([b] + [c])
  {
    CutAt(a, brk, b + brk + (c + "\n"));
    CutAt(b, brk, c + "\n");
    LastCut(c);
  }

  lemma LastCut(c: string)
    requires Lacks(c, IsLineBreak)
    ensures SplitLines(c + "\n") == [c]
  {
    LinesHead(IsLineBreak, c, "");
    assert c + "\n" + "" == c + "\n";
  }

  lemma TabbedCuts()
    ensures SplitLines("Title: a" + VERTICAL_TAB + ("b" + VERTICAL_TAB + "c\n")) == ["Title: a"] + (["b"] + ["c"])
  {
    TwoCuts("Title: a", "b", "c", VERTICAL_TAB);
    assert "c" + "\n" == "c\n";
  }

  lemma TabbedRows()
    ensures RowsOf(FieldLines(TITLE_ONLY.fields, TABBED)) == ["Title: a", "b", "c"]
  {
    var line := "Title: a" + VERTICAL_TAB + "b" + VERTICAL_TAB + "c";
    TabbedLine();
    TabbedCuts();
    assert line + "\n" == "Title: a" + VERTICAL_TAB + ("b" + VERTICAL_TAB + "c\n");
    assert [line][1..] == [] && RowsOf([line]) == SplitLines(line + "\n") + RowsOf([]);
  }

  lemma TabbedLeak()
    ensures Leaked(TITLE_ONLY, TABBED) == ["c", ""]
  {
    TitleOnlyFits();
    TabbedRows();
    LeakedRows(TITLE_ONLY, TABBED, ["Title: a", "b", "c"] + [""]);
  }

  lemma TabbedJoin()
    ensures SplitLines("B") == ["B"]
    ensures LStripIf(IsNewline, Join("\n", ["c", ""] + ["B"])) == "c\n\nB"
  {
    LinesHead(IsLineBreak, "B", "");
    assert ["c", ""] + ["B"] == ["c"] + ([""] + ["B"]);
    JoinCons("", ["B"]);
    JoinCons("c", [""] + ["B"]);
    LStripKeeps("c\n\nB");
  }

  /** A title with two vertical tabs: its last part and the blank line come back as body. */
  lemma HeaderValueLeaks()
    ensures OneLineValues(TITLE_ONLY, TABBED) && !LeakFree(TITLE_ONLY, TABBED)
    ensures ReadBody(TITLE_ONLY, RenderHeader(TITLE_ONLY, TABBED) + "B") == "c\n\nB"
  {
    TabbedLeak();
    TabbedJoin();
    TitleOnlyFits();
    BodyBehindHeader(TITLE_ONLY, TABBED, "B");
  }

  lemma TitleOnlyFits()
    ensures Fits(TITLE_ONLY) && OneLineValues(TITLE_ONLY, TABBED)
  {
    assert Trimmed("Title");
  }

  /** A body that ends in a newline comes back without it. */
  lemma FinalNewlineIsLost(sc: Schema, values: map<string, string>)
    requires Fits(sc) && LeakFree(sc, values)
    ensures ReadBody(sc, RenderHeader(sc, values) + "B\n") == "B"
  {
    BodyAfterRewrite(sc, values, "B\n");
    assert DropFinalNewline("B\n") == "B";
    LStripKeeps("B");
  }
}
