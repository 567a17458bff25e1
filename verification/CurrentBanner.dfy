/** The banner that heads a generated current copy: printer, parser, and exactly when they undo
    each other. */
module CurrentBanner {
  import opened Wrappers
  import opened Text

  /** The pieces of the banner: its first line, what surrounds the source path on the second,
      the third line, and the marker line that ends it. */
  datatype Template = Template(prefix: string, open: string, close: string, generatedBy: string, marker: string)

  // Long lines are written in pieces; the text is the one in the tool.
  const COPY_LINE := "<!-- GENERATED CURRENT" + " AUTHORITY COPY -->"
  const TOOL_LINE := "<!-- Generated-By: " + "paa_docs.py sync-current -->"
  const NOTICE := "<!-- Do not edit this " + ("file directly; edit the " + ("dated source document " + "and resync."))
  const OPEN := "<!-- Source: "
  const CURRENT_BANNER := Template(COPY_LINE, OPEN, " -->", TOOL_LINE, NOTICE + " -->")

  /** The generated copy of a source document. */
  function RenderCopy(b: Template, path: string, text: string): string {
    Layout(b.prefix, b.open + path + b.close, b.generatedBy, b.marker) + ("\n\n" + text)
  }

  function Layout(first: string, second: string, third: string, fourth: string): string {
    first + "\n" + (second + "\n" + (third + "\n" + fourth))
  }

  datatype Parsed = Parsed(source: Option<string>, remainder: string)

  /** A line the pattern ^<!-- Source: (.+) -->$ matches. */
  predicate IsSourceLine(b: Template, line: string) {
    |line| > |b.open| + |b.close| && StartsWith(line, b.open) && EndsWith(line, b.close)
  }

  /** The first match of the pattern, searched line by line. */
  function FirstSource(b: Template, lines: seq<string>): Option<string> {
    if lines == [] then None
    else if IsSourceLine(b, lines[0]) then
      Some(Strip(lines[0][|b.open|..|lines[0]| - |b.close|]))
    else FirstSource(b, lines[1..])
  }

  function DropBreaks(s: string): string {
    if StartsWith(s, "\n\n") then s[2..]
    else if StartsWith(s, "\n") then s[1..]
    else s
  }

  function ParseBanner(b: Template, text: string): Parsed {
    if !StartsWith(text, b.prefix) then Parsed(None, text)
    else
      var at := Find(text, b.marker);
      if at > |text| then Parsed(None, text)
      else Parsed(FirstSource(b, SplitOn('\n', text)), DropBreaks(text[at + |b.marker|..]))
  }

  /** What a source path must satisfy for its copies to be recognised.  The marker may also arise
      where the path meets the comment close, so the two are tested together. */
  predicate BannerSafe(b: Template, path: string) {
    path != "" && Trimmed(path) && OneLine(path) && !Contains(path + b.close, b.marker)
  }

  // ---------------------------------------------------------------- occurrences in one line

  /** A newline-free text cannot straddle a newline. */
  lemma OccursInOneLine(a: string, b: string, t: string, i: nat)
    requires '\n' !in t && t != ""
    ensures OccursAt(a + "\n" + b, t, i) <==>
            if i <= |a| then OccursAt(a, t, i) else OccursAt(b, t, i - |a| - 1)
  {
    var s := a + "\n" + b;
    if i <= |a| {
      if OccursAt(s, t, i) {
        assert forall k :: 0 <= k < |t| ==> t[k] == s[i + k];
        assert s[|a|] == '\n';
        assert s[i..i + |t|] == a[i..i + |t|];
      }
      if OccursAt(a, t, i) { assert s[i..i + |t|] == a[i..i + |t|]; }
    } else {
      var k := i - |a| - 1;
      if i + |t| <= |s| { assert s[i..i + |t|] == b[k..k + |t|]; }
    }
  }

  /** Occurrences of the marker in a laid-out text: in the second line, or from the last on. */
  lemma OccurrencesInLayout(first: string, second: string, third: string, marker: string, tail: string, i: nat)
    requires '\n' !in marker && |marker| > |first| && |marker| > |third|
    ensures var at := |first| + |second| + |third| + 3;
            OccursAt(Layout(first, second, third, marker) + tail, marker, i) <==>
              if i <= |first| then false
              else if i <= |first| + 1 + |second| then OccursAt(second, marker, i - |first| - 1)
              else if i < at then false
              else OccursAt(marker + tail, marker, i - at)
  {
    var b2 := third + "\n" + (marker + tail);
    var b1 := second + "\n" + b2;
    assert Layout(first, second, third, marker) + tail == first + "\n" + b1;
    OccursInOneLine(first, b1, marker, i);
    if i > |first| {
      OccursInOneLine(second, b2, marker, i - |first| - 1);
      if i > |first| + 1 + |second| {
        OccursInOneLine(third, marker + tail, marker, i - |first| - |second| - 2);
      }
    }
  }

  lemma LayoutTail(first: string, second: string, third: string, marker: string, tail: string)
    ensures var text := Layout(first, second, third, marker) + tail;
            var at := |first| + |second| + |third| + 3;
            |text| == at + |marker| + |tail| && text[at + |marker|..] == tail
  {
  }

  /** The last line is where the marker is found first exactly when the second line lacks it. */
  lemma FindInLayout(first: string, second: string, third: string, marker: string, tail: string)
    requires '\n' !in marker && |marker| > |first| && |marker| > |third|
    ensures var text := Layout(first, second, third, marker) + tail;
            var at := |first| + |second| + |third| + 3;
            && |text| == at + |marker| + |tail|
            && text[at + |marker|..] == tail
            && Find(text, marker) <= at
            && (Find(text, marker) == at <==> !Contains(second, marker))
  {
    var text := Layout(first, second, third, marker) + tail;
    var at := |first| + |second| + |third| + 3;
    LayoutTail(first, second, third, marker, tail);
    OccurrencesInLayout(first, second, third, marker, tail, at);
    assert (marker + tail)[..|marker|] == marker;
    assert OccursAt(text, marker, at);
    if Contains(second, marker) {
      var k :| 0 <= k <= |second| && OccursAt(second, marker, k);
      OccurrencesInLayout(first, second, third, marker, tail, |first| + 1 + k);
    } else {
      var k := Find(text, marker);
      OccurrencesInLayout(first, second, third, marker, tail, k);
    }
  }

  /** Text prepended without sharing the start of the marker adds no occurrence. */
  lemma ContainsAfterOpen(open: string, rest: string, marker: string)
    requires |open| > 5 && |marker| > 5 && open[5] != marker[5]
    requires forall i :: 0 < i < |open| ==> open[i] != marker[0]
    ensures Contains(open + rest, marker) <==> Contains(rest, marker)
  {
    var s := open + rest;
    if Contains(rest, marker) {
      var k :| 0 <= k <= |rest| && OccursAt(rest, marker, k);
      assert s[k + |open|..k + |open| + |marker|] == rest[k..k + |marker|];
      assert OccursAt(s, marker, k + |open|);
    }
    if Contains(s, marker) {
      var k :| 0 <= k <= |s| && OccursAt(s, marker, k);
      assert forall i :: 0 <= i < |marker| ==> marker[i] == s[k + i];
      assert marker[0] == s[k] && marker[5] == s[k + 5];
      assert s[k..k + |marker|] == rest[k - |open|..k - |open| + |marker|];
      assert OccursAt(rest, marker, k - |open|);
    }
  }

  /** What the parser relies on: one-line pieces, a marker longer than the fixed lines, and
      lines told apart by their sixth character. */
  ghost predicate Fits(b: Template) {
    && OneLine(b.marker) && OneLine(b.prefix) && OneLine(b.open) && OneLine(b.close) && OneLine(b.generatedBy)
    && |b.marker| > |b.prefix| > 5 && |b.marker| > |b.generatedBy| > 5 && |b.open| > 5
    && b.open[5] !in {b.prefix[5], b.generatedBy[5], b.marker[5]}
    && (forall i :: 0 < i < |b.open| ==> b.open[i] != b.marker[0])
  }

  lemma CurrentBannerFits()
    ensures Fits(CURRENT_BANNER)
  {
    CopyLineFacts();
    ToolLineFacts();
    NoticeFacts();
    OpenFacts();
    assert CURRENT_BANNER.marker == NOTICE + " -->";
  }

  lemma CopyLineFacts()
    ensures OneLine(COPY_LINE) && |COPY_LINE| == 41 && COPY_LINE[5] == 'G'
  {
  }

  lemma ToolLineFacts()
    ensures OneLine(TOOL_LINE) && |TOOL_LINE| == 47 && TOOL_LINE[5] == 'G'
  {
  }

  lemma NoticeNewline() ensures '\n' !in NOTICE {}
  lemma NoticeReturn() ensures '\r' !in NOTICE {}
  lemma NoticeShape() ensures |NOTICE| == 79 && NOTICE[0] == '<' && NOTICE[5] == 'D' && NOTICE[78] == '.' {}

  lemma NoticeFacts()
    ensures OneLine(NOTICE) && |NOTICE| == 79 && NOTICE[0] == '<' && NOTICE[5] == 'D' && NOTICE[78] == '.'
  {
    NoticeNewline();
    NoticeReturn();
    NoticeShape();
  }

  lemma OpenFacts()
    ensures OneLine(OPEN) && |OPEN| == 13 && OPEN[5] == 'S' && OneLine(" -->")
    ensures forall i :: 0 < i < |OPEN| ==> OPEN[i] != '<'
  {
  }

  lemma FixedLines(b: Template)
    requires Fits(b)
    ensures !IsSourceLine(b, b.prefix) && !IsSourceLine(b, b.generatedBy) && !IsSourceLine(b, b.marker) && !IsSourceLine(b, "")
  {
    forall line: string | StartsWith(line, b.open) ensures line[5] == b.open[5] {
      assert line[..|b.open|][5] == b.open[5];
    }
  }

  // ---------------------------------------------------------------- the source line

  lemma SplitLine(first: string, rest: string)
    requires '\n' !in first
    ensures SplitOn('\n', first + "\n" + rest) == [first] + SplitOn('\n', rest)
  {
    SplitOnHead('\n', first, rest);
  }

  lemma SplitLayout(first: string, second: string, rest: string)
    requires '\n' !in first && '\n' !in second
    ensures SplitOn('\n', first + "\n" + (second + "\n" + rest)) == [first, second] + SplitOn('\n', rest)
  {
    SplitLine(first, second + "\n" + rest);
    SplitLine(second, rest);
  }

  lemma SourceOfCopy(b: Template, path: string, text: string)
    requires Fits(b)
    requires '\n' !in path && path != ""
    ensures FirstSource(b, SplitOn('\n', RenderCopy(b, path, text))) == Some(Strip(path))
  {
    FixedLines(b);
    var line := b.open + path + b.close;
    var rest := b.generatedBy + "\n" + (b.marker + ("\n\n" + text));
    assert RenderCopy(b, path, text) == b.prefix + "\n" + (line + "\n" + rest);
    SplitLayout(b.prefix, line, rest);
    assert line[..|b.open|] == b.open && line[|line| - |b.close|..] == b.close;
    assert line[|b.open|..|line| - |b.close|] == path;
    SecondLine(b, b.prefix, line, SplitOn('\n', rest));
  }

  lemma SecondLine(b: Template, first: string, second: string, rest: seq<string>)
    requires !IsSourceLine(b, first) && IsSourceLine(b, second)
    ensures FirstSource(b, [first, second] + rest) == Some(Strip(second[|b.open|..|second| - |b.close|]))
  {
    assert ([first, second] + rest)[1..] == [second] + rest;
  }

  lemma EmptyCopyLines(b: Template)
    requires Fits(b)
    ensures SplitOn('\n', RenderCopy(b, "", "")) == [b.prefix, b.open + b.close] + ([b.generatedBy, b.marker] + ["", ""])
  {
    var line := b.open + b.close;
    var tail := b.generatedBy + "\n" + (b.marker + "\n" + "\n");
    assert RenderCopy(b, "", "") == b.prefix + "\n" + (line + "\n" + tail);
    OpenCloseInOneLine(b);
    SplitLayout(b.prefix, line, tail);
    SplitLayout(b.generatedBy, b.marker, "\n");
    LoneBreak();
  }

  lemma OpenCloseInOneLine(b: Template)
    requires Fits(b)
    ensures '\n' !in b.open + b.close
  {
  }

  lemma EmptyPathHasNoSource(b: Template)
    requires Fits(b)
    ensures FirstSource(b, SplitOn('\n', RenderCopy(b, "", ""))) == None
  {
    var lines := [b.prefix, b.open + b.close] + ([b.generatedBy, b.marker] + ["", ""]);
    EmptyCopyLines(b);
    FixedLines(b);
    forall i | 0 <= i < |lines| ensures !IsSourceLine(b, lines[i]) {
      assert lines[i] in {b.prefix, b.open + b.close, b.generatedBy, b.marker, ""};
    }
    NoSource(b, lines);
  }

  lemma LoneBreak()
    ensures SplitOn('\n', "\n") == ["", ""]
  {
    SplitOnHead('\n', "", "");
    assert "" + ['\n'] + "" == "\n";
  }

  lemma {:induction false} NoSource(b: Template, lines: seq<string>)
    requires forall i :: 0 <= i < |lines| ==> !IsSourceLine(b, lines[i])
    ensures FirstSource(b, lines) == None
  {
    if lines != [] { NoSource(b, lines[1..]); }
  }

  lemma {:induction false} SourceLacks(b: Template, lines: seq<string>, c: char)
    requires forall i :: 0 <= i < |lines| ==> c !in lines[i]
    ensures FirstSource(b, lines).Some? ==> c !in FirstSource(b, lines).value
  {
    if lines != [] {
      if IsSourceLine(b, lines[0]) {
        var inner := lines[0][|b.open|..|lines[0]| - |b.close|];
        StripFacts(inner);
        forall d | d in inner ensures d in lines[0] {}
      } else {
        SourceLacks(b, lines[1..], c);
      }
    }
  }

  // ---------------------------------------------------------------- round trip

  /** What follows a marker found too early is longer than the text copied. */
  lemma RemainderIff(rest: string, text: string, found: bool)
    requires if found then rest == "\n\n" + text else |rest| > |text| + 2
    ensures DropBreaks(rest) == text <==> found
  {
    if found {
      assert rest[..2] == "\n\n" && rest[2..] == text;
    } else {
      assert |DropBreaks(rest)| >= |rest| - 2;
    }
  }

  lemma CopyStarts(b: Template, path: string, text: string)
    ensures StartsWith(RenderCopy(b, path, text), b.prefix)
  {
    assert RenderCopy(b, path, text)[..|b.prefix|] == b.prefix;
  }

  /** The text behind the first marker of a copy. */
  lemma BehindMarker(b: Template, path: string, text: string)
    requires Fits(b)
    ensures var copy := RenderCopy(b, path, text);
            var at := Find(copy, b.marker);
            && at + |b.marker| <= |copy|
            && if !Contains(path + b.close, b.marker) then copy[at + |b.marker|..] == "\n\n" + text
               else |copy[at + |b.marker|..]| > |text| + 2
  {
    var second := b.open + path + b.close;
    FindInLayout(b.prefix, second, b.generatedBy, b.marker, "\n\n" + text);
    assert second == b.open + (path + b.close);
    ContainsAfterOpen(b.open, path + b.close, b.marker);
  }

  lemma ParseOfCopy(b: Template, path: string, text: string)
    requires Fits(b)
    ensures var p := ParseBanner(b, RenderCopy(b, path, text));
            && p.source == FirstSource(b, SplitOn('\n', RenderCopy(b, path, text)))
            && (p.remainder == text <==> !Contains(path + b.close, b.marker))
  {
    var copy := RenderCopy(b, path, text);
    CopyStarts(b, path, text);
    BehindMarker(b, path, text);
    RemainderIff(copy[Find(copy, b.marker) + |b.marker|..], text, !Contains(path + b.close, b.marker));
  }

  lemma CopyParsesBack(b: Template, path: string, text: string)
    requires Fits(b) && path != "" && '\r' !in path
    ensures ParseBanner(b, RenderCopy(b, path, text)) == Parsed(Some(path), text) <==> BannerSafe(b, path)
  {
    ParseOfCopy(b, path, text);
    if '\n' in path {
      SplitParts('\n', RenderCopy(b, path, text));
      SourceLacks(b, SplitOn('\n', RenderCopy(b, path, text)), '\n');
    } else {
      SourceOfCopy(b, path, text);
      StripFacts(path);
    }
  }

  lemma HeadOfCopy(b: Template, path: string, text: string)
    ensures RenderCopy(b, path, text) == RenderCopy(b, path, "") + text
  {
  }

  lemma CopyHeadClean(b: Template, path: string)
    requires Fits(b) && '\r' !in path
    ensures '\r' !in RenderCopy(b, path, "")
  {
  }

  /** Reading a stored copy translates the text in it and nothing else. */
  lemma CopyTranslated(b: Template, path: string, text: string)
    requires Fits(b) && '\r' !in path
    ensures Translate(RenderCopy(b, path, text)) == RenderCopy(b, path, Translate(text))
  {
    HeadOfCopy(b, path, text);
    HeadOfCopy(b, path, Translate(text));
    CopyHeadClean(b, path);
    TranslateAppend(RenderCopy(b, path, ""), text);
  }

  /** A source path read from a stored text holds no carriage return. */
  lemma SourceRead(b: Template, stored: string)
    ensures var source := ParseBanner(b, Translate(stored)).source; source.Some? ==> '\r' !in source.value
  {
    var text := Translate(stored);
    TranslateClean(stored);
    SplitParts('\n', text);
    assert ['\n'] == "\n";
    PartsWithin('\n', SplitOn('\n', text), '\r');
    SourceLacks(b, SplitOn('\n', text), '\r');
  }

  /** A stored copy of a non-empty path is read back, path and text as read, exactly when the path is
      safe. */
  lemma CopyReadsBack(b: Template, path: string, text: string)
    requires Fits(b) && path != ""
    ensures ParseBanner(b, Translate(RenderCopy(b, path, text))) == Parsed(Some(path), Translate(text)) <==> BannerSafe(b, path)
  {
    if '\r' in path {
      SourceRead(b, RenderCopy(b, path, text));
    } else {
      CopyTranslated(b, path, text);
      CopyParsesBack(b, path, Translate(text));
    }
  }

  /** Reading and parsing a generated copy gives back the source path and the source text, whatever
      the text is, exactly for the safe paths. */
  lemma BannerRoundTrip(b: Template, path: string)
    requires Fits(b)
    ensures (forall text :: ParseBanner(b, Translate(RenderCopy(b, path, text))) == Parsed(Some(path), Translate(text)))
       <==> BannerSafe(b, path)
  {
    if path == "" {
      CopyTranslated(b, "", "");
      EmptyPathHasNoSource(b);
      ParseOfCopy(b, "", "");
      assert ParseBanner(b, Translate(RenderCopy(b, "", ""))).source == None;
    } else {
      forall text
        ensures ParseBanner(b, Translate(RenderCopy(b, path, text))) == Parsed(Some(path), Translate(text)) <==> BannerSafe(b, path)
      {
        CopyReadsBack(b, path, text);
      }
      assert ParseBanner(b, Translate(RenderCopy(b, path, ""))) == Parsed(Some(path), Translate("")) <==> BannerSafe(b, path);
    }
  }

  /** A file name with a carriage return: no copy of it is ever read back as its own. */
  lemma ReturnInPath(text: string)
    ensures ParseBanner(CURRENT_BANNER, Translate(RenderCopy(CURRENT_BANNER, "a\rb.md", text))).source != Some("a\rb.md")
  {
    SourceRead(CURRENT_BANNER, RenderCopy(CURRENT_BANNER, "a\rb.md", text));
    assert "a\rb.md"[1] == '\r';
  }

  /** A path free of the marker can still be unsafe: the marker's own closing characters are
      supplied by the comment that wraps the path. */
  lemma MarkerFreePathCanBeUnsafe()
    ensures NOTICE != "" && Trimmed(NOTICE) && OneLine(NOTICE)
    ensures !Contains(NOTICE, CURRENT_BANNER.marker) && !BannerSafe(CURRENT_BANNER, NOTICE)
  {
    NoticeFacts();
    CutMarkerIsUnsafe(CURRENT_BANNER, NOTICE);
  }

  lemma CutMarkerIsUnsafe(b: Template, path: string)
    requires b.marker == path + b.close && b.close != ""
    ensures !Contains(path, b.marker) && !BannerSafe(b, path)
  {
    assert OccursAt(path + b.close, b.marker, 0);
  }

  /** A text that does not begin with the banner's first line, or lacks the marker, is no copy: it has
      no source and is its own remainder. */
  lemma NoCopy(b: Template, text: string)
    requires !(b.prefix <= text) || !Contains(text, b.marker)
    ensures ParseBanner(b, text) == Parsed(None, text)
  {
  }

  /** Behind the first marker at most two newlines are dropped; what follows is the remainder. */
  lemma RemainderRead(b: Template, head: string, rest: string)
    requires b.prefix <= head + b.marker + rest
    requires forall i :: 0 <= i < |head| ==> !OccursAt(head + b.marker + rest, b.marker, i)
    ensures ParseBanner(b, head + b.marker + rest).remainder ==
            if |rest| >= 2 && rest[0] == '\n' && rest[1] == '\n' then rest[2..]
            else if rest != "" && rest[0] == '\n' then rest[1..] else rest
  {
    var text := head + b.marker + rest;
    assert text[|head|..|head| + |b.marker|] == b.marker;
    assert OccursAt(text, b.marker, |head|);
    assert Find(text, b.marker) == |head|;
    assert text[|head| + |b.marker|..] == rest;
    BreaksDropped(rest);
  }

  lemma BreaksDropped(rest: string)
    ensures DropBreaks(rest) ==
            if |rest| >= 2 && rest[0] == '\n' && rest[1] == '\n' then rest[2..]
            else if rest != "" && rest[0] == '\n' then rest[1..] else rest
  {
    if |rest| >= 2 { assert rest[..2] == "\n\n" <==> rest[0] == '\n' && rest[1] == '\n'; }
    if |rest| >= 1 { assert rest[..1] == "\n" <==> rest[0] == '\n'; }
  }

  lemma SourceLineIff(b: Template, line: string)
    ensures IsSourceLine(b, line) <==> exists path :: path != "" && line == b.open + path + b.close
  {
    if IsSourceLine(b, line) {
      var path := line[|b.open|..|line| - |b.close|];
      assert line == b.open + path + b.close;
    }
    if path :| path != "" && line == b.open + path + b.close {
      assert line[..|b.open|] == b.open && line[|line| - |b.close|..] == b.close;
    }
  }

  /** The source is the trimmed path of the first line that is nothing but a source comment around a
      path of one character or more. */
  lemma {:induction false} SourceOfLines(b: Template, lines: seq<string>, i: nat, path: string)
    requires i < |lines| && lines[i] == b.open + path + b.close && path != ""
    requires forall j, other :: 0 <= j < i && other != "" ==> lines[j] != b.open + other + b.close
    ensures FirstSource(b, lines) == Some(Strip(path))
  {
    if i == 0 {
      var line := lines[0];
      assert line[..|b.open|] == b.open && line[|line| - |b.close|..] == b.close && line[|b.open|..|line| - |b.close|] == path;
    } else {
      SourceLineIff(b, lines[0]);
      SourceOfLines(b, lines[1..], i - 1, path);
    }
  }
}
