/** Python string operations the components rely on: whitespace, strip, split, join, reading a stored
    text with its line ends translated, and the two notions of line (a text file's, and splitlines
    with its wider set of breaks). */
module Text {

  /** str.isspace, which is also the class \s of a str pattern. */
  predicate IsSpace(c: char) {
    var n := c as int;
    9 <= n <= 13 || 28 <= n <= 32 || n == 0x85 || n == 0xA0 || n == 0x1680 ||
    0x2000 <= n <= 0x200A || n == 0x2028 || n == 0x2029 || n == 0x202F || n == 0x205F || n == 0x3000
  }

  /** The line boundaries of str.splitlines. */
  predicate IsLineBreak(c: char) {
    var n := c as int;
    10 <= n <= 13 || 28 <= n <= 30 || n == 0x85 || n == 0x2028 || n == 0x2029
  }

  predicate IsNewline(c: char) {
    c == '\n'
  }

  /** The line boundaries of a stored text file, which reading turns into newlines. */
  predicate IsFileBreak(c: char) {
    c == '\n' || c == '\r'
  }

  /** Text that stays on one line of a file. */
  predicate OneLine(s: string) {
    '\n' !in s && '\r' !in s
  }

  predicate Lacks(s: string, p: char -> bool) {
    forall i :: 0 <= i < |s| ==> !p(s[i])
  }

  predicate Blank(s: string) {
    forall i :: 0 <= i < |s| ==> IsSpace(s[i])
  }

  function LStripIf(p: char -> bool, s: string): string {
    if s != "" && p(s[0]) then LStripIf(p, s[1..]) else s
  }

  function RStripIf(p: char -> bool, s: string): string {
    if s != "" && p(s[|s| - 1]) then RStripIf(p, s[..|s| - 1]) else s
  }

  function Strip(s: string): string {
    RStripIf(IsSpace, LStripIf(IsSpace, s))
  }

  predicate Trimmed(s: string) {
    s == "" || (!IsSpace(s[0]) && !IsSpace(s[|s| - 1]))
  }

  predicate StartsWith(s: string, prefix: string) {
    |prefix| <= |s| && s[..|prefix|] == prefix
  }

  predicate EndsWith(s: string, suffix: string) {
    |suffix| <= |s| && s[|s| - |suffix|..] == suffix
  }

  function Join(sep: string, parts: seq<string>): string {
    if parts == [] then ""
    else if |parts| == 1 then parts[0]
    else parts[0] + sep + Join(sep, parts[1..])
  }

  /** Number of leading characters before the first one satisfying p. */
  function Span(p: char -> bool, s: string): (n: nat)
    ensures n <= |s|
    ensures forall i :: 0 <= i < n ==> !p(s[i])
    ensures n < |s| ==> p(s[n])
  {
    if s == "" || p(s[0]) then 0 else 1 + Span(p, s[1..])
  }

  /** str.split with a one-character separator. */
  function SplitOn(c: char, s: string): seq<string>
    decreases |s|
  {
    var k := Span(x => x == c, s);
    if k == |s| then [s] else [s[..k]] + SplitOn(c, s[k + 1..])
  }

  /** Lines of s, cut after every character in brk; "\r\n" is one boundary when "\r" is in brk. */
  function Lines(brk: char -> bool, s: string): seq<string>
    decreases |s|
  {
    if s == "" then []
    else
      var k := Span(brk, s);
      if k == |s| then [s]
      else
        [s[..k]] + Lines(brk, AfterCut(s, k))
  }

  function AfterCut(s: string, k: nat): (rest: string)
    requires k < |s|
    ensures |rest| < |s|
  {
    s[k + CutWidth(s, k)..]
  }

  /** Characters a boundary takes up. */
  function CutWidth(s: string, k: nat): (n: nat)
    requires k < |s|
    ensures 1 <= n && k + n <= |s|
  {
    if s[k] == '\r' && k + 1 < |s| && s[k + 1] == '\n' then 2 else 1
  }

  /** str.splitlines. */
  function SplitLines(s: string): seq<string> {
    Lines(IsLineBreak, s)
  }

  /** What successive readline calls on a stored text return, without the newlines. */
  function FileLines(s: string): seq<string> {
    Lines(IsFileBreak, s)
  }

  /** What reading a stored text returns: each line end becomes a newline. */
  function Translate(s: string): string {
    if s == "" then ""
    else if s[0] == '\r' then "\n" + Translate(AfterCut(s, 0))
    else [s[0]] + Translate(s[1..])
  }

  lemma HeadTail<T>(s: seq<T>, t: seq<T>)
    requires s != []
    ensures [s[0]] + (s[1..] + t) == s + t
  {
  }

  // ---------------------------------------------------------------- strip

  lemma {:induction false} LStripCut(p: char -> bool, s: string) returns (k: nat)
    ensures k <= |s| && LStripIf(p, s) == s[k..]
    ensures forall i :: 0 <= i < k ==> p(s[i])
    ensures k < |s| ==> !p(s[k])
  {
    k := 0;
    if s != "" && p(s[0]) {
      k := LStripCut(p, s[1..]);
      k := k + 1;
      assert forall i :: 0 < i < k ==> s[i] == s[1..][i - 1];
    }
  }

  lemma {:induction false} RStripCut(p: char -> bool, s: string) returns (k: nat)
    ensures k <= |s| && RStripIf(p, s) == s[..k]
    ensures forall i :: k <= i < |s| ==> p(s[i])
    ensures k > 0 ==> !p(s[k - 1])
  {
    k := |s|;
    if s != "" && p(s[|s| - 1]) {
      k := RStripCut(p, s[..|s| - 1]);
      assert s[..|s| - 1][..k] == s[..k];
    }
  }

  lemma StripCut(s: string) returns (a: nat, b: nat)
    ensures a <= b <= |s| && Strip(s) == s[a..b]
    ensures forall i :: 0 <= i < a || b <= i < |s| ==> IsSpace(s[i])
    ensures a < b ==> !IsSpace(s[a]) && !IsSpace(s[b - 1])
  {
    a := LStripCut(IsSpace, s);
    var l := s[a..];
    var k := RStripCut(IsSpace, l);
    b := a + k;
    assert l[..k] == s[a..b];
    forall i | b <= i < |s| ensures IsSpace(s[i]) { assert s[i] == l[i - a]; }
    if k > 0 { assert s[b - 1] == l[k - 1]; }
  }

  lemma StripFacts(s: string)
    ensures Trimmed(Strip(s))
    ensures Strip(s) == "" <==> Blank(s)
    ensures forall c :: c in Strip(s) ==> c in s
    ensures Trimmed(s) ==> Strip(s) == s
  {
    var a, b := StripCut(s);
    if a < b { assert !IsSpace(s[a]); }
    if Trimmed(s) && s != "" {
      assert !IsSpace(s[0]);
      assert a == 0 && b == |s|;
    }
  }

  /** Surrounding whitespace does not change the stripped text. */
  lemma StripPadded(pre: string, t: string, post: string)
    requires Blank(pre) && Blank(post) && Trimmed(t)
    ensures Strip(pre + t + post) == t
  {
    LStripBlank(IsSpace, pre, t + post);
    assert pre + t + post == pre + (t + post);
    if t == "" {
      assert t + post == post;
      StripBlankIsEmpty(pre + post);
      assert pre + t + post == pre + post;
    } else {
      assert (t + post)[0] == t[0];
      RStripBlank(IsSpace, t, post);
    }
  }

  lemma StripBlankIsEmpty(s: string)
    requires Blank(s)
    ensures Strip(s) == ""
  {
    StripFacts(s);
  }

  lemma {:induction false} LStripBlank(p: char -> bool, pre: string, s: string)
    requires forall i :: 0 <= i < |pre| ==> p(pre[i])
    ensures LStripIf(p, pre + s) == LStripIf(p, s)
  {
    if pre == "" {
      assert pre + s == s;
    } else {
      assert (pre + s)[1..] == pre[1..] + s;
      LStripBlank(p, pre[1..], s);
    }
  }

  lemma {:induction false} RStripBlank(p: char -> bool, s: string, post: string)
    requires forall i :: 0 <= i < |post| ==> p(post[i])
    requires s != "" && !p(s[|s| - 1])
    ensures RStripIf(p, s + post) == s
  {
    if post == "" {
      assert s + post == s;
    } else {
      assert (s + post)[..|s + post| - 1] == s + post[..|post| - 1];
      RStripBlank(p, s, post[..|post| - 1]);
    }
  }

  // ---------------------------------------------------------------- split and join

  lemma {:induction false} SpanAt(p: char -> bool, s: string, k: nat)
    requires k <= |s| && (forall i :: 0 <= i < k ==> !p(s[i])) && (k < |s| ==> p(s[k]))
    ensures Span(p, s) == k
  {
    var n := Span(p, s);
    assert n < |s| ==> p(s[n]);
    assert k < |s| ==> p(s[k]);
  }

  /** A separator-free head followed by the separator is cut off as the first part. */
  lemma SplitOnHead(c: char, a: string, rest: string)
    requires c !in a
    ensures SplitOn(c, a + [c] + rest) == [a] + SplitOn(c, rest)
    ensures SplitOn(c, a) == [a]
  {
    var s := a + [c] + rest;
    SpanAt(x => x == c, s, |a|);
    assert s[..|a|] == a && s[|a| + 1..] == rest;
    SpanAt(x => x == c, a, |a|);
  }

  lemma SplitJoinStep(c: char, first: string, tail: seq<string>)
    requires c !in first && tail != [] && SplitOn(c, Join([c], tail)) == tail
    ensures SplitOn(c, Join([c], [first] + tail)) == [first] + tail
  {
    SplitOnHead(c, first, Join([c], tail));
    assert ([first] + tail)[1..] == tail;
  }

  lemma {:induction false} SplitJoin(c: char, parts: seq<string>)
    requires parts != [] && forall i :: 0 <= i < |parts| ==> c !in parts[i]
    ensures SplitOn(c, Join([c], parts)) == parts
  {
    if |parts| == 1 {
      SplitOnHead(c, parts[0], "");
      assert parts == [parts[0]];
    } else {
      SplitJoin(c, parts[1..]);
      SplitJoinStep(c, parts[0], parts[1..]);
      assert parts == [parts[0]] + parts[1..];
    }
  }

  lemma {:induction false} SplitParts(c: char, s: string)
    ensures SplitOn(c, s) != []
    ensures forall i :: 0 <= i < |SplitOn(c, s)| ==> c !in SplitOn(c, s)[i]
    ensures Join([c], SplitOn(c, s)) == s
    decreases |s|
  {
    var k := Span(x => x == c, s);
    if k < |s| {
      SplitParts(c, s[k + 1..]);
      assert s == s[..k] + [c] + s[k + 1..];
      assert SplitOn(c, s)[1..] == SplitOn(c, s[k + 1..]);
    }
  }

  lemma {:induction false} PartsWithin(c: char, parts: seq<string>, d: char)
    requires d !in Join([c], parts)
    ensures forall i :: 0 <= i < |parts| ==> d !in parts[i]
  {
    if |parts| > 1 {
      var s := parts[0] + [c] + Join([c], parts[1..]);
      assert forall x :: x in Join([c], parts[1..]) ==> x in s;
      assert forall x :: x in parts[0] ==> x in s;
      PartsWithin(c, parts[1..], d);
      assert forall i :: 0 < i < |parts| ==> parts[i] == parts[1..][i - 1];
    }
  }

  /** A break-free head followed by a newline is cut off as the first line. */
  lemma LinesHead(brk: char -> bool, a: string, rest: string)
    requires Lacks(a, brk) && brk('\n')
    ensures Lines(brk, a + "\n" + rest) == [a] + Lines(brk, rest)
    ensures a != "" ==> Lines(brk, a) == [a]
  {
    var s := a + "\n" + rest;
    SpanAt(brk, s, |a|);
    assert s[..|a|] == a && s[|a| + 1..] == rest;
    SpanAt(brk, a, |a|);
  }

  function DropEmptyLast(parts: seq<string>): seq<string> {
    if parts != [] && parts[|parts| - 1] == "" then parts[..|parts| - 1] else parts
  }

  lemma DropEmptyLastBehind(first: string, tail: seq<string>)
    requires tail != []
    ensures DropEmptyLast([first] + tail) == [first] + DropEmptyLast(tail)
  {
  }

  lemma LinesJoinStep(brk: char -> bool, first: string, tail: seq<string>)
    requires brk('\n') && Lacks(first, brk) && tail != []
    requires Lines(brk, Join("\n", tail)) == DropEmptyLast(tail)
    ensures Lines(brk, Join("\n", [first] + tail)) == DropEmptyLast([first] + tail)
  {
    LinesHead(brk, first, Join("\n", tail));
    JoinCons(first, tail);
    DropEmptyLastBehind(first, tail);
  }

  /** A trailing empty line is not seen: the text then ends in a newline. */
  lemma {:induction false} LinesJoin(brk: char -> bool, parts: seq<string>)
    requires brk('\n') && forall i :: 0 <= i < |parts| ==> Lacks(parts[i], brk)
    ensures Lines(brk, Join("\n", parts)) == DropEmptyLast(parts)
  {
    if |parts| == 1 {
      LinesHead(brk, parts[0], "");
      assert parts == [parts[0]];
    } else if |parts| > 1 {
      LinesJoin(brk, parts[1..]);
      LinesJoinStep(brk, parts[0], parts[1..]);
      assert parts == [parts[0]] + parts[1..];
    }
  }

  lemma JoinStep(parts: seq<string>, rest: string)
    requires |parts| > 1
    ensures Join("\n", parts) + "\n" + rest == parts[0] + "\n" + (Join("\n", parts[1..]) + "\n" + rest)
  {
  }

  lemma {:induction false} LinesThen(brk: char -> bool, parts: seq<string>, rest: string, tail: seq<string>)
    requires parts != [] && brk('\n') && forall i :: 0 <= i < |parts| ==> Lacks(parts[i], brk)
    requires Lines(brk, rest) == tail
    ensures Lines(brk, Join("\n", parts) + "\n" + rest) == parts + tail
  {
    if |parts| == 1 {
      LinesHead(brk, parts[0], rest);
      assert parts == [parts[0]];
    } else {
      LinesThen(brk, parts[1..], rest, tail);
      LinesHead(brk, parts[0], Join("\n", parts[1..]) + "\n" + rest);
      JoinStep(parts, rest);
      HeadTail(parts, tail);
    }
  }

  predicate EndsLine(t: string) {
    t != "" && t[|t| - 1] == '\n'
  }

  /** t ends in a boundary that does not run on into b. */
  predicate CutBefore(brk: char -> bool, t: string, b: string) {
    t != "" && brk(t[|t| - 1]) && !(t[|t| - 1] == '\r' && b != "" && b[0] == '\n')
  }

  lemma CutApart(t: string, b: string, k: nat, n: nat)
    requires k < n <= |t|
    ensures (t + b)[..k] == t[..k] && (t + b)[k] == t[k] && (t + b)[n..] == t[n..] + b
    ensures n < |t| ==> t[n..] != "" && t[n..][|t[n..]| - 1] == t[|t| - 1]
  {
  }

  lemma SameSpan(brk: char -> bool, t: string, b: string)
    requires CutBefore(brk, t, b)
    ensures Span(brk, t) < |t| && Span(brk, t + b) == Span(brk, t)
  {
    var s, k := t + b, Span(brk, t);
    assert forall i :: 0 <= i < |t| ==> s[i] == t[i];
    assert brk(t[|t| - 1]);
    SpanAt(brk, s, k);
  }

  lemma SameWidth(brk: char -> bool, t: string, b: string, k: nat)
    requires CutBefore(brk, t, b) && k < |t|
    ensures CutWidth(t + b, k) == CutWidth(t, k)
  {
    var s := t + b;
    assert s[k] == t[k];
    if k + 1 < |t| { assert s[k + 1] == t[k + 1]; } else if b != "" { assert s[k + 1] == b[0]; }
  }

  /** The first cut of a text that ends in a boundary does not depend on what follows it. */
  lemma SameFirstCut(brk: char -> bool, t: string, b: string)
    requires CutBefore(brk, t, b)
    ensures var k := Span(brk, t);
            && k < |t| && Span(brk, t + b) == k && (t + b)[..k] == t[..k]
            && AfterCut(t + b, k) == AfterCut(t, k) + b
            && (AfterCut(t, k) == "" || CutBefore(brk, AfterCut(t, k), b))
  {
    SameSpan(brk, t, b);
    var k := Span(brk, t);
    SameWidth(brk, t, b, k);
    CutApart(t, b, k, k + CutWidth(t, k));
  }

  lemma LinesCut(brk: char -> bool, s: string)
    requires s != "" && Span(brk, s) < |s|
    ensures Lines(brk, s) == [s[..Span(brk, s)]] + Lines(brk, AfterCut(s, Span(brk, s)))
  {
  }

  lemma SameHead<T>(whole: seq<T>, first: seq<T>, wholeRest: seq<T>, firstRest: seq<T>, second: seq<T>, x: T)
    requires whole == [x] + wholeRest && first == [x] + firstRest && wholeRest == firstRest + second
    ensures whole == first + second
  {
  }

  lemma EmptyInFront(b: string)
    ensures "" + b == b
  {
  }

  /** A boundary ends a line, whatever comes before and after it. */
  lemma {:induction false} LinesAppend(brk: char -> bool, t: string, b: string)
    requires CutBefore(brk, t, b)
    ensures Lines(brk, t + b) == Lines(brk, t) + Lines(brk, b)
    decreases |t|
  {
    SameFirstCut(brk, t, b);
    LinesCut(brk, t + b);
    LinesCut(brk, t);
    var k := Span(brk, t);
    var rest := AfterCut(t, k);
    if rest == "" { EmptyInFront(b); } else { LinesAppend(brk, rest, b); }
    SameHead(Lines(brk, t + b), Lines(brk, t), Lines(brk, rest + b), Lines(brk, rest), Lines(brk, b), t[..k]);
  }

  lemma {:induction false} LinesLack(brk: char -> bool, s: string)
    ensures forall i :: 0 <= i < |Lines(brk, s)| ==> Lacks(Lines(brk, s)[i], brk)
    decreases |s|
  {
    if s != "" {
      var k := Span(brk, s);
      if k < |s| {
        LinesLack(brk, AfterCut(s, k));
      }
    }
  }

  lemma JoinCons(first: string, tail: seq<string>)
    requires tail != []
    ensures Join("\n", [first] + tail) == first + "\n" + Join("\n", tail)
  {
    assert ([first] + tail)[1..] == tail;
  }

  lemma ChopLast(first: string, rest: string)
    requires rest != ""
    ensures var s := first + "\n" + rest;
            s[|s| - 1] == rest[|rest| - 1] && s[..|s| - 1] == first + "\n" + rest[..|rest| - 1]
  {
  }

  /** When newline is the only boundary present, joining the lines restores the text but for
      one trailing newline. */
  lemma {:induction false} JoinLines(brk: char -> bool, s: string)
    requires brk('\n') && Lacks(s, c => brk(c) && c != '\n')
    ensures Join("\n", Lines(brk, s)) == if s != "" && s[|s| - 1] == '\n' then s[..|s| - 1] else s
    ensures Lines(brk, s) == Lines(IsNewline, s)
    decreases |s|
  {
    if s != "" {
      var k := Span(brk, s);
      SpanAt(IsNewline, s, k);
      if k < |s| {
        var first, rest := s[..k], s[k + 1..];
        CutAtNewline(s, k);
        LinesCut(brk, s);
        LinesCut(IsNewline, s);
        JoinLines(brk, rest);
        JoinLinesStep(first, rest, Lines(brk, rest));
      }
    }
  }

  lemma CutAtNewline(s: string, k: nat)
    requires k < |s| && s[k] == '\n'
    ensures AfterCut(s, k) == s[k + 1..] && s == s[..k] + "\n" + s[k + 1..]
  {
  }

  lemma JoinLinesStep(first: string, rest: string, lines: seq<string>)
    requires lines == [] <==> rest == ""
    requires Join("\n", lines) == if rest != "" && rest[|rest| - 1] == '\n' then rest[..|rest| - 1] else rest
    ensures var s := first + "\n" + rest;
            Join("\n", [first] + lines) == if s[|s| - 1] == '\n' then s[..|s| - 1] else s
  {
    if rest == "" {
      assert (first + "\n" + rest)[..|first|] == first;
    } else {
      JoinCons(first, lines);
      ChopLast(first, rest);
    }
  }

  // ---------------------------------------------------------------- reading stored text

  lemma {:induction false} TranslateClean(s: string)
    ensures '\r' !in Translate(s)
    decreases |s|
  {
    if s != "" {
      if s[0] == '\r' { TranslateClean(AfterCut(s, 0)); } else { TranslateClean(s[1..]); }
    }
  }

  lemma {:induction false} TranslateKeeps(s: string)
    requires '\r' !in s
    ensures Translate(s) == s
  {
    if s != "" { TranslateKeeps(s[1..]); }
  }

  /** A stored text is read as it stands exactly when it holds no carriage return. */
  lemma ReadsAsStoredIff(s: string)
    ensures Translate(s) == s <==> '\r' !in s
  {
    TranslateClean(s);
    if '\r' !in s { TranslateKeeps(s); }
  }

  lemma TranslateHead(c: char, rest: string)
    requires c != '\r'
    ensures Translate([c] + rest) == [c] + Translate(rest)
  {
    assert ([c] + rest)[1..] == rest;
  }

  lemma {:induction false} TranslateAppend(a: string, b: string)
    requires '\r' !in a
    ensures Translate(a + b) == a + Translate(b)
  {
    if a == "" {
      EmptyInFront(b);
      EmptyInFront(Translate(b));
    } else {
      TranslateAppend(a[1..], b);
      TranslateHead(a[0], a[1..] + b);
      HeadTail(a, b);
      HeadTail(a, Translate(b));
    }
  }

  /** Boundaries that differ on the carriage return only. */
  ghost predicate SameButReturn(stored: char -> bool, read: char -> bool) {
    stored('\r') && stored('\n') && forall c :: c != '\r' ==> (stored(c) <==> read(c))
  }

  lemma CutTail(s: string, k: nat)
    requires k < |s|
    ensures s == s[..k] + s[k..] && AfterCut(s, k) == AfterCut(s[k..], 0)
  {
  }

  lemma TranslateTail(tail: string)
    requires tail != ""
    ensures Translate(tail) == [if tail[0] == '\r' then '\n' else tail[0]] + Translate(AfterCut(tail, 0))
  {
  }

  lemma SliceAround(head: string, c: char, rest: string)
    ensures var t := head + ([c] + rest);
            |t| == |head| + 1 + |rest| && t[..|head|] == head && t[|head|] == c && t[|head| + 1..] == rest
  {
  }

  lemma TranslateFirstCut(stored: char -> bool, read: char -> bool, s: string)
    requires SameButReturn(stored, read) && Span(stored, s) < |s|
    ensures var k := Span(stored, s);
            && Span(read, Translate(s)) == k < |Translate(s)| && Translate(s)[..k] == s[..k]
            && AfterCut(Translate(s), k) == Translate(AfterCut(s, k))
  {
    var k := Span(stored, s);
    var head, tail := s[..k], s[k..];
    var c := if tail[0] == '\r' then '\n' else tail[0];
    CutTail(s, k);
    TranslateTail(tail);
    assert forall i :: 0 <= i < k ==> head[i] == s[i] && !stored(s[i]);
    TranslateAppend(head, tail);
    CutAtNewlineOrOther(head, c, Translate(AfterCut(s, k)), read);
  }

  lemma CutAtNewlineOrOther(head: string, c: char, rest: string, brk: char -> bool)
    requires c != '\r' && brk(c) && forall i :: 0 <= i < |head| ==> !brk(head[i])
    ensures var t := head + ([c] + rest);
            Span(brk, t) == |head| < |t| && t[..|head|] == head && AfterCut(t, |head|) == rest
  {
    var t := head + ([c] + rest);
    SliceAround(head, c, rest);
    assert forall i :: 0 <= i < |head| ==> t[i] == head[i];
    SpanAt(brk, t, |head|);
  }

  /** Cutting the stored text at its own boundaries and the read text at newlines gives the same
      lines. */
  lemma {:induction false} TranslateLines(stored: char -> bool, read: char -> bool, s: string)
    requires SameButReturn(stored, read)
    ensures Lines(stored, s) == Lines(read, Translate(s))
    decreases |s|
  {
    if s != "" {
      var k := Span(stored, s);
      if k == |s| {
        TranslateKeeps(s);
        assert forall i :: 0 <= i < |s| ==> !read(s[i]);
        SpanAt(read, s, k);
      } else {
        TranslateFirstCut(stored, read, s);
        LinesCut(stored, s);
        LinesCut(read, Translate(s));
        TranslateLines(stored, read, AfterCut(s, k));
      }
    }
  }

  /** Lines of the stored text are those of the text as read, for readline and for splitlines. */
  lemma ReadLinesAreStoredLines(s: string)
    ensures FileLines(s) == Lines(IsNewline, Translate(s)) && SplitLines(s) == SplitLines(Translate(s))
  {
    TranslateLines(IsFileBreak, IsNewline, s);
    TranslateLines(IsLineBreak, IsLineBreak, s);
  }

  lemma Parted(s: string, n: nat)
    requires 0 < n <= |s|
    ensures s == s[..n] + s[n..] && s[..n] != "" && s[..n][|s[..n]| - 1] == s[n - 1]
    ensures n < |s| ==> s[n..] != "" && s[n..][0] == s[n]
  {
  }

  lemma FirstLineApart(s: string, k: nat, n: nat)
    requires k < |s| && IsFileBreak(s[k]) && n == k + CutWidth(s, k)
    ensures s == s[..n] + s[n..] && AfterCut(s, k) == s[n..] && CutBefore(IsLineBreak, s[..n], s[n..])
  {
    Parted(s, n);
    CutsWhole(s, k);
  }

  lemma CutsWhole(s: string, k: nat)
    requires k < |s| && IsFileBreak(s[k])
    ensures var n := k + CutWidth(s, k);
            IsFileBreak(s[n - 1]) && (n < |s| && s[n - 1] == '\r' ==> s[n] != '\n')
  {
  }

  lemma SomeLine(brk: char -> bool, s: string)
    requires s != ""
    ensures |Lines(brk, s)| >= 1
  {
  }

  /** splitlines cuts wherever readline does. */
  lemma {:induction false} FewerFileLines(s: string)
    ensures |FileLines(s)| <= |SplitLines(s)|
    decreases |s|
  {
    if s != "" {
      SomeLine(IsLineBreak, s);
      var k := Span(IsFileBreak, s);
      if k < |s| {
        var n := k + CutWidth(s, k);
        FirstLineApart(s, k, n);
        LinesCut(IsFileBreak, s);
        LinesAppend(IsLineBreak, s[..n], s[n..]);
        SomeLine(IsLineBreak, s[..n]);
        FewerFileLines(s[n..]);
      }
    }
  }

  // ---------------------------------------------------------------- searching

  predicate OccursAt(s: string, t: string, i: nat) {
    i + |t| <= |s| && s[i..i + |t|] == t
  }

  predicate Contains(s: string, t: string) {
    exists i :: 0 <= i <= |s| && OccursAt(s, t, i)
  }

  /** str.find: the first occurrence, or |s| + 1 when there is none. */
  function Find(s: string, t: string): nat {
    FindFrom(s, t, 0)
  }

  function FindFrom(s: string, t: string, i: nat): (k: nat)
    requires i <= |s| + 1
    ensures i <= k <= |s| + 1
    ensures k <= |s| ==> OccursAt(s, t, k)
    ensures forall j :: i <= j < k ==> !OccursAt(s, t, j)
    decreases |s| + 1 - i
  {
    if i == |s| + 1 || OccursAt(s, t, i) then i else FindFrom(s, t, i + 1)
  }
}
