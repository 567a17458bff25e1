/** What the header tool promises: rendering is undone by parsing, a rewrite keeps the record and
    reaches a fixpoint, and the body survives. */
module DocHeaderLaws {
  import opened Wrappers
  import opened Text
  import opened DocHeader

  ghost predicate FieldName(f: string) {
    f != "" && Trimmed(f) && ':' !in f && Lacks(f, IsLineBreak)
  }

  ghost predicate KeysDiffer(f: string, g: string) {
    NormKey(f) != NormKey(g)
  }

  ghost predicate DistinctKeys(fields: seq<string>) {
    forall i, j {:trigger KeysDiffer(fields[i], fields[j])} :: 0 <= i < j < |fields| ==> KeysDiffer(fields[i], fields[j])
  }

  /** What the laws need of a schema; the governed one has it. */
  ghost predicate Fits(sc: Schema) {
    && 0 < |sc.fields| < HEADER_LINE_LIMIT
    && (forall i :: 0 <= i < |sc.fields| ==> FieldName(sc.fields[i]))
    && DistinctKeys(sc.fields)
    && sc.flag !in sc.lists
  }

  // ---------------------------------------------------------------- the governed schema

  /** Length, first and last character of a field's normalised key tell the keys apart. */
  type Signature = (int, char, char)

  const SIGNATURES_1: seq<Signature> := [(5, 't', 'e'), (6, 'd', 'd'), (8, 'd', 'e')]
  const SIGNATURES_2: seq<Signature> := [(6, 's', 's'), (15, 'l', 'e'), (7, 'c', 'd')]
  const SIGNATURES_3: seq<Signature> := [(11, 'l', 'd'), (6, 'a', 'r'), (4, 'r', 'o')]
  const SIGNATURES_4: seq<Signature> := [(9, 'c', 't'), (6, 'd', 'n'), (8, 'k', 's')]
  const SIGNATURES_5: seq<Signature> := [(10, 'd', 'n'), (10, 's', 's'), (13, 's', 'y')]
  const SIGNATURES_6: seq<Signature> := [(9, 'c', 'l'), (12, 'r', 'r'), (6, 'o', 's')]
  const SIGNATURES_7: seq<Signature> := [(7, 'e', 's'), (5, 'i', 'e'), (2, 'p', 'r')]
  const SIGNATURES_8: seq<Signature> := [(16, 'a', 'e'), (21, 'i', 's'), (7, 's', 'y')]
  const SIGNATURES :=
    ((SIGNATURES_1 + SIGNATURES_2) + (SIGNATURES_3 + SIGNATURES_4)) + ((SIGNATURES_5 + SIGNATURES_6) + (SIGNATURES_7 + SIGNATURES_8))

  ghost predicate NameCharacters(f: string) {
    f != "" && forall i :: 0 <= i < |f| ==> f[i] == '-' || 'A' <= f[i] <= 'z'
  }

  ghost predicate Signed(f: string, s: Signature) {
    NameCharacters(f) && var key := NormKey(f); (|key|, key[0], key[|key| - 1]) == s
  }

  ghost predicate AllSigned(fields: seq<string>, signatures: seq<Signature>) {
    |fields| == |signatures| && forall i :: 0 <= i < |fields| ==> Signed(fields[i], signatures[i])
  }

  lemma Signed1() ensures AllSigned(FIELDS_1, SIGNATURES_1) {}
  lemma Signed2Long() ensures Signed(FIELDS_2[1], SIGNATURES_2[1]) {}
  lemma Signed2() ensures AllSigned(FIELDS_2, SIGNATURES_2) { Signed2Long(); }
  lemma Signed3() ensures AllSigned(FIELDS_3, SIGNATURES_3) {}
  lemma Signed4() ensures AllSigned(FIELDS_4, SIGNATURES_4) {}
  lemma Signed5() ensures AllSigned(FIELDS_5, SIGNATURES_5) {}
  lemma Signed6Long() ensures Signed(FIELDS_6[1], SIGNATURES_6[1]) {}
  lemma Signed6() ensures AllSigned(FIELDS_6, SIGNATURES_6) { Signed6Long(); }
  lemma Signed7() ensures AllSigned(FIELDS_7, SIGNATURES_7) {}
  lemma Signed8Long() ensures Signed(FIELDS_8[1], SIGNATURES_8[1]) {}
  lemma Signed8() ensures AllSigned(FIELDS_8, SIGNATURES_8) { Signed8Long(); }

  lemma AppendSigned(a: seq<string>, b: seq<string>, s: seq<Signature>, t: seq<Signature>)
    requires AllSigned(a, s) && AllSigned(b, t)
    ensures AllSigned(a + b, s + t)
  {
    forall i | 0 <= i < |a + b| ensures Signed((a + b)[i], (s + t)[i]) {
      if i >= |a| { assert Signed(b[i - |a|], t[i - |a|]); } else { assert Signed(a[i], s[i]); }
    }
  }

  lemma SignaturesDiffer()
    ensures forall i, j :: 0 <= i < j < |SIGNATURES| ==> SIGNATURES[i] != SIGNATURES[j]
  {
  }

  lemma SignedFit(sc: Schema, signatures: seq<Signature>)
    requires AllSigned(sc.fields, signatures) && 0 < |sc.fields| < HEADER_LINE_LIMIT && sc.flag !in sc.lists
    requires forall i, j :: 0 <= i < j < |signatures| ==> signatures[i] != signatures[j]
    ensures Fits(sc)
  {
    forall i | 0 <= i < |sc.fields| ensures FieldName(sc.fields[i]) {
      assert Signed(sc.fields[i], signatures[i]);
    }
    forall i, j | 0 <= i < j < |sc.fields| ensures KeysDiffer(sc.fields[i], sc.fields[j]) {
      assert Signed(sc.fields[i], signatures[i]) && Signed(sc.fields[j], signatures[j]);
    }
  }

  lemma GovernedSchemaFits()
    ensures Fits(GOVERNED)
  {
    Signed1();
    Signed2();
    Signed3();
    Signed4();
    Signed5();
    Signed6();
    Signed7();
    Signed8();
    AppendSigned(FIELDS_1, FIELDS_2, SIGNATURES_1, SIGNATURES_2);
    AppendSigned(FIELDS_3, FIELDS_4, SIGNATURES_3, SIGNATURES_4);
    AppendSigned(FIELDS_5, FIELDS_6, SIGNATURES_5, SIGNATURES_6);
    AppendSigned(FIELDS_7, FIELDS_8, SIGNATURES_7, SIGNATURES_8);
    AppendSigned(FIELDS_1 + FIELDS_2, FIELDS_3 + FIELDS_4,
                 SIGNATURES_1 + SIGNATURES_2, SIGNATURES_3 + SIGNATURES_4);
    AppendSigned(FIELDS_5 + FIELDS_6, FIELDS_7 + FIELDS_8,
                 SIGNATURES_5 + SIGNATURES_6, SIGNATURES_7 + SIGNATURES_8);
    AppendSigned((FIELDS_1 + FIELDS_2) + (FIELDS_3 + FIELDS_4), (FIELDS_5 + FIELDS_6) + (FIELDS_7 + FIELDS_8),
                 (SIGNATURES_1 + SIGNATURES_2) + (SIGNATURES_3 + SIGNATURES_4),
                 (SIGNATURES_5 + SIGNATURES_6) + (SIGNATURES_7 + SIGNATURES_8));
    SignaturesDiffer();
    SignedFit(GOVERNED, SIGNATURES);
  }

  // ---------------------------------------------------------------- reading a rendered header

  ghost predicate OneLineValues(sc: Schema, values: map<string, string>) {
    forall f :: f in sc.fields ==> OneLine(ValueFor(values, f))
  }

  lemma BlankLineThen(brk: char -> bool, body: string)
    requires brk('\n')
    ensures Lines(brk, "\n" + body) == [""] + Lines(brk, body)
  {
    LinesHead(brk, "", body);
    assert "" + "\n" + body == "\n" + body;
  }

  lemma LinesOfRendered(brk: char -> bool, sc: Schema, values: map<string, string>, body: string)
    requires brk('\n') && sc.fields != []
    requires forall i :: 0 <= i < |sc.fields| ==> Lacks(FieldLine(values, sc.fields[i]), brk)
    ensures Lines(brk, RenderHeader(sc, values) + body) == FieldLines(sc.fields, values) + ([""] + Lines(brk, body))
  {
    var parts := FieldLines(sc.fields, values);
    BlankLineThen(brk, body);
    LinesThen(brk, parts, "\n" + body, [""] + Lines(brk, body));
    RenderedShape(sc, values, body);
  }

  lemma RenderedShape(sc: Schema, values: map<string, string>, body: string)
    ensures RenderHeader(sc, values) + body == Join("\n", FieldLines(sc.fields, values)) + "\n" + ("\n" + body)
  {
  }

  lemma FieldLineFacts(sc: Schema, values: map<string, string>, i: nat)
    requires Fits(sc) && i < |sc.fields| && OneLine(ValueFor(values, sc.fields[i]))
    ensures var f := sc.fields[i];
            var line := FieldLine(values, f);
            && Strip(line) != "" && Lacks(line, IsFileBreak)
            && HasColon(line) && KeyOf(line) == f && ValueOf(line) == Strip(ValueFor(values, f))
  {
    var f := sc.fields[i];
    var v := ValueFor(values, f);
    var line := FieldLine(values, f);
    assert FieldName(f);
    StripFacts(line);
    assert line[0] == f[0];
    SpanAt(c => c == ':', line, |f|);
    assert line[..|f|] == f;
    StripFacts(f);
    assert line[|f| + 1..] == " " + v;
    StripAfterSpace(v);
    forall k | 0 <= k < |line| ensures !IsFileBreak(line[k]) {
      if k < |f| { assert line[k] == f[k]; } else if k >= |f| + 2 { assert line[k] == v[k - |f| - 2]; }
    }
  }

  lemma StripAfterSpace(v: string)
    ensures Strip(LStripIf(IsSpace, " " + v)) == Strip(v)
  {
    LStripBlank(IsSpace, " ", v);
    var k := LStripCut(IsSpace, v);
    assert LStripIf(IsSpace, v[k..]) == v[k..];
  }

  lemma {:induction false} BlockOf(parts: seq<string>, more: seq<string>, limit: nat)
    requires |parts| < limit && forall i :: 0 <= i < |parts| ==> Strip(parts[i]) != ""
    ensures HeaderBlock(parts + ([""] + more), limit) == parts + [""]
    ensures BeforeBlank(parts + [""]) == parts
  {
    var lines := parts + ([""] + more);
    if parts == [] {
      assert lines == [""] + more;
    } else {
      BlockOf(parts[1..], more, limit - 1);
      assert lines[1..] == parts[1..] + ([""] + more);
      assert (parts + [""])[1..] == parts[1..] + [""];
      assert [parts[0]] + (parts[1..] + [""]) == parts + [""];
    }
  }

  function Pairs(fields: seq<string>, values: map<string, string>): seq<(string, string)> {
    seq(|fields|, i requires 0 <= i < |fields| => (fields[i], Strip(ValueFor(values, fields[i]))))
  }

  lemma RawStep(lines: seq<string>)
    requires lines != [] && forall i :: 0 <= i < |lines| ==> HasColon(lines[i])
    ensures var front, line := RawFields(lines[..|lines| - 1]), lines[|lines| - 1];
            KeyOf(line) !in KeysOf(front) ==> RawFields(lines) == front + [(KeyOf(line), ValueOf(line))]
  {
  }

  ghost predicate ReadsBack(values: map<string, string>, field: string) {
    var line := FieldLine(values, field);
    HasColon(line) && KeyOf(line) == field && ValueOf(line) == Strip(ValueFor(values, field))
  }

  lemma Snoc(fields: seq<string>, values: map<string, string>, n: nat)
    requires |fields| == n + 1
    ensures FieldLines(fields, values)[..n] == FieldLines(fields[..n], values)
    ensures FieldLines(fields, values)[n] == FieldLine(values, fields[n])
    ensures Pairs(fields, values) == Pairs(fields[..n], values) + [(fields[n], Strip(ValueFor(values, fields[n])))]
  {
  }

  lemma FreshKey(fields: seq<string>, values: map<string, string>, n: nat)
    requires |fields| == n + 1 && DistinctKeys(fields)
    ensures fields[n] !in KeysOf(Pairs(fields[..n], values))
  {
    var front := Pairs(fields[..n], values);
    forall p | p in front ensures p.0 != fields[n] {
      var k :| 0 <= k < n && front[k] == p;
      assert KeysDiffer(fields[k], fields[n]);
    }
  }

  lemma {:induction false} RawOfRendered(fields: seq<string>, values: map<string, string>)
    requires DistinctKeys(fields)
    requires forall i :: 0 <= i < |fields| ==> ReadsBack(values, fields[i])
    ensures forall i :: 0 <= i < |fields| ==> HasColon(FieldLines(fields, values)[i])
    ensures RawFields(FieldLines(fields, values)) == Pairs(fields, values)
  {
    var lines := FieldLines(fields, values);
    forall i | 0 <= i < |fields| ensures HasColon(lines[i]) { assert ReadsBack(values, fields[i]); }
    if fields != [] {
      var n := |fields| - 1;
      RawOfRendered(fields[..n], values);
      assert ReadsBack(values, fields[n]);
      Snoc(fields, values, n);
      FreshKey(fields, values, n);
      RawStep(lines);
    }
  }

  /** The record holding exactly the governed fields with the given stripped values. */
  ghost predicate HoldsValue(sc: Schema, field: string, values: map<string, string>, record: Record) {
    NormKey(field) in record &&
    record[NormKey(field)] == NormalizeValue(sc, field, Strip(ValueFor(values, field)))
  }

  ghost predicate HoldsValues(sc: Schema, fields: seq<string>, values: map<string, string>, record: Record) {
    && (forall i :: 0 <= i < |fields| ==> HoldsValue(sc, fields[i], values, record))
    && record.Keys == KeySet(fields)
  }

  ghost function KeySet(fields: seq<string>): set<string> {
    set f | f in fields :: NormKey(f)
  }

  /** One more field with a key of its own. */
  lemma OneMoreField(sc: Schema, front: seq<string>, values: map<string, string>, f: string, record: Record)
    requires HoldsValues(sc, front, values, record)
    requires forall i :: 0 <= i < |front| ==> KeysDiffer(front[i], f)
    ensures HoldsValues(sc, front + [f], values, record[NormKey(f) := NormalizeValue(sc, f, Strip(ValueFor(values, f)))])
  {
    var fields := front + [f];
    var longer := record[NormKey(f) := NormalizeValue(sc, f, Strip(ValueFor(values, f)))];
    forall i | 0 <= i < |fields| ensures HoldsValue(sc, fields[i], values, longer) {
      if i < |front| {
        assert HoldsValue(sc, front[i], values, record);
        assert KeysDiffer(front[i], f);
      }
    }
    assert KeySet(fields) == KeySet(front) + {NormKey(f)};
  }

  lemma FrontKeys(fields: seq<string>)
    requires DistinctKeys(fields) && fields != []
    ensures var front := fields[..|fields| - 1];
            DistinctKeys(front) && forall i :: 0 <= i < |front| ==> KeysDiffer(front[i], fields[|fields| - 1])
  {
    var n := |fields| - 1;
    var front := fields[..n];
    forall i, j | 0 <= i < j < n ensures KeysDiffer(front[i], front[j]) { assert KeysDiffer(fields[i], fields[j]); }
    forall i | 0 <= i < n ensures KeysDiffer(front[i], fields[n]) { assert KeysDiffer(fields[i], fields[n]); }
  }

  lemma NormalizeLast(sc: Schema, front: seq<string>, f: string, values: map<string, string>)
    ensures Normalize(sc, Pairs(front + [f], values)) ==
            Normalize(sc, Pairs(front, values))[NormKey(f) := NormalizeValue(sc, f, Strip(ValueFor(values, f)))]
  {
    assert Pairs(front + [f], values) == Pairs(front, values) + [(f, Strip(ValueFor(values, f)))];
    assert Pairs(front + [f], values)[..|front|] == Pairs(front, values);
  }

  lemma {:induction false} NormalizeRendered(sc: Schema, fields: seq<string>, values: map<string, string>)
    requires DistinctKeys(fields)
    ensures HoldsValues(sc, fields, values, Normalize(sc, Pairs(fields, values)))
  {
    if fields != [] {
      var front, last := fields[..|fields| - 1], fields[|fields| - 1];
      FrontKeys(fields);
      NormalizeRendered(sc, front, values);
      OneMoreField(sc, front, values, last, Normalize(sc, Pairs(front, values)));
      NormalizeLast(sc, front, last, values);
      assert fields == front + [last];
    }
  }

  lemma FieldLinesFacts(sc: Schema, values: map<string, string>)
    requires Fits(sc) && OneLineValues(sc, values)
    ensures forall i :: 0 <= i < |sc.fields| ==>
      var line := FieldLine(values, sc.fields[i]); Strip(line) != "" && Lacks(line, IsFileBreak) && ReadsBack(values, sc.fields[i])
  {
    forall i | 0 <= i < |sc.fields|
      ensures var line := FieldLine(values, sc.fields[i]); Strip(line) != "" && Lacks(line, IsFileBreak) && ReadsBack(values, sc.fields[i])
    {
      FieldLineFacts(sc, values, i);
    }
  }

  lemma BlockOfRendered(sc: Schema, values: map<string, string>, body: string)
    requires Fits(sc) && OneLineValues(sc, values)
    ensures HeaderLines(RenderHeader(sc, values) + body) == FieldLines(sc.fields, values) + [""]
    ensures BeforeBlank(HeaderLines(RenderHeader(sc, values) + body)) == FieldLines(sc.fields, values)
    ensures forall i :: 0 <= i < |sc.fields| ==> ReadsBack(values, sc.fields[i])
  {
    FieldLinesFacts(sc, values);
    LinesOfRendered(IsFileBreak, sc, values, body);
    BlockOf(FieldLines(sc.fields, values), FileLines(body), HEADER_LINE_LIMIT);
  }

  /** The header of a rendered document reads back line by line exactly when every value stays on
      one line of the file; a carriage return counts as a line end. */
  lemma HeaderReadsBackIff(sc: Schema, values: map<string, string>, body: string)
    requires Fits(sc)
    ensures HeaderLines(RenderHeader(sc, values) + body) == FieldLines(sc.fields, values) + [""] <==> OneLineValues(sc, values)
  {
    var text := RenderHeader(sc, values) + body;
    if OneLineValues(sc, values) { BlockOfRendered(sc, values, body); }
    if HeaderLines(text) == FieldLines(sc.fields, values) + [""] {
      HeaderLinesClean(text);
      forall f | f in sc.fields ensures OneLine(ValueFor(values, f)) {
        var i :| 0 <= i < |sc.fields| && sc.fields[i] == f;
        assert HeaderLines(text)[i] == FieldLine(values, f);
        ValueWithinLine(f, ValueFor(values, f));
      }
    }
  }

  lemma ValueWithinLine(f: string, v: string)
    requires OneLine(f + ": " + v)
    ensures OneLine(v)
  {
    var line := f + ": " + v;
    forall c | c in v ensures c in line {
      var k :| 0 <= k < |v| && v[k] == c;
      assert line[|f| + 2 + k] == c;
    }
  }

  lemma {:induction false} BlockWithin(lines: seq<string>, limit: nat)
    ensures forall l :: l in HeaderBlock(lines, limit) ==> l in lines
  {
    if lines != [] && limit > 0 && Strip(lines[0]) != "" { BlockWithin(lines[1..], limit - 1); }
  }

  lemma HeaderLinesClean(text: string)
    ensures forall l :: l in HeaderLines(text) ==> OneLine(l)
  {
    BlockWithin(FileLines(text), HEADER_LINE_LIMIT);
    LinesLack(IsFileBreak, text);
    forall l | l in HeaderLines(text) ensures OneLine(l) {
      var k :| 0 <= k < |FileLines(text)| && FileLines(text)[k] == l;
      assert Lacks(FileLines(text)[k], IsFileBreak);
    }
  }

  /** Parsing a rendered header, whatever body follows, gives back every one-line value
      stripped, and nothing else. */
  lemma ParseOfRendered(sc: Schema, values: map<string, string>, body: string)
    requires Fits(sc) && OneLineValues(sc, values)
    ensures var parsed := ParseRecord(sc, RenderHeader(sc, values) + body);
            parsed.Some? && HoldsValues(sc, sc.fields, values, parsed.value)
  {
    BlockOfRendered(sc, values, body);
    RawOfRendered(sc.fields, values);
    NormalizeRendered(sc, sc.fields, values);
    assert ReadsBack(values, sc.fields[0]);
  }

  // ---------------------------------------------------------------- what a parsed record holds

  ghost predicate ListItem(item: string) {
    item != "" && Trimmed(item) && ',' !in item && OneLine(item)
  }

  /** The values any parsed document can yield: trimmed one-line text, a flag, or clean items. */
  ghost predicate Parsed(v: FieldValue) {
    match v
    case Plain(t) => Trimmed(t) && OneLine(t)
    case Flag(_) => true
    case Items(l) => forall i :: 0 <= i < |l| ==> ListItem(l[i])
  }

  /** The kind of value a governed field normalises to. */
  ghost predicate KindFits(sc: Schema, field: string, v: FieldValue) {
    if field in sc.lists then v.Items? else if field == sc.flag then v.Flag? else v.Plain?
  }

  lemma {:induction false} ItemsParsed(parts: seq<string>)
    requires forall i :: 0 <= i < |parts| ==> ',' !in parts[i] && OneLine(parts[i])
    ensures forall i :: 0 <= i < |NormalizeItems(parts)| ==> ListItem(NormalizeItems(parts)[i])
  {
    if parts != [] {
      ItemsParsed(parts[1..]);
      StripFacts(parts[0]);
    }
  }

  lemma NormalizedIsParsed(sc: Schema, key: string, value: string)
    requires Trimmed(value) && OneLine(value)
    ensures Parsed(NormalizeValue(sc, key, value))
  {
    SplitParts(',', value);
    PartsWithin(',', SplitOn(',', value), '\n');
    PartsWithin(',', SplitOn(',', value), '\r');
    ItemsParsed(SplitOn(',', value));
  }

  lemma ValueOfIsClean(line: string)
    requires HasColon(line) && OneLine(line)
    ensures Trimmed(ValueOf(line)) && OneLine(ValueOf(line))
  {
    var rest := line[Span(c => c == ':', line) + 1..];
    var k := LStripCut(IsSpace, rest);
    StripFacts(LStripIf(IsSpace, rest));
    assert forall c :: c in rest[k..] ==> c in rest;
    assert forall c :: c in rest ==> c in line;
  }

  lemma {:induction false} RawIsClean(lines: seq<string>)
    requires forall i :: 0 <= i < |lines| ==> HasColon(lines[i]) && OneLine(lines[i])
    ensures forall p :: p in RawFields(lines) ==> Trimmed(p.1) && OneLine(p.1)
  {
    if lines != [] {
      RawIsClean(lines[..|lines| - 1]);
      ValueOfIsClean(lines[|lines| - 1]);
    }
  }

  lemma {:induction false} NormalizeIsParsed(sc: Schema, raw: seq<(string, string)>)
    requires forall p :: p in raw ==> Trimmed(p.1) && OneLine(p.1)
    ensures forall k :: k in Normalize(sc, raw) ==> Parsed(Normalize(sc, raw)[k])
  {
    if raw != [] {
      var last := raw[|raw| - 1];
      assert last in raw;
      NormalizeIsParsed(sc, raw[..|raw| - 1]);
      NormalizedIsParsed(sc, last.0, last.1);
    }
  }

  lemma {:induction false} HeaderLinesWithin(lines: seq<string>, limit: nat)
    ensures forall l :: l in BeforeBlank(HeaderBlock(lines, limit)) ==> l in lines
  {
    if lines != [] && limit > 0 && Strip(lines[0]) != "" {
      HeaderLinesWithin(lines[1..], limit - 1);
      var block := HeaderBlock(lines, limit);
      assert block[1..] == HeaderBlock(lines[1..], limit - 1);
    }
  }

  lemma RecordIsParsed(sc: Schema, text: string)
    requires ParseRecord(sc, text).Some?
    ensures forall k :: k in ParseRecord(sc, text).value ==> Parsed(ParseRecord(sc, text).value[k])
  {
    var lines := BeforeBlank(HeaderLines(text));
    HeaderLinesWithin(FileLines(text), HEADER_LINE_LIMIT);
    LinesLack(IsFileBreak, text);
    forall i | 0 <= i < |lines| ensures OneLine(lines[i]) {
      assert lines[i] in FileLines(text);
      var k :| 0 <= k < |FileLines(text)| && FileLines(text)[k] == lines[i];
      assert Lacks(FileLines(text)[k], IsFileBreak);
    }
    RawIsClean(lines);
    NormalizeIsParsed(sc, RawFields(lines));
  }

  // ---------------------------------------------------------------- unparsing

  lemma CommaStep(first: string, rest: string)
    requires ListItem(first)
    ensures NormalizeItems(SplitOn(',', first + [','] + rest)) == [first] + NormalizeItems(SplitOn(',', rest))
    ensures NormalizeItems(SplitOn(',', " " + first + [','] + rest)) == [first] + NormalizeItems(SplitOn(',', rest))
    ensures NormalizeItems(SplitOn(',', first)) == [first] && NormalizeItems(SplitOn(',', " " + first)) == [first]
  {
    StripFacts(first);
    StripPadded(" ", first, "");
    assert " " + first + "" == " " + first;
    SplitOnHead(',', first, rest);
    SplitOnHead(',', " " + first, rest);
  }

  lemma CommaSpace(a: string, x: string)
    ensures a + ", " + x == a + [','] + (" " + x)
    ensures " " + (a + ", " + x) == " " + a + [','] + (" " + x)
  {
  }

  lemma {:induction false} ItemsRejoin(items: seq<string>)
    requires items != [] && forall i :: 0 <= i < |items| ==> ListItem(items[i])
    ensures NormalizeItems(SplitOn(',', Join(", ", items))) == items
    ensures NormalizeItems(SplitOn(',', " " + Join(", ", items))) == items
  {
    if |items| == 1 {
      CommaStep(items[0], "");
      assert items == [items[0]];
    } else {
      var rest := Join(", ", items[1..]);
      ItemsRejoin(items[1..]);
      CommaSpace(items[0], rest);
      CommaStep(items[0], " " + rest);
      assert Join(", ", items) == items[0] + ", " + rest;
      assert [items[0]] + items[1..] == items;
    }
  }

  lemma {:induction false} JoinedItemsTrimmed(items: seq<string>)
    requires items != [] && forall i :: 0 <= i < |items| ==> ListItem(items[i])
    ensures Join(", ", items) != "" && Trimmed(Join(", ", items)) && OneLine(Join(", ", items))
  {
    if |items| > 1 { JoinedItemsTrimmed(items[1..]); }
  }

  lemma UnparseIsClean(v: FieldValue)
    requires Parsed(v)
    ensures Trimmed(Unparse(v)) && OneLine(Unparse(v))
  {
    if v.Items? && v.items != [] { JoinedItemsTrimmed(v.items); }
  }

  lemma TrueFalseWords()
    ensures LowerAll("true") == "true" && LowerAll("false") != "true"
  {
    assert |LowerAll("false")| == 5;
  }

  /** Normalising what was unparsed gives the value back exactly when its kind is the field's. */
  lemma Reparse(sc: Schema, field: string, v: FieldValue)
    requires Parsed(v) && sc.flag !in sc.lists
    ensures NormalizeValue(sc, field, Strip(Unparse(v))) == v <==> KindFits(sc, field, v)
  {
    UnparseIsClean(v);
    StripFacts(Unparse(v));
    TrueFalseWords();
    if v.Items? && field in sc.lists {
      if v.items == [] {
        SplitOnHead(',', "", "");
        StripBlankIsEmpty("");
      } else {
        ItemsRejoin(v.items);
      }
    }
  }

  // ---------------------------------------------------------------- set-header

  ghost predicate GivenFits(sc: Schema, given: map<string, string>) {
    forall f :: f in sc.fields ==> f in given && OneLine(given[f])
  }

  lemma RewriteIsOneLine(sc: Schema, given: map<string, string>, explicit: set<string>, record: Option<Record>)
    requires GivenFits(sc, given)
    requires record.Some? ==> forall k :: k in record.value ==> Parsed(record.value[k])
    ensures OneLineValues(sc, RewriteValues(sc, given, explicit, record))
  {
    forall f | f in sc.fields ensures OneLine(ValueFor(RewriteValues(sc, given, explicit, record), f)) {
      if record.Some? && NormKey(f) in record.value { UnparseIsClean(record.value[NormKey(f)]); }
    }
  }

  ghost function RecordOf(sc: Schema, document: Option<string>): Option<Record> {
    if document.Some? then ParseRecord(sc, document.value) else None
  }

  /** After any set-header the record holds exactly the governed fields, each with the value the
      rewrite chose for it. */
  lemma RecordAfterRewrite(sc: Schema, document: Option<string>, given: map<string, string>, explicit: set<string>, bodyArgument: string)
    requires Fits(sc) && "Title" in sc.fields && GivenFits(sc, given)
    ensures var after := ParseRecord(sc, Rewritten(sc, document, given, explicit, bodyArgument));
            after.Some? &&
            HoldsValues(sc, sc.fields, RewriteValues(sc, given, explicit, RecordOf(sc, document)), after.value)
  {
    var record := RecordOf(sc, document);
    if record.Some? { RecordIsParsed(sc, document.value); }
    RewriteIsOneLine(sc, given, explicit, record);
    var values := RewriteValues(sc, given, explicit, record);
    var existing := if document.Some? then ReadBody(sc, document.value) else "";
    var body := if existing != "" then existing
                else if bodyArgument != "" then bodyArgument
                else DefaultBody(values["Title"]);
    ParseOfRendered(sc, values, body);
  }

  lemma KeptValue(sc: Schema, given: map<string, string>, before: Record, after: Record, field: string)
    requires Fits(sc) && GivenFits(sc, given) && field in sc.fields
    requires HoldsValues(sc, sc.fields, RewriteValues(sc, given, {}, Some(before)), after)
    requires NormKey(field) in before && Parsed(before[NormKey(field)])
    ensures NormKey(field) in after
    ensures after[NormKey(field)] == before[NormKey(field)] <==> KindFits(sc, field, before[NormKey(field)])
  {
    var i :| 0 <= i < |sc.fields| && sc.fields[i] == field;
    assert HoldsValue(sc, sc.fields[i], RewriteValues(sc, given, {}, Some(before)), after);
    Reparse(sc, field, before[NormKey(field)]);
  }

  /** set-header without explicit options keeps a governed field of the record exactly when the
      record holds the field's own kind of value.  (A miscased spelling of a list field or of the
      boolean one leaves plain text under its key, and that is turned into the field's kind.) */
  lemma RewriteKeepsRecord(sc: Schema, text: string, given: map<string, string>, bodyArgument: string, field: string)
    requires Fits(sc) && "Title" in sc.fields && GivenFits(sc, given) && field in sc.fields
    requires ParseRecord(sc, text).Some? && NormKey(field) in ParseRecord(sc, text).value
    ensures var before := ParseRecord(sc, text).value;
            var after := ParseRecord(sc, Rewritten(sc, Some(text), given, {}, bodyArgument));
            && after.Some? && NormKey(field) in after.value
            && (after.value[NormKey(field)] == before[NormKey(field)] <==> KindFits(sc, field, before[NormKey(field)]))
  {
    RecordAfterRewrite(sc, Some(text), given, {}, bodyArgument);
    RecordIsParsed(sc, text);
    KeptValue(sc, given, ParseRecord(sc, text).value,
              ParseRecord(sc, Rewritten(sc, Some(text), given, {}, bodyArgument)).value, field);
  }

  lemma FieldOfKey(sc: Schema, values: map<string, string>, r: Record, k: string) returns (f: string)
    requires HoldsValues(sc, sc.fields, values, r) && k in r
    ensures f in sc.fields && NormKey(f) == k && HoldsValue(sc, f, values, r)
  {
    assert k in KeySet(sc.fields);
    f :| f in sc.fields && NormKey(f) == k;
    var i :| 0 <= i < |sc.fields| && sc.fields[i] == f;
    assert HoldsValue(sc, sc.fields[i], values, r);
  }

  lemma NormalizedFits(sc: Schema, field: string, value: string)
    ensures KindFits(sc, field, NormalizeValue(sc, field, value))
  {
  }

  lemma SameRecord(sc: Schema, values: map<string, string>, given: map<string, string>, r: Record, r': Record)
    requires Fits(sc) && GivenFits(sc, given)
    requires HoldsValues(sc, sc.fields, values, r)
    requires forall k :: k in r ==> Parsed(r[k])
    requires HoldsValues(sc, sc.fields, RewriteValues(sc, given, {}, Some(r)), r')
    ensures r' == r
  {
    forall k | k in r.Keys ensures k in r' && r'[k] == r[k] {
      var f := FieldOfKey(sc, values, r, k);
      NormalizedFits(sc, f, Strip(ValueFor(values, f)));
      KeptValue(sc, given, r, r', f);
    }
    assert r.Keys == r'.Keys;
  }

  /** A second set-header, with no explicit options, yields an identical record. */
  lemma RewriteReachesFixpoint(sc: Schema, document: Option<string>, given: map<string, string>, explicit: set<string>,
      bodyArgument: string, given': map<string, string>, bodyArgument': string)
    requires Fits(sc) && "Title" in sc.fields && GivenFits(sc, given) && GivenFits(sc, given')
    ensures var once := Rewritten(sc, document, given, explicit, bodyArgument);
            var twice := Rewritten(sc, Some(once), given', {}, bodyArgument');
            ParseRecord(sc, once).Some? && ParseRecord(sc, twice) == ParseRecord(sc, once)
  {
    var once := Rewritten(sc, document, given, explicit, bodyArgument);
    var twice := Rewritten(sc, Some(once), given', {}, bodyArgument');
    RecordAfterRewrite(sc, document, given, explicit, bodyArgument);
    RecordAfterRewrite(sc, Some(once), given', {}, bodyArgument');
    RecordIsParsed(sc, once);
    SameRecord(sc, RewriteValues(sc, given, explicit, RecordOf(sc, document)), given',
               ParseRecord(sc, once).value, ParseRecord(sc, twice).value);
  }

  // ---------------------------------------------------------------- an input where the kind changes

  /** A document whose list field Keywords is spelt in lower case. */
  const LOWER_CASE := Schema(["Title", "keywords"], {}, "Canonical")
  const LOWER_VALUES := map["Title" := "T", "keywords" := "a"]
  const MISCASED := RenderHeader(LOWER_CASE, LOWER_VALUES)

  lemma LowerCaseFits()
    ensures Fits(LOWER_CASE) && OneLineValues(LOWER_CASE, LOWER_VALUES)
  {
    assert Trimmed("Title") && Trimmed("keywords");
    assert |NormKey("Title")| == 5 && |NormKey("keywords")| == 8;
    assert KeysDiffer("Title", "keywords");
  }

  lemma GovernedMembers()
    ensures "Title" in GOVERNED.fields && "Keywords" in GOVERNED.fields && "Keywords" in GOVERNED.lists
    ensures "keywords" !in GOVERNED.lists && "keywords" != GOVERNED.flag
  {
    assert FIELDS_1[0] == "Title" && FIELDS_4[2] == "Keywords";
    assert "Title" in FIELDS_1 + FIELDS_2 && "Keywords" in FIELDS_3 + FIELDS_4;
    assert "keywords"[0] == 'k';
    assert forall f :: f in GOVERNED.lists ==> f[0] != 'k';
  }

  /** A header rendered with other field spellings is read field by field as it stands. */
  lemma ParseOfOtherSpelling(sc: Schema, other: Schema, values: map<string, string>)
    requires Fits(other) && OneLineValues(other, values) && other.fields[0] in sc.fields
    ensures ParseRecord(sc, RenderHeader(other, values)) == Some(Normalize(sc, Pairs(other.fields, values)))
  {
    BlockOfRendered(other, values, "");
    assert RenderHeader(other, values) + "" == RenderHeader(other, values);
    RawOfRendered(other.fields, values);
    assert ReadsBack(values, other.fields[0]);
  }

  lemma LastFieldRead(sc: Schema, front: seq<string>, f: string, values: map<string, string>)
    ensures var record := Normalize(sc, Pairs(front + [f], values));
            NormKey(f) in record && record[NormKey(f)] == NormalizeValue(sc, f, Strip(ValueFor(values, f)))
  {
    NormalizeLast(sc, front, f, values);
  }

  lemma KeywordsKey()
    ensures NormKey("Keywords") == "keywords" && NormKey("keywords") == "keywords"
  {
  }

  lemma MiscasedRecord()
    ensures ParseRecord(GOVERNED, MISCASED).Some?
    ensures "keywords" in ParseRecord(GOVERNED, MISCASED).value
    ensures ParseRecord(GOVERNED, MISCASED).value["keywords"] == Plain("a")
  {
    LowerCaseFits();
    GovernedMembers();
    KeywordsKey();
    ParseOfOtherSpelling(GOVERNED, LOWER_CASE, LOWER_VALUES);
    LastFieldRead(GOVERNED, ["Title"], "keywords", LOWER_VALUES);
    assert ["Title"] + ["keywords"] == LOWER_CASE.fields;
    assert Trimmed("a");
    StripFacts("a");
  }

  lemma ListHeld(sc: Schema, values: map<string, string>, record: Record, field: string)
    requires HoldsValues(sc, sc.fields, values, record) && field in sc.fields && field in sc.lists
    ensures NormKey(field) in record && record[NormKey(field)].Items?
  {
    var i :| 0 <= i < |sc.fields| && sc.fields[i] == field;
    assert HoldsValue(sc, sc.fields[i], values, record);
  }

  lemma ListFieldBecomesItems(sc: Schema, text: string, given: map<string, string>, bodyArgument: string, field: string)
    requires Fits(sc) && "Title" in sc.fields && GivenFits(sc, given) && field in sc.fields && field in sc.lists
    ensures var after := ParseRecord(sc, Rewritten(sc, Some(text), given, {}, bodyArgument));
            after.Some? && NormKey(field) in after.value && after.value[NormKey(field)].Items?
  {
    RecordAfterRewrite(sc, Some(text), given, {}, bodyArgument);
    ListHeld(sc, RewriteValues(sc, given, {}, ParseRecord(sc, text)),
             ParseRecord(sc, Rewritten(sc, Some(text), given, {}, bodyArgument)).value, field);
  }

  /** set-header without explicit options turns its text into a list. */
  lemma MiscasedListChangesKind(given: map<string, string>, bodyArgument: string)
    requires GivenFits(GOVERNED, given)
    ensures var before := ParseRecord(GOVERNED, MISCASED);
            var after := ParseRecord(GOVERNED, Rewritten(GOVERNED, Some(MISCASED), given, {}, bodyArgument));
            && before.Some? && "keywords" in before.value && before.value["keywords"] == Plain("a")
            && after.Some? && "keywords" in after.value && after.value["keywords"].Items?
  {
    MiscasedRecord();
    GovernedMembers();
    KeywordsKey();
    GovernedSchemaFits();
    ListFieldBecomesItems(GOVERNED, MISCASED, given, bodyArgument, "Keywords");
  }

  // ---------------------------------------------------------------- values with line ends in them

  /** Line ends in values are still there after normalisation, not stripped away. */
  ghost predicate BreaksShow(sc: Schema, values: map<string, string>) {
    forall f :: f in sc.fields && !OneLine(ValueFor(values, f)) ==> !Parsed(NormalizeValue(sc, f, Strip(ValueFor(values, f))))
  }

  lemma HeldValuesAreParsed(sc: Schema, text: string, values: map<string, string>)
    requires ParseRecord(sc, text).Some? && HoldsValues(sc, sc.fields, values, ParseRecord(sc, text).value)
    ensures forall f :: f in sc.fields ==> Parsed(NormalizeValue(sc, f, Strip(ValueFor(values, f))))
  {
    RecordIsParsed(sc, text);
    forall f | f in sc.fields ensures Parsed(NormalizeValue(sc, f, Strip(ValueFor(values, f)))) {
      var i :| 0 <= i < |sc.fields| && sc.fields[i] == f;
      assert HoldsValue(sc, sc.fields[i], values, ParseRecord(sc, text).value);
    }
  }

  /** Then the record reads back exactly when no value has a line end. */
  lemma RecordReadsBackIff(sc: Schema, values: map<string, string>, body: string)
    requires Fits(sc) && BreaksShow(sc, values)
    ensures var parsed := ParseRecord(sc, RenderHeader(sc, values) + body);
            parsed.Some? && HoldsValues(sc, sc.fields, values, parsed.value) <==> OneLineValues(sc, values)
  {
    var text := RenderHeader(sc, values) + body;
    var parsed := ParseRecord(sc, text);
    if OneLineValues(sc, values) { ParseOfRendered(sc, values, body); }
    if parsed.Some? && HoldsValues(sc, sc.fields, values, parsed.value) { HeldValuesAreParsed(sc, text, values); }
  }

  lemma RenderStarts(sc: Schema, values: map<string, string>, body: string) returns (rest: string)
    requires sc.fields != []
    ensures RenderHeader(sc, values) + body == FieldLine(values, sc.fields[0]) + "\n" + rest
  {
    var lines := FieldLines(sc.fields, values);
    if |lines| == 1 {
      rest := "\n" + body;
    } else {
      rest := Join("\n", lines[1..]) + "\n" + ("\n" + body);
      JoinStep(lines, "\n" + body);
      RenderedShape(sc, values, body);
    }
  }

  lemma ReturnCuts(a: string, b: string, rest: string)
    requires OneLine(a) && OneLine(b) && b != ""
    ensures FileLines(a + "\r" + (b + "\n" + rest)) == [a] + ([b] + FileLines(rest))
  {
    var s := a + "\r" + (b + "\n" + rest);
    assert s[|a|] == '\r' && s[|a| + 1] == b[0];
    assert forall i :: 0 <= i < |a| ==> s[i] == a[i];
    SpanAt(IsFileBreak, s, |a|);
    LinesCut(IsFileBreak, s);
    assert s[..|a|] == a && AfterCut(s, |a|) == b + "\n" + rest;
    LinesHead(IsFileBreak, b, rest);
  }

  lemma SecondLineKept(first: string, second: string, rest: seq<string>)
    requires Strip(first) != "" && Strip(second) != ""
    ensures var block := BeforeBlank(HeaderBlock([first] + ([second] + rest), HEADER_LINE_LIMIT));
            |block| >= 2 && block[1] == second
  {
    var lines := [first] + ([second] + rest);
    assert lines[1..] == [second] + rest;
    assert ([second] + rest)[0] == second;
    var block := HeaderBlock([second] + rest, HEADER_LINE_LIMIT - 1);
    assert block[0] == second;
    assert HeaderBlock(lines, HEADER_LINE_LIMIT) == [first] + block;
    assert ([first] + block)[1..] == block;
  }

  /** A first value cut by a carriage return, with no colon behind it: the document has no record. */
  lemma ReturnLosesRecord(sc: Schema, values: map<string, string>, a: string, b: string, body: string)
    requires Fits(sc) && ValueFor(values, sc.fields[0]) == a + "\r" + b
    requires OneLine(a) && OneLine(b) && Strip(b) != "" && ':' !in b
    ensures ParseRecord(sc, RenderHeader(sc, values) + body) == None
  {
    var first := sc.fields[0] + ": " + a;
    var rest := RenderStarts(sc, values, body);
    StripFacts(b);
    assert FieldName(sc.fields[0]);
    assert b != "";
    assert RenderHeader(sc, values) + body == first + "\r" + (b + "\n" + rest);
    NamedLine(sc.fields[0], a);
    ReturnCuts(first, b, rest);
    SecondLineKept(first, b, FileLines(rest));
    assert !HasColon(b);
  }

  lemma NamedLine(f: string, v: string)
    requires FieldName(f) && OneLine(v)
    ensures OneLine(f + ": " + v) && Strip(f + ": " + v) != ""
  {
    var line := f + ": " + v;
    forall c | c in line ensures c != '\n' && c != '\r' {
      var k :| 0 <= k < |line| && line[k] == c;
      if k < |f| { assert f[k] == c && !IsLineBreak(f[k]); } else if k >= |f| + 2 { assert v[k - |f| - 2] == c; }
    }
    StripFacts(line);
    assert line[0] == f[0] && !IsSpace(f[0]);
  }

  /** A title with a carriage return in it, stored by set-header: no field can be read back. */
  lemma ReturnInTitle(values: map<string, string>, body: string)
    requires ValueFor(values, "Title") == "a" + "\r" + "b"
    ensures ParseRecord(GOVERNED, RenderHeader(GOVERNED, values) + body) == None
  {
    GovernedSchemaFits();
    assert FIELDS_1[0] == "Title" && GOVERNED.fields[0] == "Title";
    assert Trimmed("b");
    StripFacts("b");
    ReturnLosesRecord(GOVERNED, values, "a", "b", body);
  }
}
