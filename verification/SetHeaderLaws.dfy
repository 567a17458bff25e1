/** What parse_header and set-header do to any document, told from its lines, the values given and
    the values recorded. */
module SetHeaderLaws {
  import opened Wrappers
  import opened Ordering
  import opened Text
  import opened DocHeader
  import opened DocHeaderLaws

  // ---------------------------------------------------------------- the record of any document

  /** The first n lines are the header: none of them is blank, and a blank line, the end of the file
      or the 40th line comes next. */
  predicate HeaderExtent(lines: seq<string>, n: nat) {
    && n <= |lines| && n <= 40
    && (forall i :: 0 <= i < n ==> !Blank(lines[i]))
    && (n == |lines| || n == 40 || Blank(lines[n]))
  }

  lemma {:induction false} BlockExtent(lines: seq<string>, n: nat, limit: nat)
    requires n <= |lines| && n <= limit && forall i :: 0 <= i < n ==> !Blank(lines[i])
    requires n == |lines| || n == limit || Blank(lines[n])
    ensures BeforeBlank(HeaderBlock(lines, limit)) == lines[..n]
  {
    if lines != [] && limit > 0 {
      StripFacts(lines[0]);
      if n > 0 {
        var rest := HeaderBlock(lines[1..], limit - 1);
        BlockExtent(lines[1..], n - 1, limit - 1);
        assert ([lines[0]] + rest)[1..] == rest;
        assert lines[..n] == [lines[0]] + lines[1..][..n - 1];
      }
    }
  }

  /** A line of the form key, colon, value reads as the key and the value, trimmed. */
  lemma LineRead(key: string, value: string)
    requires ':' !in key
    ensures HasColon(key + ":" + value)
    ensures KeyOf(key + ":" + value) == Strip(key) && ValueOf(key + ":" + value) == Strip(value)
  {
    var line := key + ":" + value;
    SpanAt(c => c == ':', line, |key|);
    assert line[..|key|] == key && line[|key| + 1..] == value;
    LStripTwice(value);
  }

  lemma LStripTwice(s: string)
    ensures Strip(LStripIf(IsSpace, s)) == Strip(s)
  {
    var k := LStripCut(IsSpace, s);
  }

  /** A line without a colon has none to read. */
  lemma NoColon(line: string)
    ensures HasColon(line) <==> ':' in line
  {
    if i :| 0 <= i < |line| && line[i] == ':' {
      var n := Span(c => c == ':', line);
      assert n <= i;
    }
  }

  /** Characters a header key may be spelt with alternatively: hyphen for underscore, capital for small
      letter. */
  predicate SameLetter(c: char, d: char) {
    || c == d || (c == '-' && d == '_') || (c == '_' && d == '-')
    || ('A' <= c <= 'Z' && d as int == c as int + 32) || ('A' <= d <= 'Z' && c as int == d as int + 32)
  }

  predicate SameSpelling(a: string, b: string) {
    |a| == |b| && forall i :: 0 <= i < |a| ==> SameLetter(a[i], b[i])
  }

  /** Two spellings name one entry of a record exactly when they agree letter by letter. */
  lemma SpellingsMeetIff(a: string, b: string)
    ensures NormKey(a) == NormKey(b) <==> SameSpelling(a, b)
  {
    if NormKey(a) == NormKey(b) {
      forall i | 0 <= i < |a| ensures SameLetter(a[i], b[i]) { assert NormKey(a)[i] == NormKey(b)[i]; }
    }
  }

  /** The name of the entry is the spelling without hyphens and capitals. */
  lemma EntryName(a: string)
    ensures SameSpelling(a, NormKey(a))
    ensures forall i :: 0 <= i < |NormKey(a)| ==> NormKey(a)[i] != '-' && !('A' <= NormKey(a)[i] <= 'Z')
  {
  }

  predicate FirstOfKey(lines: seq<string>, i: nat)
    requires i < |lines|
  {
    forall j :: 0 <= j < i ==> KeyOf(lines[j]) != KeyOf(lines[i])
  }

  /** No later line spells the same key in another way. */
  predicate LastSpelling(lines: seq<string>, i: nat)
    requires i < |lines|
  {
    forall j :: i < j < |lines| && NormKey(KeyOf(lines[j])) == NormKey(KeyOf(lines[i])) ==> KeyOf(lines[j]) == KeyOf(lines[i])
  }

  function KeyList(lines: seq<string>): seq<string> {
    seq(|lines|, i requires 0 <= i < |lines| => KeyOf(lines[i]))
  }

  lemma OneMoreKey(keys: seq<string>, key: string)
    ensures Elements(keys + [key]) == Elements(keys) + {key}
  {
  }

  lemma RawKeysStep(front: seq<string>, line: string)
    requires AllKeyed(front) && HasColon(line) && KeysOf(RawFields(front)) == Elements(KeyList(front))
    ensures AllKeyed(front + [line]) && KeysOf(RawFields(front + [line])) == Elements(KeyList(front + [line]))
  {
    RawFieldsStep(front, line);
    KeysAppend(RawFields(front), KeyOf(line), ValueOf(line));
    OneMoreKey(KeyList(front), KeyOf(line));
    assert KeyList(front + [line]) == KeyList(front) + [KeyOf(line)];
  }

  lemma {:induction false} RawKeys(lines: seq<string>)
    requires AllKeyed(lines)
    ensures KeysOf(RawFields(lines)) == Elements(KeyList(lines))
  {
    if lines != [] {
      var front, line := lines[..|lines| - 1], lines[|lines| - 1];
      RawKeys(front);
      RawKeysStep(front, line);
      assert lines == front + [line];
    }
  }

  /** The normalised record of a line list, line by line. */
  ghost predicate ReadsLines(sc: Schema, lines: seq<string>, record: Record)
    requires AllKeyed(lines)
  {
    && (forall k :: k in record <==> exists i :: 0 <= i < |lines| && NormKey(KeyOf(lines[i])) == k)
    && (forall i :: 0 <= i < |lines| && FirstOfKey(lines, i) && LastSpelling(lines, i) ==>
          NormKey(KeyOf(lines[i])) in record &&
          record[NormKey(KeyOf(lines[i]))] == NormalizeValue(sc, KeyOf(lines[i]), ValueOf(lines[i])))
  }

  lemma SomeSpelling(front: seq<string>, line: string, k: string)
    ensures (exists i :: 0 <= i < |front + [line]| && NormKey(KeyOf((front + [line])[i])) == k) <==>
            (exists i :: 0 <= i < |front| && NormKey(KeyOf(front[i])) == k) || NormKey(KeyOf(line)) == k
  {
    var lines := front + [line];
    if i :| 0 <= i < |front| && NormKey(KeyOf(front[i])) == k { assert NormKey(KeyOf(lines[i])) == k; }
    if NormKey(KeyOf(line)) == k { assert NormKey(KeyOf(lines[|front|])) == k; }
    if i :| 0 <= i < |front| && NormKey(KeyOf(lines[i])) == k { assert NormKey(KeyOf(front[i])) == k; }
  }

  lemma NotFirst(front: seq<string>, line: string, first: nat)
    requires first < |front| && KeyOf(front[first]) == KeyOf(line)
    ensures !FirstOfKey(front + [line], |front|)
  {
    assert KeyOf((front + [line])[first]) == KeyOf(line);
  }

  lemma KnownKeyKeeps(sc: Schema, front: seq<string>, line: string, record: Record)
    requires AllKeyed(front) && HasColon(line) && ReadsLines(sc, front, record)
    requires exists i :: 0 <= i < |front| && KeyOf(front[i]) == KeyOf(line)
    ensures AllKeyed(front + [line]) && ReadsLines(sc, front + [line], record)
  {
    var lines := front + [line];
    var first :| 0 <= first < |front| && KeyOf(front[first]) == KeyOf(line);
    NotFirst(front, line, first);
    forall k ensures k in record <==> exists i :: 0 <= i < |lines| && NormKey(KeyOf(lines[i])) == k {
      SomeSpelling(front, line, k);
      assert NormKey(KeyOf(front[first])) == NormKey(KeyOf(line));
    }
    forall i | 0 <= i < |lines| && FirstOfKey(lines, i) && LastSpelling(lines, i)
      ensures NormKey(KeyOf(lines[i])) in record
      ensures record[NormKey(KeyOf(lines[i]))] == NormalizeValue(sc, KeyOf(lines[i]), ValueOf(lines[i]))
    {
      FrontSpelling(front, line, i);
    }
  }

  lemma FrontSpelling(front: seq<string>, line: string, i: nat)
    requires i < |front| && FirstOfKey(front + [line], i) && LastSpelling(front + [line], i)
    ensures FirstOfKey(front, i) && LastSpelling(front, i)
    ensures NormKey(KeyOf(line)) == NormKey(KeyOf(front[i])) ==> KeyOf(line) == KeyOf(front[i])
  {
    var lines := front + [line];
    assert lines[|front|] == line;
    forall j | 0 <= j < i ensures KeyOf(front[j]) != KeyOf(front[i]) { assert KeyOf(lines[j]) != KeyOf(lines[i]); }
    forall j | i < j < |front| && NormKey(KeyOf(front[j])) == NormKey(KeyOf(front[i]))
      ensures KeyOf(front[j]) == KeyOf(front[i])
    {
      assert NormKey(KeyOf(lines[j])) == NormKey(KeyOf(lines[i]));
    }
  }

  lemma NewKeyAdds(sc: Schema, front: seq<string>, line: string, record: Record)
    requires AllKeyed(front) && HasColon(line) && ReadsLines(sc, front, record)
    requires forall i :: 0 <= i < |front| ==> KeyOf(front[i]) != KeyOf(line)
    ensures AllKeyed(front + [line])
    ensures ReadsLines(sc, front + [line], record[NormKey(KeyOf(line)) := NormalizeValue(sc, KeyOf(line), ValueOf(line))])
  {
    var lines := front + [line];
    var longer := record[NormKey(KeyOf(line)) := NormalizeValue(sc, KeyOf(line), ValueOf(line))];
    forall k ensures k in longer <==> exists i :: 0 <= i < |lines| && NormKey(KeyOf(lines[i])) == k {
      SomeSpelling(front, line, k);
    }
    forall i | 0 <= i < |lines| && FirstOfKey(lines, i) && LastSpelling(lines, i)
      ensures NormKey(KeyOf(lines[i])) in longer
      ensures longer[NormKey(KeyOf(lines[i]))] == NormalizeValue(sc, KeyOf(lines[i]), ValueOf(lines[i]))
    {
      if i < |front| { FrontSpelling(front, line, i); }
    }
  }

  lemma {:induction false} NormalizedLines(sc: Schema, lines: seq<string>)
    requires AllKeyed(lines)
    ensures ReadsLines(sc, lines, Normalize(sc, RawFields(lines)))
  {
    if lines != [] {
      var n := |lines| - 1;
      var front, line := lines[..n], lines[n];
      NormalizedLines(sc, front);
      RawKeys(front);
      assert lines == front + [line];
      if KeyOf(line) in KeysOf(RawFields(front)) {
        var i :| 0 <= i < |KeyList(front)| && KeyList(front)[i] == KeyOf(line);
        KnownKeyKeeps(sc, front, line, Normalize(sc, RawFields(front)));
      } else {
        var raw := RawFields(front) + [(KeyOf(line), ValueOf(line))];
        assert raw[..|raw| - 1] == RawFields(front);
        forall i | 0 <= i < |front| ensures KeyOf(front[i]) != KeyOf(line) {
          assert KeyList(front)[i] in KeyList(front);
        }
        NewKeyAdds(sc, front, line, Normalize(sc, RawFields(front)));
      }
    }
  }

  /** When a document has a record and what it holds: its header begins with a governed key and has a
      colon in every line; of lines with one key the first counts, and of spellings of one key the
      last. */
  lemma RecordFromLines(sc: Schema, text: string, n: nat)
    requires HeaderExtent(FileLines(text), n)
    ensures var lines := FileLines(text)[..n];
            && (ParseRecord(sc, text).Some? <==>
                  n > 0 && (forall i :: 0 <= i < n ==> ':' in lines[i]) && KeyOf(lines[0]) in sc.fields)
            && (ParseRecord(sc, text).Some? ==> AllKeyed(lines) && ReadsLines(sc, lines, ParseRecord(sc, text).value))
  {
    var lines := FileLines(text)[..n];
    BlockExtent(FileLines(text), n, HEADER_LINE_LIMIT);
    forall i | 0 <= i < n ensures HasColon(lines[i]) <==> ':' in lines[i] { NoColon(lines[i]); }
    if ParseRecord(sc, text).Some? { NormalizedLines(sc, lines); }
  }

  /** Every document has one such extent. */
  lemma {:induction false} ExtentExists(lines: seq<string>, limit: nat) returns (n: nat)
    requires limit <= 40
    ensures n <= |lines| && n <= limit && forall i :: 0 <= i < n ==> !Blank(lines[i])
    ensures n == |lines| || n == limit || Blank(lines[n])
  {
    if lines == [] || limit == 0 || Blank(lines[0]) {
      n := 0;
    } else {
      var m := ExtentExists(lines[1..], limit - 1);
      n := m + 1;
      forall i | 0 <= i < n ensures !Blank(lines[i]) { if i > 0 { assert lines[i] == lines[1..][i - 1]; } }
      if m < |lines[1..]| { assert lines[n] == lines[1..][m]; }
    }
  }

  predicate SpellsTrue(value: string) {
    && |value| == 4 && (value[0] == 't' || value[0] == 'T') && (value[1] == 'r' || value[1] == 'R')
    && (value[2] == 'u' || value[2] == 'U') && (value[3] == 'e' || value[3] == 'E')
  }

  lemma TrueSpelled(value: string)
    requires LowerAll(value) == "true"
    ensures SpellsTrue(value)
  {
    var lower := LowerAll(value);
    assert lower[0] == 't' && lower[1] == 'r' && lower[2] == 'u' && lower[3] == 'e';
  }

  /** The flag of a header is the word true in any case; a value that is neither list nor flag stays
      as it is. */
  lemma ValueRead(sc: Schema, field: string, value: string)
    requires sc.flag !in sc.lists
    ensures field == sc.flag ==> NormalizeValue(sc, field, value) == Flag(SpellsTrue(value))
    ensures field !in sc.lists && field != sc.flag ==> NormalizeValue(sc, field, value) == Plain(value)
  {
    if SpellsTrue(value) { assert LowerAll(value) == "true"; }
    if LowerAll(value) == "true" { TrueSpelled(value); }
  }

  function TrimAll(parts: seq<string>): seq<string> {
    seq(|parts|, i requires 0 <= i < |parts| => Strip(parts[i]))
  }

  lemma {:induction false} ItemsThen(parts: seq<string>, last: string)
    ensures NormalizeItems(parts + [last]) == NormalizeItems(parts) + (if Strip(last) == "" then [] else [Strip(last)])
  {
    if parts != [] {
      ItemsThen(parts[1..], last);
      assert (parts + [last])[1..] == parts[1..] + [last];
    }
  }

  lemma {:induction false} ItemsKept(parts: seq<string>)
    ensures NormalizeItems(parts) == Filter((s: string) => s != "", TrimAll(parts))
  {
    if parts != [] {
      var n := |parts| - 1;
      ItemsKept(parts[..n]);
      ItemsThen(parts[..n], parts[n]);
      assert parts[..n] + [parts[n]] == parts;
      assert TrimAll(parts)[..n] == TrimAll(parts[..n]);
    }
  }

  /** A list holds the parts between commas, trimmed, without the blank ones, in order. */
  lemma ListRead(sc: Schema, field: string, parts: seq<string>)
    requires field in sc.lists && parts != [] && forall i :: 0 <= i < |parts| ==> ',' !in parts[i]
    ensures NormalizeValue(sc, field, Join(",", parts)) == Items(Filter((s: string) => s != "", TrimAll(parts)))
  {
    SplitJoin(',', parts);
    ItemsKept(parts);
  }

  // ---------------------------------------------------------------- what set-header writes

  /** A field set-header takes from its arguments: given explicitly, or not recorded before. */
  predicate FromArguments(before: Option<Record>, explicit: set<string>, field: string) {
    field in explicit || before.None? || NormKey(field) !in before.value
  }

  /** A recorded value as header text. */
  function Spelled(v: FieldValue): string {
    match v
    case Plain(text) => text
    case Flag(on) => if on then "true" else "false"
    case Items(items) => Join(", ", items)
  }

  lemma TextChosen(sc: Schema, given: map<string, string>, explicit: set<string>, before: Option<Record>, field: string)
    requires field in sc.fields && forall f :: f in sc.fields ==> f in given
    ensures ValueFor(RewriteValues(sc, given, explicit, before), field) ==
            if FromArguments(before, explicit, field) then given[field] else Spelled(before.value[NormKey(field)])
  {
  }

  lemma FieldHeld(sc: Schema, given: map<string, string>, explicit: set<string>, before: Option<Record>, after: Record, field: string)
    requires sc.flag !in sc.lists && field in sc.fields && forall f :: f in sc.fields ==> f in given
    requires HoldsValues(sc, sc.fields, RewriteValues(sc, given, explicit, before), after)
    requires before.Some? ==> forall k :: k in before.value ==> Parsed(before.value[k])
    ensures NormKey(field) in after
    ensures if FromArguments(before, explicit, field)
            then after[NormKey(field)] == NormalizeValue(sc, field, Strip(given[field]))
            else (after[NormKey(field)] == before.value[NormKey(field)] <==> KindFits(sc, field, before.value[NormKey(field)]))
  {
    var i :| 0 <= i < |sc.fields| && sc.fields[i] == field;
    assert HoldsValue(sc, sc.fields[i], RewriteValues(sc, given, explicit, before), after);
    TextChosen(sc, given, explicit, before, field);
    if !FromArguments(before, explicit, field) { Reparse(sc, field, before.value[NormKey(field)]); }
  }

  /** After any set-header: a field given explicitly, or not recorded before, holds the value given;
      any other field keeps its recorded value, exactly when that is of the field's kind. */
  lemma FieldsAfterRewrite(sc: Schema, document: Option<string>, given: map<string, string>, explicit: set<string>,
      bodyArgument: string, field: string)
    requires Fits(sc) && "Title" in sc.fields && GivenFits(sc, given) && field in sc.fields
    ensures var before := if document.Some? then ParseRecord(sc, document.value) else None;
            var after := ParseRecord(sc, Rewritten(sc, document, given, explicit, bodyArgument));
            && after.Some? && NormKey(field) in after.value
            && if FromArguments(before, explicit, field)
               then after.value[NormKey(field)] == NormalizeValue(sc, field, Strip(given[field]))
               else (after.value[NormKey(field)] == before.value[NormKey(field)] <==> KindFits(sc, field, before.value[NormKey(field)]))
  {
    var before := RecordOf(sc, document);
    RecordAfterRewrite(sc, document, given, explicit, bodyArgument);
    if before.Some? { RecordIsParsed(sc, document.value); }
    var after := ParseRecord(sc, Rewritten(sc, document, given, explicit, bodyArgument));
    FieldHeld(sc, given, explicit, before, after.value, field);
  }

  lemma BlankLineBetween(header: string, body: string)
    ensures header + "\n\n" + body == header + "\n" + "\n" + body
  {
    assert header + "\n\n" == header + "\n" + "\n";
  }

  /** The file set-header leaves, line by line: the governed fields in order, each with the value
      given or the recorded one spelled out, a blank line, and the body. */
  lemma FileAfterRewrite(sc: Schema, document: Option<string>, given: map<string, string>, explicit: set<string>, bodyArgument: string)
    returns (lines: seq<string>, body: string)
    requires "Title" in sc.fields && forall f :: f in sc.fields ==> f in given
    ensures Rewritten(sc, document, given, explicit, bodyArgument) == Join("\n", lines) + "\n" + "\n" + body
    ensures |lines| == |sc.fields|
    ensures var before := if document.Some? then ParseRecord(sc, document.value) else None;
            && (forall i :: 0 <= i < |lines| ==>
                  lines[i] == sc.fields[i] + ": " +
                    if FromArguments(before, explicit, sc.fields[i]) then given[sc.fields[i]]
                    else Spelled(before.value[NormKey(sc.fields[i])]))
            && body == (if document.Some? && ReadBody(sc, document.value) != "" then ReadBody(sc, document.value)
                        else if bodyArgument != "" then bodyArgument
                        else "# " + (if FromArguments(before, explicit, "Title") then given["Title"]
                                     else Spelled(before.value[NormKey("Title")])) + "\n")
  {
    var record := RecordOf(sc, document);
    var values := RewriteValues(sc, given, explicit, record);
    lines := FieldLines(sc.fields, values);
    var existing := if document.Some? then ReadBody(sc, document.value) else "";
    body := if existing != "" then existing else if bodyArgument != "" then bodyArgument else DefaultBody(values["Title"]);
    forall i | 0 <= i < |lines| { TextChosen(sc, given, explicit, record, sc.fields[i]); }
    TextChosen(sc, given, explicit, record, "Title");
    BlankLineBetween(Join("\n", lines), body);
  }

  /** A document that does not begin with a governed key is body from its first character on. */
  lemma HeaderlessBody(sc: Schema, text: string)
    requires FileLines(text) == [] || KeyOf(FileLines(text)[0]) !in sc.fields
    ensures ReadBody(sc, text) == Translate(text)
  {
    if text == "" {
      assert Translate(text) == "";
    } else {
      SomeLine(IsLineBreak, text);
    }
  }
}
