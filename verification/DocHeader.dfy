/** The governed document header: printer, parser, the set-header rewrite, and the reader that
    separates a document's body from its header. */
module DocHeader {
  import opened Wrappers
  import opened Text

  const HEADER_LINE_LIMIT := 40

  /** The governed fields in header order, which of them hold comma lists, and the boolean one. */
  datatype Schema = Schema(fields: seq<string>, lists: set<string>, flag: string)

  // HEADER_FIELD_ORDER, in groups of three.
  const FIELDS_1 := ["Title", "Doc-ID", "Doc-Type"]
  const FIELDS_2 := ["Status", "Lifecycle-Stage", "Created"]
  const FIELDS_3 := ["Last-Edited", "Author", "Repo"]
  const FIELDS_4 := ["Component", "Domain", "Keywords"]
  const FIELDS_5 := ["Depends-On", "Supersedes", "Superseded-By"]
  const FIELDS_6 := ["Canonical", "Review-After", "Owners"]
  const FIELDS_7 := ["Expires", "Issue", "PR"]
  const FIELDS_8 := ["Authority-Source", "Implementation-Status", "Summary"]
  const HEADER_FIELD_ORDER :=
    ((FIELDS_1 + FIELDS_2) + (FIELDS_3 + FIELDS_4)) + ((FIELDS_5 + FIELDS_6) + (FIELDS_7 + FIELDS_8))

  const GOVERNED := Schema(
    HEADER_FIELD_ORDER,
    {"Keywords", "Depends-On", "Supersedes", "Superseded-By", "Owners"},
    "Canonical")

  datatype FieldValue = Plain(text: string) | Flag(on: bool) | Items(items: seq<string>)

  /** A normalised record: normalised key to value. */
  type Record = map<string, FieldValue>

  function Lower(c: char): char {
    if 'A' <= c <= 'Z' then (c as int + 32) as char else c
  }

  function LowerAll(s: string): string {
    seq(|s|, i requires 0 <= i < |s| => Lower(s[i]))
  }

  /** key.lower().replace("-", "_"). */
  function NormKey(key: string): string {
    seq(|key|, i requires 0 <= i < |key| => if key[i] == '-' then '_' else Lower(key[i]))
  }

  function NormalizeItems(parts: seq<string>): seq<string> {
    if parts == [] then []
    else (if Strip(parts[0]) == "" then [] else [Strip(parts[0])]) + NormalizeItems(parts[1..])
  }

  function NormalizeList(value: string): seq<string> {
    NormalizeItems(SplitOn(',', value))
  }

  function NormalizeValue(sc: Schema, key: string, value: string): FieldValue {
    if key in sc.lists then Items(NormalizeList(value))
    else if key == sc.flag then Flag(LowerAll(value) == "true")
    else Plain(value)
  }

  // ---------------------------------------------------------------- reading

  /** Lines up to and including the first blank one, at most limit of them. */
  function HeaderBlock(lines: seq<string>, limit: nat): seq<string> {
    if lines == [] || limit == 0 then []
    else if Strip(lines[0]) == "" then [lines[0]]
    else [lines[0]] + HeaderBlock(lines[1..], limit - 1)
  }

  function HeaderLines(text: string): seq<string> {
    HeaderBlock(FileLines(text), HEADER_LINE_LIMIT)
  }

  function BeforeBlank(lines: seq<string>): seq<string> {
    if lines == [] || Strip(lines[0]) == "" then [] else [lines[0]] + BeforeBlank(lines[1..])
  }

  function KeyOf(line: string): string {
    Strip(line[..Span(c => c == ':', line)])
  }

  predicate HasColon(line: string) {
    Span(c => c == ':', line) < |line|
  }

  function ValueOf(line: string): string
    requires HasColon(line)
  {
    Strip(LStripIf(IsSpace, line[Span(c => c == ':', line) + 1..]))
  }

  /** Key-value pairs in order of first appearance; a repeated key keeps its first value. */
  function RawFields(lines: seq<string>): seq<(string, string)>
    requires forall i :: 0 <= i < |lines| ==> HasColon(lines[i])
  {
    if lines == [] then []
    else
      var front := RawFields(lines[..|lines| - 1]);
      var line := lines[|lines| - 1];
      if KeyOf(line) in KeysOf(front) then front else front + [(KeyOf(line), ValueOf(line))]
  }

  function KeysOf(raw: seq<(string, string)>): set<string> {
    set p | p in raw :: p.0
  }

  function Normalize(sc: Schema, raw: seq<(string, string)>): Record {
    if raw == [] then map[]
    else
      var last := raw[|raw| - 1];
      Normalize(sc, raw[..|raw| - 1])[NormKey(last.0) := NormalizeValue(sc, last.0, last.1)]
  }

  /** The record parse_header returns; None when the document has no well-formed header. */
  function ParseRecord(sc: Schema, text: string): Option<Record> {
    var lines := BeforeBlank(HeaderLines(text));
    if lines == [] || !HasColon(lines[0]) || KeyOf(lines[0]) !in sc.fields then None
    else if exists i :: 0 <= i < |lines| && !HasColon(lines[i]) then None
    else Some(Normalize(sc, RawFields(lines)))
  }

  lemma RawFieldsStep(lines: seq<string>, line: string)
    requires (forall i :: 0 <= i < |lines| ==> HasColon(lines[i])) && HasColon(line)
    ensures RawFields(lines + [line]) ==
            if KeyOf(line) in KeysOf(RawFields(lines)) then RawFields(lines) else RawFields(lines) + [(KeyOf(line), ValueOf(line))]
  {
    assert (lines + [line])[..|lines|] == lines;
  }

  lemma KeysAppend(raw: seq<(string, string)>, key: string, value: string)
    ensures KeysOf(raw + [(key, value)]) == KeysOf(raw) + {key}
  {
    var longer := raw + [(key, value)];
    assert longer[|raw|] == (key, value);
    forall p | p in raw ensures p in longer {}
  }

  predicate AllKeyed(lines: seq<string>) {
    forall i :: 0 <= i < |lines| ==> HasColon(lines[i])
  }

  lemma KeyedStep(lines: seq<string>, i: nat)
    requires i < |lines|
    ensures lines[..i + 1] == lines[..i] + [lines[i]]
    ensures AllKeyed(lines[..i + 1]) <==> AllKeyed(lines[..i]) && HasColon(lines[i])
    ensures !HasColon(lines[i]) ==> !AllKeyed(lines)
  {
    var longer := lines[..i + 1];
    assert longer[i] == lines[i] && forall k :: 0 <= k < i ==> longer[k] == lines[..i][k];
  }

  /** One pass over the header lines with a set of keys already seen. */
  method ReadFields(lines: seq<string>) returns (fields: Option<seq<(string, string)>>)
    ensures fields.Some? <==> AllKeyed(lines)
    ensures fields.Some? ==> fields.value == RawFields(lines)
  {
    var raw: seq<(string, string)> := [];
    var seen: set<string> := {};
    for i := 0 to |lines|
      invariant AllKeyed(lines[..i]) && raw == RawFields(lines[..i]) && seen == KeysOf(raw)
    {
      KeyedStep(lines, i);
      if !HasColon(lines[i]) {
        return None;
      }
      RawFieldsStep(lines[..i], lines[i]);
      var key, value := KeyOf(lines[i]), ValueOf(lines[i]);
      if key !in seen {
        KeysAppend(raw, key, value);
        seen := seen + {key};
        raw := raw + [(key, value)];
      }
    }
    assert lines[..|lines|] == lines;
    return Some(raw);
  }

  /** The parser as it runs. */
  method ParseHeader(sc: Schema, text: string) returns (record: Option<Record>)
    ensures record == ParseRecord(sc, text)
  {
    var lines := BeforeBlank(HeaderLines(text));
    if lines == [] || !HasColon(lines[0]) || KeyOf(lines[0]) !in sc.fields {
      return None;
    }
    var raw := ReadFields(lines);
    return if raw.None? then None else Some(Normalize(sc, raw.value));
  }

  /** The document without its header, as read from the stored text. */
  function ReadBody(sc: Schema, text: string): string {
    var lines := SplitLines(text);
    var header := HeaderLines(text);
    if lines == [] then ""
    else if header != [] && KeyOf(header[0]) in sc.fields then
      LStripIf(IsNewline, Join("\n", if |header| <= |lines| then lines[|header|..] else []))
    else Translate(text)
  }

  // ---------------------------------------------------------------- writing

  function ValueFor(values: map<string, string>, field: string): string {
    if field in values then values[field] else ""
  }

  function FieldLine(values: map<string, string>, field: string): string {
    field + ": " + ValueFor(values, field)
  }

  function FieldLines(fields: seq<string>, values: map<string, string>): seq<string> {
    seq(|fields|, i requires 0 <= i < |fields| => FieldLine(values, fields[i]))
  }

  function RenderHeader(sc: Schema, values: map<string, string>): string {
    Join("\n", FieldLines(sc.fields, values)) + "\n\n"
  }

  function Unparse(v: FieldValue): string {
    match v
    case Plain(t) => t
    case Flag(on) => if on then "true" else "false"
    case Items(l) => Join(", ", l)
  }

  /** Header values for a rewrite: a field not given explicitly keeps what the record holds. */
  function RewriteValues(sc: Schema, given: map<string, string>, explicit: set<string>, record: Option<Record>): map<string, string>
    requires forall f :: f in sc.fields ==> f in given
  {
    map f | f in sc.fields :: RewriteValue(given, explicit, record, f)
  }

  function RewriteValue(given: map<string, string>, explicit: set<string>, record: Option<Record>, field: string): string
    requires field in given
  {
    if record.Some? && field !in explicit && NormKey(field) in record.value
    then Unparse(record.value[NormKey(field)])
    else given[field]
  }

  function DefaultBody(title: string): string {
    "# " + title + "\n"
  }

  /** The text set-header stores over a stored document (None when the file does not exist yet). */
  function Rewritten(sc: Schema, document: Option<string>, given: map<string, string>, explicit: set<string>, bodyArgument: string): string
    requires "Title" in sc.fields && forall f :: f in sc.fields ==> f in given
  {
    var record := if document.Some? then ParseRecord(sc, document.value) else None;
    var existing := if document.Some? then ReadBody(sc, document.value) else "";
    var values := RewriteValues(sc, given, explicit, record);
    var body := if existing != "" then existing
                else if bodyArgument != "" then bodyArgument
                else DefaultBody(values["Title"]);
    RenderHeader(sc, values) + body
  }

  method KeepRecorded(sc: Schema, given: map<string, string>, explicit: set<string>, record: Record)
      returns (values: map<string, string>)
    requires given.Keys == set f | f in sc.fields
    ensures values == RewriteValues(sc, given, explicit, Some(record))
  {
    values := given;
    for i := 0 to |sc.fields|
      invariant values.Keys == given.Keys
      invariant forall f :: f in sc.fields[..i] ==> values[f] == RewriteValue(given, explicit, Some(record), f)
      invariant forall f :: f in given && f !in sc.fields[..i] ==> values[f] == given[f]
    {
      var field := sc.fields[i];
      assert sc.fields[..i + 1] == sc.fields[..i] + [field];
      if field !in explicit && NormKey(field) in record {
        values := values[field := Unparse(record[NormKey(field)])];
      }
    }
    assert sc.fields[..|sc.fields|] == sc.fields;
  }

  method SetHeader(sc: Schema, document: Option<string>, given: map<string, string>, explicit: set<string>, bodyArgument: string)
      returns (text: string)
    requires "Title" in sc.fields && given.Keys == set f | f in sc.fields
    ensures text == Rewritten(sc, document, given, explicit, bodyArgument)
  {
    var body := "";
    var values := given;
    if document.Some? {
      body := ReadBody(sc, document.value);
      var record := ParseHeader(sc, document.value);
      if record.Some? {
        values := KeepRecorded(sc, given, explicit, record.value);
      } else {
        assert given == RewriteValues(sc, given, explicit, None);
      }
    } else {
      assert given == RewriteValues(sc, given, explicit, None);
    }
    if body == "" { body := bodyArgument; }
    if body == "" { body := DefaultBody(values["Title"]); }
    text := RenderHeader(sc, values) + body;
  }
}
