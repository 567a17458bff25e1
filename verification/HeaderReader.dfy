/** The index reader: what a document's header says decides whether sync takes it as a source. */
module HeaderReader {
  import opened Wrappers
  import opened Text
  import opened DocHeader
  import opened DocHeaderLaws
  import opened SetHeaderLaws
  import opened CurrentBanner
  import opened SyncCurrent
  import opened SyncLaws

  /** The parts of the index that are given: whether a header validates, and the category. */
  datatype Verdicts = Verdicts(validates: Path -> string -> bool, category: Path -> string -> string)

  function TextAt(r: Record, field: string): string {
    if NormKey(field) in r && r[NormKey(field)].Plain? then r[NormKey(field)].text else ""
  }

  function FlagAt(r: Record, field: string): bool {
    NormKey(field) in r && r[NormKey(field)] == Flag(true)
  }

  /** The index record of a document; without a header it is never a valid one. */
  function IndexRecord(verdicts: Verdicts, p: Path, text: string): DocRecord {
    match ParseRecord(GOVERNED, text)
    case None => DocRecord(p, false, false, "", "", "", "")
    case Some(r) =>
      DocRecord(p, verdicts.validates(p)(text), FlagAt(r, "Canonical"),
        TextAt(r, "Status"), TextAt(r, "Lifecycle-Stage"), TextAt(r, "Doc-ID"), verdicts.category(p)(text))
  }

  function Reader(verdicts: Verdicts): (Path, string) -> DocRecord {
    (p, text) => IndexRecord(verdicts, p, text)
  }

  lemma ReaderIsHonest(verdicts: Verdicts)
    ensures HonestReader(Reader(verdicts))
  {
  }

  lemma SelectionFields()
    ensures "Canonical" in GOVERNED.fields && "Canonical" == GOVERNED.flag && "Canonical" !in GOVERNED.lists
    ensures "Status" in GOVERNED.fields && "Status" != GOVERNED.flag && "Status" !in GOVERNED.lists
    ensures "Lifecycle-Stage" in GOVERNED.fields && "Lifecycle-Stage" != GOVERNED.flag && "Lifecycle-Stage" !in GOVERNED.lists
    ensures "Doc-ID" in GOVERNED.fields && "Doc-ID" != GOVERNED.flag && "Doc-ID" !in GOVERNED.lists
  {
    assert FIELDS_6[0] == "Canonical" && FIELDS_2[0] == "Status" && FIELDS_2[1] == "Lifecycle-Stage" && FIELDS_1[1] == "Doc-ID";
    assert "Canonical" in FIELDS_5 + FIELDS_6 && "Status" in FIELDS_1 + FIELDS_2;
    assert "Lifecycle-Stage" in FIELDS_1 + FIELDS_2 && "Doc-ID" in FIELDS_1 + FIELDS_2;
    NotListed("Canonical");
    NotListed("Status");
    NotListed("Lifecycle-Stage");
    NotListed("Doc-ID");
  }

  lemma NotListed(field: string)
    requires field in ["Canonical", "Status", "Lifecycle-Stage", "Doc-ID"]
    ensures field !in GOVERNED.lists
  {
  }

  /** What the index reads of a field a header was rendered with. */
  lemma FieldRead(values: map<string, string>, body: string, field: string)
    requires DocHeaderLaws.Fits(GOVERNED) && OneLineValues(GOVERNED, values) && field in GOVERNED.fields
    ensures var parsed := ParseRecord(GOVERNED, RenderHeader(GOVERNED, values) + body);
            parsed.Some? && HoldsValue(GOVERNED, field, values, parsed.value)
  {
    ParseOfRendered(GOVERNED, values, body);
    var i :| 0 <= i < |GOVERNED.fields| && GOVERNED.fields[i] == field;
    var parsed := ParseRecord(GOVERNED, RenderHeader(GOVERNED, values) + body);
    assert HoldsValue(GOVERNED, GOVERNED.fields[i], values, parsed.value);
  }

  lemma UnderSomeRoot(roots: seq<StageRoot>, p: Path)
    ensures HasStageRoot(roots, p) <==> exists i :: 0 <= i < |roots| && roots[i].dir <= p
  {
    forall i | 0 <= i < |roots| ensures roots[i].dir <= p <==> p == roots[i].dir || Under(p, roots[i].dir) {}
  }

  /** The index record of a rendered document, from the values written. */
  lemma IndexedRecord(verdicts: Verdicts, p: Path, values: map<string, string>, body: string)
    requires OneLineValues(GOVERNED, values)
    ensures var text := RenderHeader(GOVERNED, values) + body;
            IndexRecord(verdicts, p, text) ==
            DocRecord(p, verdicts.validates(p)(text), SpellsTrue(Strip(ValueFor(values, "Canonical"))),
                      Strip(ValueFor(values, "Status")), Strip(ValueFor(values, "Lifecycle-Stage")), Strip(ValueFor(values, "Doc-ID")),
                      verdicts.category(p)(text))
  {
    GovernedSchemaFits();
    SelectionFields();
    FieldRead(values, body, "Canonical");
    FieldRead(values, body, "Status");
    FieldRead(values, body, "Lifecycle-Stage");
    FieldRead(values, body, "Doc-ID");
    ValueRead(GOVERNED, "Canonical", Strip(ValueFor(values, "Canonical")));
  }

  /** A document without a readable header is no valid record and never a source. */
  lemma HeaderlessIsNoSource(verdicts: Verdicts, roots: seq<StageRoot>, sel: Selection, p: Path, text: string)
    requires ParseRecord(GOVERNED, text) == None
    ensures !IndexRecord(verdicts, p, text).valid && !Selected(roots, sel, IndexRecord(verdicts, p, text))
  {
  }

  lemma SelectedIff(roots: seq<StageRoot>, sel: Selection, r: DocRecord)
    ensures Selected(roots, sel, r) <==>
      && r.valid && r.canonical && r.status == "active"
      && sel.stage in {None, Some(""), Some(r.stage)} && sel.docId in {None, Some(""), Some(r.docId)}
      && "current" !in r.path && (exists i :: 0 <= i < |roots| && roots[i].dir <= r.path)
  {
    UnderSomeRoot(roots, r.path);
  }

  /** A rendered document is a sync source exactly when it validates, its Canonical value reads
      "true" in any case, its Status is active, its stage and id are the ones asked for, and it lies
      under a stage root outside the current trees. */
  lemma RenderedIsSelectedIff(verdicts: Verdicts, roots: seq<StageRoot>, sel: Selection, p: Path, values: map<string, string>, body: string)
    requires OneLineValues(GOVERNED, values)
    ensures var text := RenderHeader(GOVERNED, values) + body;
            Selected(roots, sel, IndexRecord(verdicts, p, text)) <==>
              && verdicts.validates(p)(text)
              && SpellsTrue(Strip(ValueFor(values, "Canonical")))
              && Strip(ValueFor(values, "Status")) == "active"
              && sel.stage in {None, Some(""), Some(Strip(ValueFor(values, "Lifecycle-Stage")))}
              && sel.docId in {None, Some(""), Some(Strip(ValueFor(values, "Doc-ID")))}
              && "current" !in p && (exists i :: 0 <= i < |roots| && roots[i].dir <= p)
  {
    IndexedRecord(verdicts, p, values, body);
    SelectedIff(roots, sel, IndexRecord(verdicts, p, RenderHeader(GOVERNED, values) + body));
  }

  /** Convergence over the header reader: only the validation verdict and the category are given. */
  lemma ConvergesOverHeaders(verdicts: Verdicts, files: Files, sel: Selection, prune: bool)
    ensures var read, roots := Reader(verdicts), STAGE_ROOTS;
            var sources := SourcesOf(read, roots, files, sel);
            && Sources(roots, files, sources)
            && (CollisionFree(roots, files, sources) ==>
                  var after := FilesAfter(CURRENT_BANNER, roots, files, sel, prune, sources);
                  && SourcesOf(read, roots, after, sel) == sources
                  && Sources(roots, after, sources)
                  && forall i :: 0 <= i < |sources| ==>
                       Entries(CURRENT_BANNER, roots, after, sources)[i].status ==
                       if BannerSafe(CURRENT_BANNER, PathText(sources[i].path)) then InSync else Stale)
  {
    var read, roots := Reader(verdicts), STAGE_ROOTS;
    ReaderIsHonest(verdicts);
    CurrentBannerFits();
    SourcesAreSources(read, roots, files, sel);
    if CollisionFree(roots, files, SourcesOf(read, roots, files, sel)) {
      Converges(read, CURRENT_BANNER, roots, files, sel, prune);
    }
  }
}
