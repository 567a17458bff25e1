/** From section tables to a seed: required sections and columns, single-row tables, vocabulary,
    and the cross references between tables. */
module SpecSeed {
  import opened Wrappers
  import opened Ordering
  import opened Text
  import opened SpecModel
  import SpecTables

  type Row = map<string, string>
  type Tables = map<string, SpecTables.Table>

  datatype SeedError =
    | MissingSection | MissingColumn | NotSingleRow | NotCanonicalVocabulary
    | UnknownElement | UnknownActivity | BadSequence | BadAcceptanceFlag
    | Malformed(table: SpecTables.TableError)

  /** Outside text handling: the component's slug, and int() of a sequence cell. */
  datatype Reading = Reading(slug: string -> string, number: string -> Option<int>)

  const IDENTITY := "Component Identity Table"
  const ELEMENTS := "Component Elements Table"
  const REALIZATIONS := "Realizations Table"
  const PLAN := "Plan Seed Table"
  const ACTIVITIES := "Activity Seed Table"
  const DEPENDENCIES := "Activity Dependency Table"
  const SURFACES := "Verification Surface Table"

  const REQUIRED_SECTIONS: seq<string> := [IDENTITY, ELEMENTS, REALIZATIONS, PLAN, ACTIVITIES, DEPENDENCIES, SURFACES]

  const IDENTITY_COLUMNS := ["component_name", "component_kind", "alignment_state", "system_layer", "tier", "status"]
  const ELEMENT_COLUMNS := ["element_name", "element_kind", "description", "owned_by_component"]
  const REALIZATION_COLUMNS := ["element_name", "realization_kind", "artifact_kind", "artifact_target", "verification_role"]
  const PLAN_COLUMNS := ["plan_name", "consumer_context_key", "primary_component_name", "implementation_target_kind", "plan_status"]
  const ACTIVITY_COLUMNS := ["activity_key", "activity_name", "sequence", "activity_kind", "element_name", "realization_kind", "done_definition"]
  const DEPENDENCY_COLUMNS := ["activity_key", "depends_on_activity_key", "dependency_kind"]
  const SURFACE_COLUMNS := ["verification_surface", "verification_kind", "artifact_target", "required_for_acceptance"]

  const SYSTEM_LAYERS: set<string> := {
    "domain-core", "domain-services", "application-services", "infrastructure-ports", "infrastructure-adapters", "host-surfaces"}
  const TIERS: set<string> := {"runtime", "integration", "test", "docs"}
  const STATUSES: set<string> := {"draft", "active", "superseded", "retired"}

  // ---------------------------------------------------------------- tables the scanner yields

  /** Every row of a scanned table has a cell under every header. */
  predicate Filled(t: SpecTables.Table) {
    forall r, h :: r in t.rows && h in t.headers ==> h in r
  }

  predicate AllFilled(tables: Tables) {
    forall s :: s in tables ==> Filled(tables[s])
  }

  lemma {:induction false} RowFilled(headers: seq<string>, cells: seq<string>)
    requires |headers| == |cells|
    ensures forall h :: h in headers ==> h in SpecTables.RowMap(headers, cells)
  {
    if headers != [] {
      RowFilled(headers[..|headers| - 1], cells[..|headers| - 1]);
    }
  }

  lemma {:induction false} RowsFilled(headers: seq<string>, lines: seq<string>)
    requires SpecTables.ParseRows(headers, lines).Ok?
    ensures forall r, h :: r in SpecTables.ParseRows(headers, lines).value && h in headers ==> h in r
  {
    if lines != [] {
      RowsFilled(headers, lines[..|lines| - 1]);
      RowFilled(headers, SpecTables.SplitTableRow(lines[|lines| - 1]).value);
    }
  }

  lemma {:induction false} ScanFills(lines: seq<string>, tables: Tables)
    requires AllFilled(tables) && SpecTables.Scan(SpecTables.ParseTable, lines, tables).Ok?
    ensures AllFilled(SpecTables.Scan(SpecTables.ParseTable, lines, tables).value)
    decreases |lines|
  {
    if lines != [] {
      var title := SpecTables.SectionTitle(lines[0]);
      if title.None? {
        ScanFills(lines[1..], tables);
      } else {
        var rest := lines[1 + SpecTables.LeadingBlank(lines[1..])..];
        var n := SpecTables.LeadingTable(rest);
        if n == 0 {
          ScanFills(rest, tables);
        } else {
          var table := SpecTables.ParseTable(rest[..n]).value;
          RowsFilled(table.headers, rest[..n][2..]);
          ScanFills(rest[n..], tables[title.value := table]);
        }
      }
    }
  }

  // ---------------------------------------------------------------- the seed the tables stand for

  predicate HasColumns(t: SpecTables.Table, columns: seq<string>) {
    forall i :: 0 <= i < |columns| ==> columns[i] in t.headers
  }

  function Cell(r: Row, column: string): string {
    if column in r then r[column] else ""
  }

  function ElementSeeds(rows: seq<Row>): seq<ElementSeed> {
    seq(|rows|, i requires 0 <= i < |rows| => ElementSeed(Cell(rows[i], "element_name"), Cell(rows[i], "element_kind")))
  }

  function RealizationSeedOf(slug: string, r: Row): RealizationSeed {
    RealizationSeed(Cell(r, "element_name"), Cell(r, "realization_kind"),
      slug + "__" + Cell(r, "element_name") + "__" + Cell(r, "realization_kind"))
  }

  function RealizationSeeds(slug: string, rows: seq<Row>): seq<RealizationSeed> {
    seq(|rows|, i requires 0 <= i < |rows| => RealizationSeedOf(slug, rows[i]))
  }

  function ActivitySeedOf(reading: Reading, r: Row): ActivitySeed {
    var n := reading.number(Cell(r, "sequence"));
    ActivitySeed(Cell(r, "activity_key"), if n.Some? then n.value else 0, Cell(r, "activity_kind"),
      Cell(r, "element_name"), Cell(r, "realization_kind"))
  }

  function ActivitySeeds(reading: Reading, rows: seq<Row>): seq<ActivitySeed> {
    seq(|rows|, i requires 0 <= i < |rows| => ActivitySeedOf(reading, rows[i]))
  }

  function DependencySeedOf(r: Row): DependencySeed {
    DependencySeed(Cell(r, "activity_key"), Cell(r, "depends_on_activity_key"), Cell(r, "dependency_kind"))
  }

  function DependencySeeds(rows: seq<Row>): seq<DependencySeed> {
    seq(|rows|, i requires 0 <= i < |rows| => DependencySeedOf(rows[i]))
  }

  predicate SectionsPresent(tables: Tables) {
    forall s :: s in REQUIRED_SECTIONS ==> s in tables
  }

  predicate ColumnsPresent(tables: Tables)
    requires SectionsPresent(tables)
  {
    && HasColumns(tables[IDENTITY], IDENTITY_COLUMNS) && HasColumns(tables[ELEMENTS], ELEMENT_COLUMNS)
    && HasColumns(tables[REALIZATIONS], REALIZATION_COLUMNS) && HasColumns(tables[PLAN], PLAN_COLUMNS)
    && HasColumns(tables[ACTIVITIES], ACTIVITY_COLUMNS) && HasColumns(tables[DEPENDENCIES], DEPENDENCY_COLUMNS)
    && HasColumns(tables[SURFACES], SURFACE_COLUMNS)
  }

  predicate CanonicalIdentity(r: Row) {
    Cell(r, "system_layer") in SYSTEM_LAYERS && Cell(r, "tier") in TIERS && Cell(r, "status") in STATUSES
  }

  function SeedOf(tables: Tables, reading: Reading): Seed
    requires SectionsPresent(tables) && |tables[IDENTITY].rows| == 1 && |tables[PLAN].rows| == 1
  {
    var identity, plan := tables[IDENTITY].rows[0], tables[PLAN].rows[0];
    var name := Cell(identity, "component_name");
    Seed(name, ElementSeeds(tables[ELEMENTS].rows), RealizationSeeds(reading.slug(name), tables[REALIZATIONS].rows),
      Cell(plan, "plan_name"), Cell(plan, "consumer_context_key"), Cell(plan, "plan_status"),
      ActivitySeeds(reading, tables[ACTIVITIES].rows), DependencySeeds(tables[DEPENDENCIES].rows))
  }

  predicate NumbersRead(reading: Reading, rows: seq<Row>) {
    forall r :: r in rows ==> reading.number(Cell(r, "sequence")).Some?
  }

  predicate FlagsRead(rows: seq<Row>) {
    forall r :: r in rows ==> Cell(r, "required_for_acceptance") in {"true", "false"}
  }

  /** When extraction succeeds. */
  predicate Extractable(tables: Tables, reading: Reading) {
    && SectionsPresent(tables) && ColumnsPresent(tables)
    && |tables[IDENTITY].rows| == 1 && |tables[PLAN].rows| == 1
    && CanonicalIdentity(tables[IDENTITY].rows[0])
    && RefsResolve(SeedOf(tables, reading))
    && NumbersRead(reading, tables[ACTIVITIES].rows)
    && FlagsRead(tables[SURFACES].rows)
  }

  // ---------------------------------------------------------------- the extractor as it runs

  method CheckSections(tables: Tables) returns (ok: bool)
    ensures ok <==> SectionsPresent(tables)
  {
    for i := 0 to |REQUIRED_SECTIONS|
      invariant forall j :: 0 <= j < i ==> REQUIRED_SECTIONS[j] in tables
    {
      if REQUIRED_SECTIONS[i] !in tables { return false; }
    }
    return true;
  }

  method ReadRealizations(slug: string, names: set<string>, rows: seq<Row>) returns (r: Result<seq<RealizationSeed>, SeedError>)
    ensures r.Ok? <==> forall s :: s in RealizationSeeds(slug, rows) ==> s.element in names
    ensures r.Ok? ==> r.value == RealizationSeeds(slug, rows)
  {
    var seeds: seq<RealizationSeed> := [];
    for i := 0 to |rows|
      invariant seeds == RealizationSeeds(slug, rows[..i])
      invariant forall j :: 0 <= j < i ==> Cell(rows[j], "element_name") in names
    {
      var name, kind := Cell(rows[i], "element_name"), Cell(rows[i], "realization_kind");
      if name !in names {
        assert RealizationSeeds(slug, rows)[i] in RealizationSeeds(slug, rows);
        return Err(UnknownElement);
      }
      seeds := seeds + [RealizationSeed(name, kind, slug + "__" + name + "__" + kind)];
    }
    assert rows[..|rows|] == rows;
    return Ok(seeds);
  }

  method ReadActivities(reading: Reading, names: set<string>, rows: seq<Row>) returns (r: Result<seq<ActivitySeed>, SeedError>, known: set<string>)
    ensures r.Ok? <==> NumbersRead(reading, rows) && forall s :: s in ActivitySeeds(reading, rows) ==> s.element in names
    ensures r.Ok? ==> r.value == ActivitySeeds(reading, rows) && known == Elements(ActivityKeys(r.value))
  {
    var seeds: seq<ActivitySeed> := [];
    known := {};
    for i := 0 to |rows|
      invariant seeds == ActivitySeeds(reading, rows[..i])
      invariant known == Elements(ActivityKeys(seeds))
      invariant forall j :: 0 <= j < i ==> Cell(rows[j], "element_name") in names && reading.number(Cell(rows[j], "sequence")).Some?
    {
      var name := Cell(rows[i], "element_name");
      if name !in names {
        assert ActivitySeeds(reading, rows)[i] in ActivitySeeds(reading, rows);
        return Err(UnknownElement), known;
      }
      known := known + {Cell(rows[i], "activity_key")};
      var sequence := reading.number(Cell(rows[i], "sequence"));
      if sequence.None? {
        assert rows[i] in rows;
        return Err(BadSequence), known;
      }
      var seed := ActivitySeedOf(reading, rows[i]);
      assert ActivityKeys(seeds + [seed]) == ActivityKeys(seeds) + [seed.key];
      seeds := seeds + [seed];
    }
    assert rows[..|rows|] == rows;
    return Ok(seeds), known;
  }

  method ReadDependencies(known: set<string>, rows: seq<Row>) returns (r: Result<seq<DependencySeed>, SeedError>)
    ensures r.Ok? <==> forall s :: s in DependencySeeds(rows) ==> s.activity in known && s.dependsOn in known
    ensures r.Ok? ==> r.value == DependencySeeds(rows)
  {
    var seeds: seq<DependencySeed> := [];
    for i := 0 to |rows|
      invariant seeds == DependencySeeds(rows[..i])
      invariant forall j :: 0 <= j < i ==> DependencySeedOf(rows[j]).activity in known && DependencySeedOf(rows[j]).dependsOn in known
    {
      var seed := DependencySeedOf(rows[i]);
      if seed.activity !in known || seed.dependsOn !in known {
        assert DependencySeeds(rows)[i] in DependencySeeds(rows);
        return Err(UnknownActivity);
      }
      seeds := seeds + [seed];
    }
    assert rows[..|rows|] == rows;
    return Ok(seeds);
  }

  method ReadFlags(rows: seq<Row>) returns (ok: bool)
    ensures ok <==> FlagsRead(rows)
  {
    for i := 0 to |rows|
      invariant forall j :: 0 <= j < i ==> Cell(rows[j], "required_for_acceptance") in {"true", "false"}
    {
      if Cell(rows[i], "required_for_acceptance") !in {"true", "false"} {
        assert rows[i] in rows;
        return false;
      }
    }
    return true;
  }

  /** The tables that refer to one another, once every section and column is there. */
  method ReadReferences(tables: Tables, reading: Reading) returns (r: Result<Seed, SeedError>)
    requires SectionsPresent(tables) && |tables[IDENTITY].rows| == 1 && |tables[PLAN].rows| == 1
    ensures r.Ok? <==> RefsResolve(SeedOf(tables, reading)) && NumbersRead(reading, tables[ACTIVITIES].rows)
    ensures r.Ok? ==> r.value == SeedOf(tables, reading)
  {
    var identity, plan := tables[IDENTITY].rows[0], tables[PLAN].rows[0];
    var name := Cell(identity, "component_name");
    var elements := ElementSeeds(tables[ELEMENTS].rows);
    var names := Elements(Names(elements));
    var realizations := ReadRealizations(reading.slug(name), names, tables[REALIZATIONS].rows);
    if realizations.Err? { return Err(realizations.error); }
    var activities, known := ReadActivities(reading, names, tables[ACTIVITIES].rows);
    if activities.Err? { return Err(activities.error); }
    var dependencies := ReadDependencies(known, tables[DEPENDENCIES].rows);
    if dependencies.Err? { return Err(dependencies.error); }
    return Ok(Seed(name, elements, realizations.value,
      Cell(plan, "plan_name"), Cell(plan, "consumer_context_key"), Cell(plan, "plan_status"),
      activities.value, dependencies.value));
  }

  /** The part of extract_component_spec_materialization_seed that follows the section scan. */
  method ExtractSeed(tables: Tables, reading: Reading) returns (r: Result<Seed, SeedError>)
    requires AllFilled(tables)
    ensures r.Ok? <==> Extractable(tables, reading)
    ensures r.Ok? ==> r.value == SeedOf(tables, reading)
  {
    var present := CheckSections(tables);
    if !present { return Err(MissingSection); }
    if !ColumnsPresent(tables) { return Err(MissingColumn); }
    if |tables[IDENTITY].rows| != 1 || |tables[PLAN].rows| != 1 { return Err(NotSingleRow); }
    if !CanonicalIdentity(tables[IDENTITY].rows[0]) { return Err(NotCanonicalVocabulary); }
    r := ReadReferences(tables, reading);
    if r.Err? { return; }
    var flags := ReadFlags(tables[SURFACES].rows);
    if !flags { return Err(BadAcceptanceFlag); }
  }

  /** extract_component_spec_materialization_seed on the text of a spec. */
  method ExtractComponentSpec(text: string, reading: Reading) returns (r: Result<Seed, SeedError>)
    ensures var scanned := SpecTables.Scan(SpecTables.ParseTable, SplitLines(text), map[]);
            && (r.Ok? <==> scanned.Ok? && Extractable(scanned.value, reading))
            && (r.Ok? ==> r.value == SeedOf(scanned.value, reading))
            && (scanned.Err? ==> r == Err(Malformed(scanned.error)))
    ensures r.Ok? ==> RefsResolve(r.value)
  {
    var scanned := SpecTables.ScanSections(SplitLines(text));
    if scanned.Err? { return Err(Malformed(scanned.error)); }
    ScanFills(SplitLines(text), map[]);
    r := ExtractSeed(scanned.value, reading);
  }
}
