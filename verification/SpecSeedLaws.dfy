/** Writing a seed as a spec document and extracting it again. */
module SpecSeedLaws {
  import opened Wrappers
  import opened Ordering
  import opened Text
  import opened SpecModel
  import opened SpecSeed
  import SpecTables
  import SpecTableLaws

  predicate DistinctColumns(columns: seq<string>) {
    forall i, j :: 0 <= i < j < |columns| ==> columns[i] != columns[j]
  }

  lemma ColumnsAreDistinct()
    ensures DistinctColumns(IDENTITY_COLUMNS) && DistinctColumns(ELEMENT_COLUMNS) && DistinctColumns(REALIZATION_COLUMNS)
    ensures DistinctColumns(PLAN_COLUMNS) && DistinctColumns(ACTIVITY_COLUMNS) && DistinctColumns(DEPENDENCY_COLUMNS)
    ensures DistinctColumns(SURFACE_COLUMNS)
  {
  }

  lemma TitlesAreDistinct()
    ensures DistinctColumns(REQUIRED_SECTIONS)
  {
  }

  lemma {:induction false} RowMapsAt(headers: seq<string>, rows: seq<seq<string>>, i: nat)
    requires forall j :: 0 <= j < |rows| ==> |rows[j]| == |headers|
    requires i < |rows|
    ensures |SpecTables.RowMaps(headers, rows)| == |rows|
    ensures SpecTables.RowMaps(headers, rows)[i] == SpecTables.RowMap(headers, rows[i])
  {
    var n := |rows| - 1;
    if i < n {
      RowMapsAt(headers, rows[..n], i);
    } else if n > 0 {
      RowMapsAt(headers, rows[..n], 0);
    }
  }

  /** Scanned cells are the written ones. */
  lemma CellsRead(s: SpecTables.Section)
    requires SpecTables.Canonical(s) && DistinctColumns(s.headers)
    ensures |SpecTables.TableOf(s).rows| == |s.rows|
    ensures forall i, j :: 0 <= i < |s.rows| && 0 <= j < |s.headers| ==>
      Cell(SpecTables.TableOf(s).rows[i], s.headers[j]) == s.rows[i][j]
  {
    if s.rows != [] { RowMapsAt(s.headers, s.rows, 0); }
    forall i, j | 0 <= i < |s.rows| && 0 <= j < |s.headers|
      ensures Cell(SpecTables.TableOf(s).rows[i], s.headers[j]) == s.rows[i][j]
    {
      RowMapsAt(s.headers, s.rows, i);
      SpecTableLaws.RowMapAt(s.headers, s.rows[i], j);
    }
  }

  // Sections that write out one part of a seed each; cells the seed does not keep are free.

  predicate Writes(s: SpecTables.Section, title: string, columns: seq<string>, rows: nat) {
    SpecTables.Canonical(s) && s.title == title && s.headers == columns && |s.rows| == rows
  }

  predicate WritesIdentity(s: SpecTables.Section, seed: Seed) {
    Writes(s, IDENTITY, IDENTITY_COLUMNS, 1) && s.rows[0][0] == seed.component
  }

  /** The layer, tier and status written are words of the vocabulary. */
  predicate WordsKnown(s: SpecTables.Section, seed: Seed)
    requires WritesIdentity(s, seed)
  {
    s.rows[0][3] in SYSTEM_LAYERS && s.rows[0][4] in TIERS && s.rows[0][5] in STATUSES
  }

  predicate WritesElements(s: SpecTables.Section, seeds: seq<ElementSeed>) {
    && Writes(s, ELEMENTS, ELEMENT_COLUMNS, |seeds|)
    && forall i :: 0 <= i < |seeds| ==> ElementSeed(s.rows[i][0], s.rows[i][1]) == seeds[i]
  }

  predicate WritesRealizations(s: SpecTables.Section, slug: string, seeds: seq<RealizationSeed>) {
    && Writes(s, REALIZATIONS, REALIZATION_COLUMNS, |seeds|)
    && forall i :: 0 <= i < |seeds| ==>
         RealizationSeed(s.rows[i][0], s.rows[i][1], slug + "__" + s.rows[i][0] + "__" + s.rows[i][1]) == seeds[i]
  }

  predicate WritesPlan(s: SpecTables.Section, seed: Seed) {
    && Writes(s, PLAN, PLAN_COLUMNS, 1)
    && s.rows[0][0] == seed.plan && s.rows[0][1] == seed.context && s.rows[0][4] == seed.planStatus
  }

  /** The sequence cells read as the seed's numbers, if they read as numbers at all. */
  predicate WritesActivities(s: SpecTables.Section, reading: Reading, seeds: seq<ActivitySeed>) {
    && Writes(s, ACTIVITIES, ACTIVITY_COLUMNS, |seeds|)
    && forall i :: 0 <= i < |seeds| ==>
         && s.rows[i][0] == seeds[i].key && reading.number(s.rows[i][2]) in {None, Some(seeds[i].sequence)}
         && s.rows[i][3] == seeds[i].kind && s.rows[i][4] == seeds[i].element && s.rows[i][5] == seeds[i].realizationKind
  }

  predicate NumbersWritten(s: SpecTables.Section, reading: Reading, seeds: seq<ActivitySeed>)
    requires WritesActivities(s, reading, seeds)
  {
    forall i :: 0 <= i < |seeds| ==> reading.number(s.rows[i][2]).Some?
  }

  predicate WritesDependencies(s: SpecTables.Section, seeds: seq<DependencySeed>) {
    && Writes(s, DEPENDENCIES, DEPENDENCY_COLUMNS, |seeds|)
    && forall i :: 0 <= i < |seeds| ==> DependencySeed(s.rows[i][0], s.rows[i][1], s.rows[i][2]) == seeds[i]
  }

  predicate WritesSurfaces(s: SpecTables.Section) {
    Writes(s, SURFACES, SURFACE_COLUMNS, |s.rows|)
  }

  predicate FlagsWritten(s: SpecTables.Section)
    requires WritesSurfaces(s)
  {
    forall i :: 0 <= i < |s.rows| ==> s.rows[i][3] == "true" || s.rows[i][3] == "false"
  }

  predicate WritesSeed(sections: seq<SpecTables.Section>, reading: Reading, seed: Seed) {
    && |sections| == 7
    && WritesIdentity(sections[0], seed) && WritesElements(sections[1], seed.elements)
    && WritesRealizations(sections[2], reading.slug(seed.component), seed.realizations)
    && WritesPlan(sections[3], seed) && WritesActivities(sections[4], reading, seed.activities)
    && WritesDependencies(sections[5], seed.dependencies) && WritesSurfaces(sections[6])
  }

  /** What a written seed needs to be extracted. */
  predicate Acceptable(sections: seq<SpecTables.Section>, reading: Reading, seed: Seed)
    requires WritesSeed(sections, reading, seed)
  {
    && RefsResolve(seed) && WordsKnown(sections[0], seed)
    && NumbersWritten(sections[4], reading, seed.activities) && FlagsWritten(sections[6])
  }

  lemma ElementsRead(s: SpecTables.Section, seeds: seq<ElementSeed>)
    requires WritesElements(s, seeds)
    ensures ElementSeeds(SpecTables.TableOf(s).rows) == seeds
  {
    ColumnsAreDistinct();
    CellsRead(s);
    assert s.headers[0] == "element_name" && s.headers[1] == "element_kind";
  }

  lemma RealizationsRead(s: SpecTables.Section, slug: string, seeds: seq<RealizationSeed>)
    requires WritesRealizations(s, slug, seeds)
    ensures RealizationSeeds(slug, SpecTables.TableOf(s).rows) == seeds
  {
    ColumnsAreDistinct();
    CellsRead(s);
    assert s.headers[0] == "element_name" && s.headers[1] == "realization_kind";
    forall i | 0 <= i < |seeds| ensures RealizationSeedOf(slug, SpecTables.TableOf(s).rows[i]) == seeds[i] {
      assert RealizationSeed(s.rows[i][0], s.rows[i][1], slug + "__" + s.rows[i][0] + "__" + s.rows[i][1]) == seeds[i];
    }
  }

  lemma ActivityRowsRead(s: SpecTables.Section, reading: Reading, seeds: seq<ActivitySeed>)
    requires WritesActivities(s, reading, seeds)
    ensures var rows := SpecTables.TableOf(s).rows;
            |rows| == |seeds| && forall i :: 0 <= i < |seeds| ==>
              && Cell(rows[i], "sequence") == s.rows[i][2]
              && ActivitySeedOf(reading, rows[i]) == seeds[i].(sequence := ActivitySeedOf(reading, rows[i]).sequence)
  {
    var rows := SpecTables.TableOf(s).rows;
    ColumnsAreDistinct();
    CellsRead(s);
    forall i | 0 <= i < |seeds|
      ensures Cell(rows[i], "sequence") == s.rows[i][2]
      ensures ActivitySeedOf(reading, rows[i]) == seeds[i].(sequence := ActivitySeedOf(reading, rows[i]).sequence)
    {
      ActivityCells(s, rows[i], s.rows[i]);
    }
  }

  lemma NumbersByIndex(reading: Reading, rows: seq<Row>)
    ensures NumbersRead(reading, rows) <==> forall i :: 0 <= i < |rows| ==> reading.number(Cell(rows[i], "sequence")).Some?
  {
  }

  lemma ActivitiesRead(s: SpecTables.Section, reading: Reading, seeds: seq<ActivitySeed>)
    requires WritesActivities(s, reading, seeds)
    ensures NumbersRead(reading, SpecTables.TableOf(s).rows) <==> NumbersWritten(s, reading, seeds)
    ensures NumbersWritten(s, reading, seeds) ==> ActivitySeeds(reading, SpecTables.TableOf(s).rows) == seeds
    ensures SameButSequence(ActivitySeeds(reading, SpecTables.TableOf(s).rows), seeds)
  {
    ActivityRowsRead(s, reading, seeds);
    NumbersByIndex(reading, SpecTables.TableOf(s).rows);
  }

  lemma ActivityCells(s: SpecTables.Section, row: Row, cells: seq<string>)
    requires s.headers == ACTIVITY_COLUMNS && |cells| == |s.headers|
    requires forall j :: 0 <= j < |s.headers| ==> Cell(row, s.headers[j]) == cells[j]
    ensures Cell(row, "activity_key") == cells[0] && Cell(row, "sequence") == cells[2] && Cell(row, "activity_kind") == cells[3]
    ensures Cell(row, "element_name") == cells[4] && Cell(row, "realization_kind") == cells[5]
  {
    assert s.headers[0] == "activity_key" && s.headers[2] == "sequence" && s.headers[3] == "activity_kind";
    assert s.headers[4] == "element_name" && s.headers[5] == "realization_kind";
  }

  predicate SameButSequence(read: seq<ActivitySeed>, seeds: seq<ActivitySeed>) {
    |read| == |seeds| && forall i :: 0 <= i < |seeds| ==> read[i].(sequence := seeds[i].sequence) == seeds[i]
  }

  lemma ByIndex(seeds: seq<ActivitySeed>, names: seq<string>)
    ensures (forall a :: a in seeds ==> a.element in names) <==> forall i :: 0 <= i < |seeds| ==> seeds[i].element in names
  {
  }

  lemma RefsIgnoreSequence(seed: Seed, read: seq<ActivitySeed>)
    requires SameButSequence(read, seed.activities)
    ensures RefsResolve(seed.(activities := read)) <==> RefsResolve(seed)
  {
    forall i | 0 <= i < |read| ensures read[i].element == seed.activities[i].element && read[i].key == seed.activities[i].key {
      assert read[i].(sequence := seed.activities[i].sequence) == seed.activities[i];
    }
    assert ActivityKeys(read) == ActivityKeys(seed.activities);
    ByIndex(read, Names(seed.elements));
    ByIndex(seed.activities, Names(seed.elements));
  }

  lemma DependenciesRead(s: SpecTables.Section, seeds: seq<DependencySeed>)
    requires WritesDependencies(s, seeds)
    ensures DependencySeeds(SpecTables.TableOf(s).rows) == seeds
  {
    ColumnsAreDistinct();
    CellsRead(s);
    assert s.headers[0] == "activity_key" && s.headers[1] == "depends_on_activity_key" && s.headers[2] == "dependency_kind";
  }

  lemma SingleRowsRead(identity: SpecTables.Section, plan: SpecTables.Section, seed: Seed)
    requires WritesIdentity(identity, seed) && WritesPlan(plan, seed)
    ensures |SpecTables.TableOf(identity).rows| == 1 && |SpecTables.TableOf(plan).rows| == 1
    ensures CanonicalIdentity(SpecTables.TableOf(identity).rows[0]) <==> WordsKnown(identity, seed)
    ensures Cell(SpecTables.TableOf(identity).rows[0], "component_name") == seed.component
    ensures var r := SpecTables.TableOf(plan).rows[0];
      Cell(r, "plan_name") == seed.plan && Cell(r, "consumer_context_key") == seed.context && Cell(r, "plan_status") == seed.planStatus
  {
    ColumnsAreDistinct();
    CellsRead(identity);
    CellsRead(plan);
    assert identity.headers[0] == "component_name" && identity.headers[3] == "system_layer";
    assert identity.headers[4] == "tier" && identity.headers[5] == "status";
    assert plan.headers[0] == "plan_name" && plan.headers[1] == "consumer_context_key" && plan.headers[4] == "plan_status";
  }

  lemma SurfacesRead(s: SpecTables.Section)
    requires WritesSurfaces(s)
    ensures FlagsRead(SpecTables.TableOf(s).rows) <==> FlagsWritten(s)
  {
    var rows := SpecTables.TableOf(s).rows;
    ColumnsAreDistinct();
    CellsRead(s);
    assert s.headers[3] == "required_for_acceptance";
    forall i | 0 <= i < |rows| ensures rows[i] in rows && Cell(rows[i], "required_for_acceptance") == s.rows[i][3] {}
  }

  ghost predicate TablesOfSections(tables: Tables, sections: seq<SpecTables.Section>, reading: Reading, seed: Seed)
    requires WritesSeed(sections, reading, seed)
  {
    && SectionsPresent(tables)
    && tables[IDENTITY] == SpecTables.TableOf(sections[0]) && tables[ELEMENTS] == SpecTables.TableOf(sections[1])
    && tables[REALIZATIONS] == SpecTables.TableOf(sections[2]) && tables[PLAN] == SpecTables.TableOf(sections[3])
    && tables[ACTIVITIES] == SpecTables.TableOf(sections[4]) && tables[DEPENDENCIES] == SpecTables.TableOf(sections[5])
    && tables[SURFACES] == SpecTables.TableOf(sections[6])
  }

  lemma TablesInPlace(tables: Tables, sections: seq<SpecTables.Section>, reading: Reading, seed: Seed)
    requires WritesSeed(sections, reading, seed)
    requires forall i :: 0 <= i < 7 ==> sections[i].title in tables && tables[sections[i].title] == SpecTables.TableOf(sections[i])
    ensures TablesOfSections(tables, sections, reading, seed)
  {
    assert sections[0].title == IDENTITY && sections[1].title == ELEMENTS && sections[2].title == REALIZATIONS;
    assert sections[3].title == PLAN && sections[4].title == ACTIVITIES && sections[5].title == DEPENDENCIES;
    assert sections[6].title == SURFACES;
  }

  lemma PartsRead(tables: Tables, sections: seq<SpecTables.Section>, reading: Reading, seed: Seed)
    requires WritesSeed(sections, reading, seed) && TablesOfSections(tables, sections, reading, seed)
    ensures |tables[IDENTITY].rows| == 1 && |tables[PLAN].rows| == 1
    ensures SeedOf(tables, reading) == seed.(activities := ActivitySeeds(reading, tables[ACTIVITIES].rows))
    ensures SameButSequence(ActivitySeeds(reading, tables[ACTIVITIES].rows), seed.activities)
    ensures NumbersWritten(sections[4], reading, seed.activities) ==> ActivitySeeds(reading, tables[ACTIVITIES].rows) == seed.activities
  {
    SingleRowsRead(sections[0], sections[3], seed);
    ElementsRead(sections[1], seed.elements);
    RealizationsRead(sections[2], reading.slug(seed.component), seed.realizations);
    ActivitiesRead(sections[4], reading, seed.activities);
    DependenciesRead(sections[5], seed.dependencies);
  }

  lemma ColumnsInPlace(tables: Tables, sections: seq<SpecTables.Section>, reading: Reading, seed: Seed)
    requires WritesSeed(sections, reading, seed) && TablesOfSections(tables, sections, reading, seed)
    ensures ColumnsPresent(tables)
  {
  }

  lemma ExtractableParts(tables: Tables, reading: Reading)
    requires SectionsPresent(tables) && ColumnsPresent(tables) && |tables[IDENTITY].rows| == 1 && |tables[PLAN].rows| == 1
    ensures Extractable(tables, reading) <==>
      && CanonicalIdentity(tables[IDENTITY].rows[0]) && RefsResolve(SeedOf(tables, reading))
      && NumbersRead(reading, tables[ACTIVITIES].rows) && FlagsRead(tables[SURFACES].rows)
  {
  }

  /** Extraction accepts the tables of a written seed exactly when the seed is acceptable, and they
      then stand for it. */
  lemma TablesReadBack(tables: Tables, sections: seq<SpecTables.Section>, reading: Reading, seed: Seed)
    requires WritesSeed(sections, reading, seed) && TablesOfSections(tables, sections, reading, seed)
    ensures |tables[IDENTITY].rows| == 1 && |tables[PLAN].rows| == 1
    ensures Extractable(tables, reading) <==> Acceptable(sections, reading, seed)
    ensures Extractable(tables, reading) ==> SeedOf(tables, reading) == seed
  {
    ColumnsInPlace(tables, sections, reading, seed);
    PartsRead(tables, sections, reading, seed);
    ExtractableParts(tables, reading);
    RefsIgnoreSequence(seed, ActivitySeeds(reading, tables[ACTIVITIES].rows));
    SingleRowsRead(sections[0], sections[3], seed);
    ActivitiesRead(sections[4], reading, seed.activities);
    SurfacesRead(sections[6]);
  }

  /** Round trip of a whole spec document: scanning and extracting the text that writes a seed gives
      the seed back, and is refused exactly when a reference inside the seed dangles, a word is
      outside the vocabulary, a sequence is no number or a flag is neither true nor false. */
  lemma SpecRoundTrip(preamble: seq<string>, sections: seq<SpecTables.Section>, reading: Reading, seed: Seed)
    requires SpecTables.Prose(preamble) && WritesSeed(sections, reading, seed)
    requires var lines := SpecTables.DocumentLines(preamble, sections);
             forall i :: 0 <= i < |lines| ==> Lacks(lines[i], IsLineBreak)
    ensures var scanned := SpecTables.Scan(SpecTables.ParseTable, SplitLines(SpecTableLaws.FileText(SpecTables.DocumentLines(preamble, sections))), map[]);
            && scanned.Ok?
            && (Extractable(scanned.value, reading) <==> Acceptable(sections, reading, seed))
            && (Extractable(scanned.value, reading) ==> SeedOf(scanned.value, reading) == seed)
  {
    AllCanonical(sections, reading, seed);
    SpecTableLaws.ScanRoundTrip(preamble, sections);
    var scanned := SpecTables.Scan(SpecTables.ParseTable, SplitLines(SpecTableLaws.FileText(SpecTables.DocumentLines(preamble, sections))), map[]);
    TablesInPlace(scanned.value, sections, reading, seed);
    TablesReadBack(scanned.value, sections, reading, seed);
  }

  lemma AllCanonical(sections: seq<SpecTables.Section>, reading: Reading, seed: Seed)
    requires WritesSeed(sections, reading, seed)
    ensures forall i :: 0 <= i < |sections| ==> SpecTables.Canonical(sections[i])
    ensures forall i, j :: 0 <= i < j < |sections| ==> sections[i].title != sections[j].title
  {
    TitlesAreDistinct();
    forall i | 0 <= i < |sections| ensures SpecTables.Canonical(sections[i]) && sections[i].title == REQUIRED_SECTIONS[i] {
      assert i == 0 || i == 1 || i == 2 || i == 3 || i == 4 || i == 5 || i == 6;
    }
  }
}
