/** Writing a component spec's seed into the store: upserts by unique key, in the order the
    materializer issues them.  Each statement commits by itself, so a failing run keeps the rows it
    has already written. */
module SpecStore {
  import opened Wrappers
  import opened Ordering
  import opened PlanModel
  import opened SpecModel

  datatype Error =
    | NoAnchorPlan | ContextCollision | UnknownElementKind | NoRealization | NameTaken | BadPlanState
    | NoMatchingRealization | UnknownActivityKind | SequenceOutOfRange | UnknownDependencyKind | SelfDependency

  const ELEMENT_TYPES: map<string, string> := map[
    "interface" := "interfaces", "dto" := "data_contract",
    "implementation" := "functions", "verification-surface" := "verification_surfaces"]

  const ACTIVITY_KINDS: map<string, string> := map[
    "contract-authoring" := "artifact_construction", "dto-materialization" := "artifact_construction",
    "service-implementation" := "artifact_construction", "verification" := "verification"]

  const PLAN_STATES: set<string> := {
    "draft_plan", "approved_plan", "superseded_plan", "rejected_plan",
    "active_plan", "partially_realized_plan", "completed_plan", "blocked_plan", "deferred_plan"}

  // ---------------------------------------------------------------- the rows a seed stands for

  function ElementRows(c: Component, seeds: seq<ElementSeed>): set<Element> {
    set e | e in seeds && e.kind in ELEMENT_TYPES :: Element(c, ELEMENT_TYPES[e.kind], e.name)
  }

  function RealizationRows(ids: map<string, Element>, types: set<string>, seeds: seq<RealizationSeed>): set<Realization> {
    set r | r in seeds && r.element in ids && r.kind in types :: Realization(ids[r.element], r.kind, r.key)
  }

  predicate FitsInteger(n: int) {
    -0x8000_0000 <= n < 0x8000_0000
  }

  predicate HasMatch(a: ActivitySeed, realizations: seq<RealizationSeed>) {
    exists r :: r in realizations && r.element == a.element && r.kind == a.realizationKind
  }

  predicate KnownActivity(a: ActivitySeed) {
    a.kind in ACTIVITY_KINDS && FitsInteger(a.sequence)
  }

  predicate AllKnown(seeds: seq<ActivitySeed>) {
    forall a :: a in seeds ==> KnownActivity(a)
  }

  predicate Accepted(seeds: seq<ActivitySeed>, realizations: seq<RealizationSeed>) {
    forall a :: a in seeds ==> HasMatch(a, realizations) && KnownActivity(a)
  }

  function ActivityRow(a: ActivitySeed): Activity
    requires KnownActivity(a)
  {
    Activity(ACTIVITY_KINDS[a.kind], Planned, a.sequence)
  }

  /** The activities a seed list upserts: the last seed of a key wins. */
  function ActivityRows(plan: PlanId, seeds: seq<ActivitySeed>): map<ActivityId, Activity>
    requires AllKnown(seeds)
  {
    if seeds == [] then map[]
    else
      var front, a := seeds[..|seeds| - 1], seeds[|seeds| - 1];
      assert a in seeds;
      ActivityRows(plan, front)[ActivityId(plan, a.key) := ActivityRow(a)]
  }

  lemma ActivityRowsStep(plan: PlanId, seeds: seq<ActivitySeed>, a: ActivitySeed, before: map<ActivityId, Activity>)
    requires AllKnown(seeds) && KnownActivity(a)
    ensures AllKnown(seeds + [a])
    ensures before + ActivityRows(plan, seeds + [a]) == (before + ActivityRows(plan, seeds))[ActivityId(plan, a.key) := ActivityRow(a)]
  {
    assert (seeds + [a])[..|seeds|] == seeds;
  }

  predicate DependencyWritable(d: DependencySeed) {
    d.kind == "hard" && d.activity != d.dependsOn
  }

  function DependencyRows(plan: PlanId, seeds: seq<DependencySeed>): set<Dependency> {
    set d | d in seeds :: Dependency(plan, d.dependsOn, d.activity)
  }

  lemma DependencyRowsStep(plan: PlanId, seeds: seq<DependencySeed>, d: DependencySeed, before: set<Dependency>)
    ensures before + DependencyRows(plan, seeds + [d]) == before + DependencyRows(plan, seeds) + {Dependency(plan, d.dependsOn, d.activity)}
  {
    assert forall x :: x in seeds + [d] <==> x in seeds || x == d;
  }

  function NamedPlans(plans: map<PlanId, Plan>, project: string, name: string): set<PlanId> {
    set k | k in plans && plans[k].project == project && plans[k].name == Some(name)
  }

  function ActivitiesOutside(activities: map<ActivityId, Activity>, gone: set<PlanId>): map<ActivityId, Activity> {
    map a | a in activities && a.plan !in gone :: activities[a]
  }

  function DependenciesOutside(dependencies: set<Dependency>, gone: set<PlanId>): set<Dependency> {
    set d | d in dependencies && d.plan !in gone
  }

  // ---------------------------------------------------------------- what a run needs and does

  predicate Anchored(plans: map<PlanId, Plan>, project: string, package: string, anchorContext: string) {
    PlanId(package, anchorContext) in plans ||
    exists l :: l in plans && l.package == package && plans[l].project == project
  }

  predicate ContextFree(plans: map<PlanId, Plan>, k: PlanId, name: string, c: Component) {
    k in plans ==> plans[k].name == Some(name) || plans[k].component == Some(c)
  }

  /** A realization row of this key will exist: there is one, or some seed of the key has a
      registered type. */
  predicate RealizationWritable(db: Store, types: set<string>, c: Component, seeds: seq<RealizationSeed>, key: string) {
    || key in RealizationKeysOf(db.realizations, c)
    || exists r :: r in seeds && r.key == key && r.kind in types
  }

  /** What the rows of a seed ask of the store before they are written. */
  predicate Writable(db: Store, types: set<string>, c: Component, k: PlanId, seed: Seed) {
    && (forall e :: e in seed.elements ==> e.kind in ELEMENT_TYPES)
    && (forall r :: r in seed.realizations ==> RealizationWritable(db, types, c, seed.realizations, r.key))
    && seed.planStatus in PLAN_STATES
    && NamedPlans(db.plans, c.project, seed.plan) <= {k}
    && Accepted(seed.activities, seed.realizations)
    && (forall d :: d in seed.dependencies ==> DependencyWritable(d))
  }

  /** When a materialization succeeds, told from the store it starts in. */
  predicate Materializable(db: Store, types: set<string>, project: string, package: string, anchorContext: string, seed: Seed) {
    var c, k := Component(project, seed.component), PlanId(package, seed.context);
    && Anchored(db.plans, project, package, anchorContext)
    && ContextFree(db.plans, k, seed.plan, c)
    && Writable(db, types, c, k, seed)
  }

  /** The element found for each name: any element of the component with that key. */
  predicate ElementLookup(ids: map<string, Element>, elements: set<Element>, c: Component, names: seq<string>) {
    && ids.Keys == Elements(names)
    && (forall n :: n in ids ==> ids[n] in elements && ids[n].component == c && ids[n].key == n)
  }

  /** What a successful materialization makes of the store. */
  ghost predicate Materialized(before: Store, after: Store, types: set<string>, project: string, package: string, seed: Seed) {
    var c, k := Component(project, seed.component), PlanId(package, seed.context);
    var gone := NamedPlans(before.plans, project, seed.plan);
    && after.components == before.components + {c}
    && after.elements == before.elements + ElementRows(c, seed.elements)
    && RealizationsAdded(before.realizations, after, types, c, seed)
    && after.plans == before.plans[k := Plan(project, Some(seed.plan), Some(c), seed.planStatus)]
    && AllKnown(seed.activities)
    && after.activities == ActivitiesOutside(before.activities, gone) + ActivityRows(k, seed.activities)
    && after.dependencies == DependenciesOutside(before.dependencies, gone) + DependencyRows(k, seed.dependencies)
  }

  /** The rows of a seed, added to a store whose plan of that name has been cleared. */
  ghost predicate RowsWritten(before: Store, after: Store, types: set<string>, c: Component, k: PlanId, seed: Seed) {
    && after.elements == before.elements + ElementRows(c, seed.elements)
    && RealizationsAdded(before.realizations, after, types, c, seed)
    && after.plans == before.plans[k := Plan(c.project, Some(seed.plan), Some(c), seed.planStatus)]
    && AllKnown(seed.activities)
    && after.activities == before.activities + ActivityRows(k, seed.activities)
    && after.dependencies == before.dependencies + DependencyRows(k, seed.dependencies)
  }

  ghost predicate RealizationsAdded(before: set<Realization>, after: Store, types: set<string>, c: Component, seed: Seed) {
    && Elements(RealizationKeys(seed.realizations)) <= RealizationKeysOf(after.realizations, c)
    && exists ids :: ElementLookup(ids, after.elements, c, Names(seed.elements)) &&
                     after.realizations == before + RealizationRows(ids, types, seed.realizations)
  }

  /** What no run, failed or not, may change: rows of other components and of other plans. */
  ghost predicate OthersUntouched(before: Store, after: Store, project: string, package: string, seed: Seed) {
    var c, k := Component(project, seed.component), PlanId(package, seed.context);
    && before.components <= after.components <= before.components + {c}
    && ComponentTruthGrows(before, after, c)
    && PlanTruthKept(before, after, k, NamedPlans(before.plans, project, seed.plan) + {k})
  }

  ghost predicate ComponentTruthGrows(before: Store, after: Store, c: Component) {
    && before.elements <= after.elements
    && (forall e :: e in after.elements && e !in before.elements ==> e.component == c)
    && before.realizations <= after.realizations
    && (forall r :: r in after.realizations && r !in before.realizations ==> r.element.component == c)
  }

  ghost predicate PlanTruthKept(before: Store, after: Store, k: PlanId, owned: set<PlanId>) {
    && before.plans - {k} == after.plans - {k}
    && ActivitiesOutside(before.activities, owned) == ActivitiesOutside(after.activities, owned)
    && DependenciesOutside(before.dependencies, owned) == DependenciesOutside(after.dependencies, owned)
  }

  // ---------------------------------------------------------------- what the rows come to

  lemma {:induction false} ActivityRowKeys(plan: PlanId, seeds: seq<ActivitySeed>)
    requires AllKnown(seeds)
    ensures forall id :: id in ActivityRows(plan, seeds) <==> id.plan == plan && id.key in ActivityKeys(seeds)
  {
    if seeds != [] {
      var front, last := seeds[..|seeds| - 1], seeds[|seeds| - 1];
      ActivityRowKeys(plan, front);
      assert ActivityKeys(seeds) == ActivityKeys(front) + [last.key];
    }
  }

  lemma ElementRowKeys(c: Component, seeds: seq<ElementSeed>)
    requires forall e :: e in seeds ==> e.kind in ELEMENT_TYPES
    ensures ElementKeysOf(ElementRows(c, seeds), c) == Elements(Names(seeds))
  {
    var rows := ElementRows(c, seeds);
    forall n | n in Elements(Names(seeds)) ensures n in ElementKeysOf(rows, c) {
      var i :| 0 <= i < |seeds| && Names(seeds)[i] == n;
      assert seeds[i] in seeds;
      assert Element(c, ELEMENT_TYPES[seeds[i].kind], n) in rows;
    }
    forall e | e in rows ensures e.key in Names(seeds) {
      var s :| s in seeds && s.kind in ELEMENT_TYPES && e == Element(c, ELEMENT_TYPES[s.kind], s.name);
      var i :| 0 <= i < |seeds| && seeds[i] == s;
      assert Names(seeds)[i] == e.key;
    }
  }

  lemma RealizationKeyPresent(before: Store, after: set<Realization>, types: set<string>, c: Component,
      ids: map<string, Element>, seeds: seq<RealizationSeed>, key: string)
    requires after == before.realizations + RealizationRows(ids, types, seeds)
    requires forall n :: n in ids ==> ids[n].component == c
    requires forall r :: r in seeds ==> r.element in ids
    ensures key in RealizationKeysOf(after, c) <==> RealizationWritable(before, types, c, seeds, key)
  {
    if RealizationWritable(before, types, c, seeds, key) {
      if key in RealizationKeysOf(before.realizations, c) {
        var r :| r in before.realizations && r.element.component == c && r.key == key;
        assert r in after;
      } else {
        var r :| r in seeds && r.key == key && r.kind in types;
        assert Realization(ids[r.element], r.kind, r.key) in after;
      }
    }
  }

  lemma RealizationsPresentIff(before: Store, after: set<Realization>, types: set<string>, c: Component,
      ids: map<string, Element>, seeds: seq<RealizationSeed>)
    requires after == before.realizations + RealizationRows(ids, types, seeds)
    requires forall n :: n in ids ==> ids[n].component == c
    requires forall r :: r in seeds ==> r.element in ids
    ensures Elements(RealizationKeys(seeds)) <= RealizationKeysOf(after, c) <==>
            forall r :: r in seeds ==> RealizationWritable(before, types, c, seeds, r.key)
  {
    forall key ensures key in RealizationKeysOf(after, c) <==> RealizationWritable(before, types, c, seeds, key) {
      RealizationKeyPresent(before, after, types, c, ids, seeds, key);
    }
    forall key ensures key in Elements(RealizationKeys(seeds)) <==> exists r :: r in seeds && r.key == key {
      if key in Elements(RealizationKeys(seeds)) {
        var i :| 0 <= i < |seeds| && RealizationKeys(seeds)[i] == key;
        assert seeds[i] in seeds;
      }
      if r :| r in seeds && r.key == key {
        var i :| 0 <= i < |seeds| && seeds[i] == r;
        assert RealizationKeys(seeds)[i] == key;
      }
    }
  }

  /** Rows added to plan k leave the other plans' rows as they were. */
  lemma RowsKept(before: Store, after: Store, k: PlanId, activities: seq<ActivitySeed>, dependencies: seq<DependencySeed>)
    requires AllKnown(activities)
    requires after.plans == before.plans
    requires after.activities == before.activities + ActivityRows(k, activities)
    requires after.dependencies == before.dependencies + DependencyRows(k, dependencies)
    ensures PlanTruthKept(before, after, k, {k})
  {
    ActivityRowKeys(k, activities);
    assert ActivitiesOutside(before.activities, {k}) == ActivitiesOutside(after.activities, {k});
    assert DependenciesOutside(before.dependencies, {k}) == DependenciesOutside(after.dependencies, {k});
  }

  /** Rows added to plan k keep the store valid. */
  lemma RowsStayValid(before: Store, after: Store, k: PlanId, activities: seq<ActivitySeed>, dependencies: seq<DependencySeed>)
    requires before.Valid() && k in before.plans && AllKnown(activities)
    requires after == before.(activities := before.activities + ActivityRows(k, activities),
                              dependencies := before.dependencies + DependencyRows(k, dependencies))
    requires forall d :: d in dependencies ==>
      DependencyWritable(d) && d.activity in ActivityKeys(activities) && d.dependsOn in ActivityKeys(activities)
    ensures after.Valid()
  {
    ActivityRowKeys(k, activities);
    forall d | d in after.dependencies && d !in before.dependencies
      ensures d.predecessor != d.successor
      ensures ActivityId(d.plan, d.predecessor) in after.activities && ActivityId(d.plan, d.successor) in after.activities
    {
      var s :| s in dependencies && d == Dependency(k, s.dependsOn, s.activity);
    }
  }

  // ---------------------------------------------------------------- the steps

  class SpecDatabase {
    const realizationTypes: set<string>
    var db: Store

    constructor (types: set<string>, initial: Store)
      ensures realizationTypes == types && db == initial
    {
      realizationTypes := types;
      db := initial;
    }

    method EnsureComponentRow(c: Component)
      requires db.Valid()
      modifies this
      ensures db == old(db).(components := old(db).components + {c}) && db.Valid()
    {
      db := db.(components := db.components + {c});
    }

    /** Deletes the dependencies and activities of the plan of this name, if there is one. */
    method ClearPlanActivityTruth(project: string, name: string)
      requires db.Valid()
      modifies this
      ensures var gone := NamedPlans(old(db).plans, project, name);
              db == old(db).(activities := ActivitiesOutside(old(db).activities, gone),
                             dependencies := DependenciesOutside(old(db).dependencies, gone))
      ensures db.Valid()
    {
      ghost var named := NamedPlans(db.plans, project, name);
      if existing :| existing in db.plans && db.plans[existing].project == project && db.plans[existing].name == Some(name) {
        assert named == {existing};
        db := db.(dependencies := DependenciesOutside(db.dependencies, {existing}));
        db := db.(activities := ActivitiesOutside(db.activities, {existing}));
      } else {
        assert named == {};
        assert ActivitiesOutside(db.activities, {}) == db.activities;
        assert DependenciesOutside(db.dependencies, {}) == db.dependencies;
      }
    }

    /** Upserts elements up to the first of unknown kind; done counts those written. */
    method UpsertElements(c: Component, seeds: seq<ElementSeed>) returns (done: nat)
      requires db.Valid() && c in db.components
      modifies this
      ensures done <= |seeds| && (forall i :: 0 <= i < done ==> seeds[i].kind in ELEMENT_TYPES)
      ensures done < |seeds| ==> seeds[done].kind !in ELEMENT_TYPES
      ensures db == old(db).(elements := old(db).elements + ElementRows(c, seeds[..done])) && db.Valid()
    {
      done := 0;
      while done < |seeds| && seeds[done].kind in ELEMENT_TYPES
        invariant done <= |seeds| && (forall i :: 0 <= i < done ==> seeds[i].kind in ELEMENT_TYPES)
        invariant db == old(db).(elements := old(db).elements + ElementRows(c, seeds[..done])) && db.Valid()
      {
        var e := seeds[done];
        db := db.(elements := db.elements + {Element(c, ELEMENT_TYPES[e.kind], e.name)});
        assert seeds[..done + 1] == seeds[..done] + [e];
        done := done + 1;
      }
      assert seeds[..|seeds|] == seeds;
    }

    /** One element per name, whichever the store yields first. */
    method FindElements(c: Component, names: seq<string>) returns (ids: map<string, Element>)
      requires Elements(names) <= ElementKeysOf(db.elements, c)
      ensures ElementLookup(ids, db.elements, c, names)
    {
      ids := map[];
      for i := 0 to |names|
        invariant ElementLookup(ids, db.elements, c, names[..i])
      {
        assert names[i] in Elements(names);
        var e :| e in db.elements && e.component == c && e.key == names[i];
        ids := ids[names[i] := e];
        assert names[..i + 1] == names[..i] + [names[i]];
      }
      assert names[..|names|] == names;
    }

    /** Upserts realizations; an unregistered type selects no row to insert. */
    method UpsertRealizations(ids: map<string, Element>, seeds: seq<RealizationSeed>)
      requires db.Valid() && ids.Values <= db.elements
      requires forall r :: r in seeds ==> r.element in ids
      modifies this
      ensures db == old(db).(realizations := old(db).realizations + RealizationRows(ids, realizationTypes, seeds))
      ensures db.Valid()
    {
      for i := 0 to |seeds|
        invariant db == old(db).(realizations := old(db).realizations + RealizationRows(ids, realizationTypes, seeds[..i]))
        invariant db.Valid()
      {
        var r := seeds[i];
        assert seeds[..i + 1] == seeds[..i] + [r];
        if r.kind in realizationTypes {
          assert ids[r.element] in ids.Values;
          db := db.(realizations := db.realizations + {Realization(ids[r.element], r.kind, r.key)});
        }
      }
      assert seeds[..|seeds|] == seeds;
    }

    method RealizationsPresent(c: Component, seeds: seq<RealizationSeed>) returns (ok: bool)
      ensures ok <==> Elements(RealizationKeys(seeds)) <= RealizationKeysOf(db.realizations, c)
    {
      for i := 0 to |seeds|
        invariant forall j :: 0 <= j < i ==> seeds[j].key in RealizationKeysOf(db.realizations, c)
      {
        if seeds[i].key !in RealizationKeysOf(db.realizations, c) {
          assert RealizationKeys(seeds)[i] in Elements(RealizationKeys(seeds));
          return false;
        }
      }
      return true;
    }

    /** Inserts the plan or overwrites the one of the same package and context; the unique name
        per project can refuse it. */
    method UpsertPlan(k: PlanId, plan: Plan) returns (ok: bool)
      requires db.Valid() && plan.name.Some? && (plan.component.Some? ==> plan.component.value in db.components)
      modifies this
      ensures ok <==> NamedPlans(db.plans, plan.project, plan.name.value) <= {k}
      ensures ok <==> NamedPlans(old(db).plans, plan.project, plan.name.value) <= {k}
      ensures db == if ok then old(db).(plans := old(db).plans[k := plan]) else old(db)
      ensures db.Valid()
    {
      ok := forall l :: l in db.plans && l != k ==> db.plans[l].project != plan.project || db.plans[l].name != plan.name;
      if ok {
        db := db.(plans := db.plans[k := plan]);
      } else {
        ghost var l :| l in db.plans && l != k && db.plans[l].project == plan.project && db.plans[l].name == plan.name;
        assert l in NamedPlans(db.plans, plan.project, plan.name.value);
      }
    }

    method UpsertActivity(k: PlanId, a: ActivitySeed)
      requires KnownActivity(a)
      modifies this
      ensures db == old(db).(activities := old(db).activities[ActivityId(k, a.key) := ActivityRow(a)])
    {
      db := db.(activities := db.activities[ActivityId(k, a.key) := Activity(ACTIVITY_KINDS[a.kind], Planned, a.sequence)]);
    }

    /** Upserts activities up to the first that has no realization, an unknown kind, or a sequence
        that is no 32-bit integer. */
    method UpsertActivities(k: PlanId, seeds: seq<ActivitySeed>, realizations: seq<RealizationSeed>) returns (done: nat, failure: Error)
      modifies this
      ensures done <= |seeds| && Accepted(seeds[..done], realizations) && AllKnown(seeds[..done])
      ensures done < |seeds| ==> !Accepted([seeds[done]], realizations)
      ensures failure in {NoMatchingRealization, UnknownActivityKind, SequenceOutOfRange}
      ensures db == old(db).(activities := old(db).activities + ActivityRows(k, seeds[..done]))
    {
      done := 0;
      failure := NoMatchingRealization;
      assert db.activities == db.activities + ActivityRows(k, []);
      while done < |seeds|
        invariant done <= |seeds| && Accepted(seeds[..done], realizations) && AllKnown(seeds[..done])
        invariant db == old(db).(activities := old(db).activities + ActivityRows(k, seeds[..done]))
      {
        var a := seeds[done];
        assert a in [a];
        var refused := Refusal(a, realizations);
        if refused.Some? { return done, refused.value; }
        ActivityRowsStep(k, seeds[..done], a, old(db).activities);
        assert seeds[..done + 1] == seeds[..done] + [a];
        UpsertActivity(k, a);
        done := done + 1;
      }
    }

    method Refusal(a: ActivitySeed, realizations: seq<RealizationSeed>) returns (refused: Option<Error>)
      ensures refused.None? <==> HasMatch(a, realizations) && KnownActivity(a)
      ensures refused.Some? ==> refused.value in {NoMatchingRealization, UnknownActivityKind, SequenceOutOfRange}
    {
      var found := FirstMatch(a, realizations);
      if found.None? { return Some(NoMatchingRealization); }
      if a.kind !in ACTIVITY_KINDS { return Some(UnknownActivityKind); }
      if !FitsInteger(a.sequence) { return Some(SequenceOutOfRange); }
      return None;
    }

    method FirstMatch(a: ActivitySeed, realizations: seq<RealizationSeed>) returns (found: Option<RealizationSeed>)
      ensures found.Some? <==> HasMatch(a, realizations)
      ensures found.Some? ==> found.value in realizations && found.value.element == a.element && found.value.kind == a.realizationKind
    {
      for i := 0 to |realizations|
        invariant forall j :: 0 <= j < i ==> !(realizations[j].element == a.element && realizations[j].kind == a.realizationKind)
      {
        if realizations[i].element == a.element && realizations[i].kind == a.realizationKind { return Some(realizations[i]); }
      }
      return None;
    }

    /** Upserts dependencies up to the first that is not hard or names one activity twice. */
    method UpsertDependencies(k: PlanId, seeds: seq<DependencySeed>) returns (done: nat, failure: Error)
      modifies this
      ensures done <= |seeds| && (forall d :: d in seeds[..done] ==> DependencyWritable(d))
      ensures done < |seeds| ==> !DependencyWritable(seeds[done])
      ensures failure in {UnknownDependencyKind, SelfDependency}
      ensures db == old(db).(dependencies := old(db).dependencies + DependencyRows(k, seeds[..done]))
    {
      done := 0;
      failure := UnknownDependencyKind;
      while done < |seeds|
        invariant done <= |seeds| && (forall d :: d in seeds[..done] ==> DependencyWritable(d))
        invariant db == old(db).(dependencies := old(db).dependencies + DependencyRows(k, seeds[..done]))
      {
        var d := seeds[done];
        if d.kind != "hard" { return done, UnknownDependencyKind; }
        if d.dependsOn == d.activity { return done, SelfDependency; }
        DependencyRowsStep(k, seeds[..done], d, old(db).dependencies);
        assert seeds[..done + 1] == seeds[..done] + [d];
        db := db.(dependencies := db.dependencies + {Dependency(k, d.dependsOn, d.activity)});
        done := done + 1;
      }
    }

    /** The component's elements and realizations, each realization then looked up by its key. */
    method WriteComponentTruth(c: Component, seed: Seed) returns (failure: Option<Error>)
      requires db.Valid() && c in db.components && RefsResolve(seed)
      modifies this
      ensures db == old(db).(elements := db.elements, realizations := db.realizations) && db.Valid()
      ensures ComponentTruthGrows(old(db), db, c)
      ensures failure.None? <==>
        && (forall e :: e in seed.elements ==> e.kind in ELEMENT_TYPES)
        && (forall r :: r in seed.realizations ==> RealizationWritable(old(db), realizationTypes, c, seed.realizations, r.key))
      ensures failure.Some? ==> failure.value in {UnknownElementKind, NoRealization}
      ensures failure.None? ==> db.elements == old(db).elements + ElementRows(c, seed.elements)
      ensures failure.None? ==> RealizationsAdded(old(db).realizations, db, realizationTypes, c, seed)
    {
      var done := UpsertElements(c, seed.elements);
      if done < |seed.elements| {
        assert seed.elements[done] in seed.elements;
        return Some(UnknownElementKind);
      }
      assert seed.elements[..done] == seed.elements;
      ElementRowKeys(c, seed.elements);
      var ids := FindElements(c, Names(seed.elements));
      UpsertRealizations(ids, seed.realizations);
      RealizationsPresentIff(old(db), db.realizations, realizationTypes, c, ids, seed.realizations);
      var ok := RealizationsPresent(c, seed.realizations);
      return if ok then None else Some(NoRealization);
    }

    method WriteActivityTruth(k: PlanId, seed: Seed) returns (failure: Option<Error>)
      requires db.Valid() && k in db.plans && RefsResolve(seed)
      modifies this
      ensures db == old(db).(activities := db.activities, dependencies := db.dependencies) && db.Valid()
      ensures PlanTruthKept(old(db), db, k, {k})
      ensures failure.None? <==> Accepted(seed.activities, seed.realizations) && forall d :: d in seed.dependencies ==> DependencyWritable(d)
      ensures failure.Some? ==> failure.value !in {NoAnchorPlan, ContextCollision}
      ensures failure.None? ==>
        && AllKnown(seed.activities)
        && db.activities == old(db).activities + ActivityRows(k, seed.activities)
        && db.dependencies == old(db).dependencies + DependencyRows(k, seed.dependencies)
    {
      var done, why := UpsertActivities(k, seed.activities, seed.realizations);
      RowsKept(old(db), db, k, seed.activities[..done], []);
      RowsStayValid(old(db), db, k, seed.activities[..done], []);
      if done < |seed.activities| {
        assert seed.activities[done] in seed.activities;
        return Some(why);
      }
      assert seed.activities[..done] == seed.activities;
      done, why := UpsertDependencies(k, seed.dependencies);
      RowsKept(old(db), db, k, seed.activities, seed.dependencies[..done]);
      RowsStayValid(old(db), db, k, seed.activities, seed.dependencies[..done]);
      if done < |seed.dependencies| {
        assert seed.dependencies[done] in seed.dependencies;
        return Some(why);
      }
      assert seed.dependencies[..done] == seed.dependencies;
      return None;
    }

    /** The plan with its activities and dependencies. */
    method WritePlanTruth(k: PlanId, plan: Plan, seed: Seed) returns (failure: Option<Error>)
      requires db.Valid() && RefsResolve(seed)
      requires plan.name.Some? && (plan.component.Some? ==> plan.component.value in db.components)
      modifies this
      ensures db == old(db).(plans := db.plans, activities := db.activities, dependencies := db.dependencies) && db.Valid()
      ensures PlanTruthKept(old(db), db, k, {k})
      ensures failure.None? <==>
        && plan.authority in PLAN_STATES
        && NamedPlans(old(db).plans, plan.project, plan.name.value) <= {k}
        && Accepted(seed.activities, seed.realizations)
        && (forall d :: d in seed.dependencies ==> DependencyWritable(d))
      ensures failure.Some? ==> failure.value !in {NoAnchorPlan, ContextCollision}
      ensures failure.None? ==>
        && AllKnown(seed.activities)
        && db.plans == old(db).plans[k := plan]
        && db.activities == old(db).activities + ActivityRows(k, seed.activities)
        && db.dependencies == old(db).dependencies + DependencyRows(k, seed.dependencies)
    {
      if plan.authority !in PLAN_STATES { return Some(BadPlanState); }
      var ok := UpsertPlan(k, plan);
      if !ok { return Some(NameTaken); }
      failure := WriteActivityTruth(k, seed);
    }

    /** Upsert every row of the seed. */
    method WriteRows(k: PlanId, c: Component, seed: Seed) returns (failure: Option<Error>)
      requires db.Valid() && RefsResolve(seed) && c in db.components
      modifies this
      ensures db.Valid() && db.components == old(db).components
      ensures failure.None? <==> Writable(old(db), realizationTypes, c, k, seed)
      ensures failure.None? ==> RowsWritten(old(db), db, realizationTypes, c, k, seed)
      ensures ComponentTruthGrows(old(db), db, c) && PlanTruthKept(old(db), db, k, {k})
      ensures failure.Some? ==> failure.value !in {NoAnchorPlan, ContextCollision}
    {
      failure := WriteComponentTruth(c, seed);
      if failure.None? {
        failure := WritePlanTruth(k, Plan(c.project, Some(seed.plan), Some(c), seed.planStatus), seed);
      }
    }

    /** The writes behind the guards: clear the plan of the seed's name, then upsert every row. */
    method WriteSpec(k: PlanId, c: Component, seed: Seed) returns (failure: Option<Error>)
      requires db.Valid() && RefsResolve(seed) && c in db.components && c.name == seed.component && k.context == seed.context
      modifies this
      ensures db.Valid() && db.components == old(db).components
      ensures failure.None? <==> Writable(old(db), realizationTypes, c, k, seed)
      ensures failure.None? ==> Materialized(old(db), db, realizationTypes, c.project, k.package, seed)
      ensures ComponentTruthGrows(old(db), db, c)
      ensures PlanTruthKept(old(db), db, k, NamedPlans(old(db).plans, c.project, seed.plan) + {k})
      ensures failure.Some? ==> failure.value !in {NoAnchorPlan, ContextCollision}
    {
      ClearPlanActivityTruth(c.project, seed.plan);
      ghost var cleared := db;
      failure := WriteRows(k, c, seed);
      ClearedThenKept(old(db), cleared, db, k, NamedPlans(old(db).plans, c.project, seed.plan));
    }

    /** materialize_component_spec, for a project and design package that exist. */
    method MaterializeComponentSpec(project: string, package: string, anchorContext: string, seed: Seed) returns (r: Result<PlanId, Error>)
      requires db.Valid() && RefsResolve(seed)
      modifies this
      ensures db.Valid()
      ensures r.Ok? <==> Materializable(old(db), realizationTypes, project, package, anchorContext, seed)
      ensures r.Ok? ==> r.value == PlanId(package, seed.context)
      ensures r.Ok? ==> Materialized(old(db), db, realizationTypes, project, package, seed)
      ensures OthersUntouched(old(db), db, project, package, seed)
      ensures r == Err(NoAnchorPlan) ==> db == old(db)
      ensures r == Err(ContextCollision) ==> db == old(db).(components := old(db).components + {Component(project, seed.component)})
    {
      var c, k := Component(project, seed.component), PlanId(package, seed.context);
      if !Anchored(db.plans, project, package, anchorContext) { return Err(NoAnchorPlan); }
      EnsureComponentRow(c);
      if !ContextFree(db.plans, k, seed.plan, c) { return Err(ContextCollision); }
      var failure := WriteSpec(k, c, seed);
      return if failure.None? then Ok(k) else Err(failure.value);
    }
  }

  lemma ClearedThenKept(before: Store, cleared: Store, after: Store, k: PlanId, gone: set<PlanId>)
    requires cleared.plans == before.plans
    requires cleared.activities == ActivitiesOutside(before.activities, gone)
    requires cleared.dependencies == DependenciesOutside(before.dependencies, gone)
    requires PlanTruthKept(cleared, after, k, {k})
    ensures PlanTruthKept(before, after, k, gone + {k})
  {
    forall a: ActivityId | a.plan !in gone + {k}
      ensures a in before.activities <==> a in after.activities
      ensures a in before.activities ==> before.activities[a] == after.activities[a]
    {
      assert a in cleared.activities <==> a in before.activities;
      assert a in ActivitiesOutside(cleared.activities, {k}) <==> a in ActivitiesOutside(after.activities, {k});
    }
    forall d: Dependency | d.plan !in gone + {k} ensures d in before.dependencies <==> d in after.dependencies {
      assert d in DependenciesOutside(cleared.dependencies, {k}) <==> d in DependenciesOutside(after.dependencies, {k});
    }
  }
}
