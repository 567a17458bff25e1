/** What the checker reports after a materialization, and what a second one changes. */
module SpecStoreLaws {
  import opened Wrappers
  import opened Ordering
  import opened PlanModel
  import opened SpecModel
  import opened SpecConsistency
  import opened SpecStore

  /** A run of the materializer: it could succeed, and it did. */
  ghost predicate Run(before: Store, after: Store, types: set<string>, project: string, package: string, anchor: string, seed: Seed) {
    && RefsResolve(seed)
    && Materializable(before, types, project, package, anchor, seed)
    && Materialized(before, after, types, project, package, seed)
  }

  // ---------------------------------------------------------------- key sets after a run

  lemma ComponentKeysAfter(before: Store, after: Store, types: set<string>, project: string, package: string, anchor: string, seed: Seed)
    requires Run(before, after, types, project, package, anchor, seed)
    ensures var c := Component(project, seed.component);
            && ElementKeysOf(after.elements, c) == ElementKeysOf(before.elements, c) + Elements(Names(seed.elements))
            && RealizationKeysOf(after.realizations, c) == RealizationKeysOf(before.realizations, c) + Elements(RealizationKeys(seed.realizations))
  {
    var c := Component(project, seed.component);
    ElementRowKeys(c, seed.elements);
    var rows := ElementRows(c, seed.elements);
    assert ElementKeysOf(before.elements + rows, c) == ElementKeysOf(before.elements, c) + ElementKeysOf(rows, c);
    forall r | r in after.realizations && r !in before.realizations ensures r.key in RealizationKeys(seed.realizations) {
      NewRealizationIsSeeded(before.realizations, after, types, c, seed, r);
    }
    SeededKeysPresent(before, after, types, project, package, seed);
  }

  lemma SeededKeysPresent(before: Store, after: Store, types: set<string>, project: string, package: string, seed: Seed)
    requires Materialized(before, after, types, project, package, seed)
    ensures before.realizations <= after.realizations
    ensures Elements(RealizationKeys(seed.realizations)) <= RealizationKeysOf(after.realizations, Component(project, seed.component))
  {
  }

  /** A realization a run adds stems from a seed: same key, registered type, and an element of the
      component with the seed's name. */
  lemma NewRealizationIsSeeded(before: set<Realization>, after: Store, types: set<string>, c: Component, seed: Seed, r: Realization)
    requires RealizationsAdded(before, after, types, c, seed)
    requires r in after.realizations && r !in before
    ensures exists s :: s in seed.realizations && s.key == r.key && s.kind == r.realizationType && s.kind in types && s.element == r.element.key
    ensures r.key in RealizationKeys(seed.realizations) && r.element.component == c && r.element in after.elements
  {
    var ids :| ElementLookup(ids, after.elements, c, Names(seed.elements)) &&
               after.realizations == before + RealizationRows(ids, types, seed.realizations);
    var s :| s in seed.realizations && s.element in ids && s.kind in types && r == Realization(ids[s.element], s.kind, s.key);
    var i :| 0 <= i < |seed.realizations| && seed.realizations[i] == s;
    assert RealizationKeys(seed.realizations)[i] == r.key;
  }

  lemma PlanKeysAfter(before: Store, after: Store, types: set<string>, project: string, package: string, anchor: string, seed: Seed, plan: PlanId)
    requires Run(before, after, types, project, package, anchor, seed)
    ensures var k, gone := PlanId(package, seed.context), NamedPlans(before.plans, project, seed.plan);
            && ActivityKeysOf(after.activities.Keys, plan) ==
                 (if plan in gone then {} else ActivityKeysOf(before.activities.Keys, plan)) +
                 (if plan == k then Elements(ActivityKeys(seed.activities)) else {})
            && PairsOf(after.dependencies, plan) ==
                 (if plan in gone then {} else PairsOf(before.dependencies, plan)) +
                 (if plan == k then Elements(DependencyPairs(seed.dependencies)) else {})
  {
    var k := PlanId(package, seed.context);
    ActivityKeysAfter(before.activities, NamedPlans(before.plans, project, seed.plan), k, seed.activities, plan);
    PairsAfter(before.dependencies, NamedPlans(before.plans, project, seed.plan), k, seed.dependencies, plan);
  }

  lemma ActivityKeysAfter(before: map<ActivityId, Activity>, gone: set<PlanId>, k: PlanId, seeds: seq<ActivitySeed>, plan: PlanId)
    requires AllKnown(seeds)
    ensures ActivityKeysOf((ActivitiesOutside(before, gone) + ActivityRows(k, seeds)).Keys, plan) ==
            (if plan in gone then {} else ActivityKeysOf(before.Keys, plan)) + (if plan == k then Elements(ActivityKeys(seeds)) else {})
  {
    var kept, rows := ActivitiesOutside(before, gone), ActivityRows(k, seeds);
    ActivityRowKeys(k, seeds);
    forall key | plan == k && key in Elements(ActivityKeys(seeds)) ensures key in ActivityKeysOf((kept + rows).Keys, plan) {
      assert ActivityId(k, key) in rows;
    }
  }

  lemma PairsAfter(before: set<Dependency>, gone: set<PlanId>, k: PlanId, seeds: seq<DependencySeed>, plan: PlanId)
    ensures PairsOf(DependenciesOutside(before, gone) + DependencyRows(k, seeds), plan) ==
            (if plan in gone then {} else PairsOf(before, plan)) + (if plan == k then Elements(DependencyPairs(seeds)) else {})
  {
    var kept, rows := DependenciesOutside(before, gone), DependencyRows(k, seeds);
    assert PairsOf(kept + rows, plan) == PairsOf(kept, plan) + PairsOf(rows, plan);
    assert PairsOf(kept, plan) == if plan in gone then {} else PairsOf(before, plan);
    forall pair | pair in Elements(DependencyPairs(seeds)) ensures pair in PairsOf(rows, k) {
      var i :| 0 <= i < |seeds| && DependencyPairs(seeds)[i] == pair;
      assert seeds[i] in seeds;
      assert Dependency(k, seeds[i].dependsOn, seeds[i].activity) in rows;
    }
    forall d | d in rows ensures PairText(d.predecessor, d.successor) in DependencyPairs(seeds) {
      var s :| s in seeds && d == Dependency(k, s.dependsOn, s.activity);
      var i :| 0 <= i < |seeds| && seeds[i] == s;
      assert DependencyPairs(seeds)[i] == PairText(d.predecessor, d.successor);
    }
  }

  // ---------------------------------------------------------------- materialize, then check

  /** Other plan rows of this name that name the component (they belong to other projects). */
  function Twins(plans: map<PlanId, Plan>, k: PlanId, c: Component, name: string): set<PlanId> {
    set l | l in plans && l != k && plans[l].name == Some(name) && plans[l].component == Some(c)
  }

  predicate NoStale(db: Store, seed: Seed, plans: set<PlanId>) {
    && (forall a :: a in db.activities && a.plan in plans ==> a.key in ActivityKeys(seed.activities))
    && (forall d :: d in db.dependencies && d.plan in plans ==> PairText(d.predecessor, d.successor) in DependencyPairs(seed.dependencies))
  }

  /** The spec repeats no key, no other project has a component of the name, and the component
      holds no foreign elements or realizations. */
  predicate Tidy(db: Store, c: Component, seed: Seed) {
    && (forall d :: d in db.components && d.name == c.name ==> d == c)
    && DistinctKeys(seed)
    && ElementKeysOf(db.elements, c) <= Elements(Names(seed.elements))
    && RealizationKeysOf(db.realizations, c) <= Elements(RealizationKeys(seed.realizations))
  }

  /** Plans whose rows outlive the run and are seen by the checker: the row at the seed's package
      and context is cleared only if it already has the seed's name in this project. */
  function Survivors(plans: map<PlanId, Plan>, project: string, package: string, seed: Seed): set<PlanId> {
    var k := PlanId(package, seed.context);
    Twins(plans, k, Component(project, seed.component), seed.plan) + ({k} - NamedPlans(plans, project, seed.plan))
  }

  lemma TargetsAfter(before: Store, after: Store, types: set<string>, project: string, package: string, anchor: string, seed: Seed)
    requires Run(before, after, types, project, package, anchor, seed)
    ensures var c, k := Component(project, seed.component), PlanId(package, seed.context);
            && c in TargetComponents(after, seed.component)
            && k in TargetPlans(after, seed.component, seed.plan)
            && (TargetComponents(after, seed.component) == {c} <==>
                  forall d :: d in before.components && d.name == c.name ==> d == c)
            && (TargetComponents(after, seed.component) == {c} ==>
                  TargetPlans(after, seed.component, seed.plan) == {k} + Twins(before.plans, k, c, seed.plan))
  {
    var c, k := Component(project, seed.component), PlanId(package, seed.context);
    forall d | d in before.components && d.name == c.name ensures d in TargetComponents(after, seed.component) {}
  }

  lemma SingleIff(s: set<Component>, c: Component)
    requires c in s
    ensures |s| == 1 <==> s == {c}
  {
    if |s| == 1 {
      assert |s - {c}| == 0;
    }
  }

  /** With one component of the name, the checker's queries are the key sets of that component
      and of the plans it targets. */
  lemma QueriesOf(db: Store, c: Component, plan: string)
    requires TargetComponents(db, c.name) == {c}
    ensures ModelElementKeys(db, c.name) == ElementKeysOf(db.elements, c)
    ensures ModelRealizationKeys(db, c.name) == RealizationKeysOf(db.realizations, c)
  {
  }

  lemma PlanQueriesAgree(before: Store, after: Store, types: set<string>, project: string, package: string, anchor: string, seed: Seed)
    requires Run(before, after, types, project, package, anchor, seed)
    requires var c, k := Component(project, seed.component), PlanId(package, seed.context);
             TargetPlans(after, seed.component, seed.plan) == {k} + Twins(before.plans, k, c, seed.plan)
    ensures ModelActivityKeys(after, seed.component, seed.plan) == Elements(ActivityKeys(seed.activities)) &&
            ModelPairs(after, seed.component, seed.plan) == Elements(DependencyPairs(seed.dependencies)) <==>
            NoStale(before, seed, Survivors(before.plans, project, package, seed))
  {
    var k := PlanId(package, seed.context);
    var targets := TargetPlans(after, seed.component, seed.plan);
    var gone := NamedPlans(before.plans, project, seed.plan);
    var survivors := Survivors(before.plans, project, package, seed);
    assert survivors == targets - gone;
    ActivityQuery(before.activities, gone, k, seed.activities, targets);
    PairQuery(before.dependencies, gone, k, seed.dependencies, targets);
  }

  lemma ActivityQuery(before: map<ActivityId, Activity>, gone: set<PlanId>, k: PlanId, seeds: seq<ActivitySeed>, targets: set<PlanId>)
    requires AllKnown(seeds) && k in targets
    ensures var after := ActivitiesOutside(before, gone) + ActivityRows(k, seeds);
            (set a | a in after && a.plan in targets :: a.key) == Elements(ActivityKeys(seeds)) <==>
            forall a :: a in before && a.plan in targets - gone ==> a.key in ActivityKeys(seeds)
  {
    var after := ActivitiesOutside(before, gone) + ActivityRows(k, seeds);
    var keys := set a | a in after && a.plan in targets :: a.key;
    ActivityRowKeys(k, seeds);
    forall key | key in Elements(ActivityKeys(seeds)) ensures key in keys {
      assert ActivityId(k, key) in after;
    }
    forall a | a in before && a.plan in targets - gone ensures a.key in keys {
      assert a in after;
    }
  }

  lemma PairQuery(before: set<Dependency>, gone: set<PlanId>, k: PlanId, seeds: seq<DependencySeed>, targets: set<PlanId>)
    requires k in targets
    ensures var after := DependenciesOutside(before, gone) + DependencyRows(k, seeds);
            (set d | d in after && d.plan in targets :: PairText(d.predecessor, d.successor)) == Elements(DependencyPairs(seeds)) <==>
            forall d :: d in before && d.plan in targets - gone ==> PairText(d.predecessor, d.successor) in DependencyPairs(seeds)
  {
    var after := DependenciesOutside(before, gone) + DependencyRows(k, seeds);
    var pairs := set d | d in after && d.plan in targets :: PairText(d.predecessor, d.successor);
    PairsAfter({}, {}, k, seeds, k);
    assert DependenciesOutside({}, {}) + DependencyRows(k, seeds) == DependencyRows(k, seeds);
    assert PairsOf(DependencyRows(k, seeds), k) == Elements(DependencyPairs(seeds));
    forall pair | pair in Elements(DependencyPairs(seeds)) ensures pair in pairs {
      var d :| d in DependencyRows(k, seeds) && d.plan == k && PairText(d.predecessor, d.successor) == pair;
      assert d in after;
    }
    forall d | d in before && d.plan in targets - gone ensures PairText(d.predecessor, d.successor) in pairs {
      assert d in after;
    }
    forall d | d in DependencyRows(k, seeds) ensures PairText(d.predecessor, d.successor) in DependencyPairs(seeds) {
      assert PairText(d.predecessor, d.successor) in PairsOf(DependencyRows(k, seeds), k);
    }
  }

  /** Cleanliness of the single component c, part by part. */
  lemma CleanParts(before: Store, after: Store, c: Component, seed: Seed)
    requires c.name == seed.component && TargetComponents(after, seed.component) == {c}
    requires TargetPlans(after, seed.component, seed.plan) != {}
    requires ElementKeysOf(after.elements, c) == ElementKeysOf(before.elements, c) + Elements(Names(seed.elements))
    requires RealizationKeysOf(after.realizations, c) == RealizationKeysOf(before.realizations, c) + Elements(RealizationKeys(seed.realizations))
    ensures Clean(after, seed) <==>
      && DistinctKeys(seed)
      && ElementKeysOf(before.elements, c) <= Elements(Names(seed.elements))
      && RealizationKeysOf(before.realizations, c) <= Elements(RealizationKeys(seed.realizations))
      && Elements(ActivityKeys(seed.activities)) == ModelActivityKeys(after, seed.component, seed.plan)
      && Elements(DependencyPairs(seed.dependencies)) == ModelPairs(after, seed.component, seed.plan)
  {
    QueriesOf(after, c, seed.plan);
    SubsetIff(ElementKeysOf(before.elements, c), Elements(Names(seed.elements)));
    SubsetIff(RealizationKeysOf(before.realizations, c), Elements(RealizationKeys(seed.realizations)));
    SingleIff({c}, c);
  }

  lemma SubsetIff(a: set<string>, b: set<string>)
    ensures b == a + b <==> a <= b
  {
  }

  /** Materialize, then check: the checker finds no gap exactly when the start was tidy and no
      surviving plan row held an activity or dependency the spec does not list. */
  lemma CleanAfterIff(before: Store, after: Store, types: set<string>, project: string, package: string, anchor: string, seed: Seed)
    requires Run(before, after, types, project, package, anchor, seed)
    ensures Gaps(LoadModelDetail(after, seed.component, seed.plan), seed) == [] <==>
            Tidy(before, Component(project, seed.component), seed) &&
            NoStale(before, seed, Survivors(before.plans, project, package, seed))
  {
    var c := Component(project, seed.component);
    NoGapsIff(after, seed);
    TargetsAfter(before, after, types, project, package, anchor, seed);
    SingleIff(TargetComponents(after, seed.component), c);
    if TargetComponents(after, seed.component) == {c} {
      ComponentKeysAfter(before, after, types, project, package, anchor, seed);
      CleanParts(before, after, c, seed);
      PlanQueriesAgree(before, after, types, project, package, anchor, seed);
    }
  }

  /** The plan row of the seed's context is absent or already this plan's. */
  predicate PlanFree(db: Store, project: string, package: string, seed: Seed) {
    var k := PlanId(package, seed.context);
    k !in db.plans || k in NamedPlans(db.plans, project, seed.plan)
  }

  lemma NothingSurvives(db: Store, project: string, package: string, seed: Seed)
    requires db.Valid()
    requires var c, k := Component(project, seed.component), PlanId(package, seed.context);
             Twins(db.plans, k, c, seed.plan) == {} && PlanFree(db, project, package, seed)
    ensures NoStale(db, seed, Survivors(db.plans, project, package, seed))
  {
    var k := PlanId(package, seed.context);
    assert Survivors(db.plans, project, package, seed) <= {k} - NamedPlans(db.plans, project, seed.plan);
    if k !in db.plans { NoRowsOutsidePlans(db, k); }
  }

  lemma NoRowsOutsidePlans(db: Store, k: PlanId)
    requires db.Valid() && k !in db.plans
    ensures forall a :: a in db.activities ==> a.plan != k
    ensures forall d :: d in db.dependencies ==> d.plan != k
  {
    forall d | d in db.dependencies ensures d.plan != k {
      assert ActivityId(d.plan, d.predecessor) in db.activities;
    }
  }

  /** The designed use: a tidy store whose plan row is either absent or already this plan's. */
  lemma MaterializeThenCheck(before: Store, after: Store, types: set<string>, project: string, package: string, anchor: string, seed: Seed)
    requires Run(before, after, types, project, package, anchor, seed)
    requires before.Valid()
    requires var c, k := Component(project, seed.component), PlanId(package, seed.context);
             && Tidy(before, c, seed) && Twins(before.plans, k, c, seed.plan) == {}
             && PlanFree(before, project, package, seed)
    ensures Gaps(LoadModelDetail(after, seed.component, seed.plan), seed) == []
  {
    var k := PlanId(package, seed.context);
    CleanAfterIff(before, after, types, project, package, anchor, seed);
    NothingSurvives(before, project, package, seed);
  }

  /** A run that renames the plan of the seed's context keeps that plan's old activities, and the
      checker reports any the spec does not list. */
  lemma RenameKeepsStaleActivities(before: Store, after: Store, types: set<string>, project: string, package: string, anchor: string, seed: Seed, key: string)
    requires Run(before, after, types, project, package, anchor, seed)
    requires var k := PlanId(package, seed.context);
             && k in before.plans && before.plans[k].name != Some(seed.plan)
             && ActivityId(k, key) in before.activities && key !in ActivityKeys(seed.activities)
    ensures Gaps(LoadModelDetail(after, seed.component, seed.plan), seed) != []
  {
    CleanAfterIff(before, after, types, project, package, anchor, seed);
    assert PlanId(package, seed.context) in Survivors(before.plans, project, package, seed);
  }

  // ---------------------------------------------------------------- an input where the check fails

  /** A component with one plan, which holds one activity. */
  function OnePlan(c: Component, k: PlanId, name: string, key: string): Store {
    Store(
      {c}, {}, {},
      map[k := Plan(c.project, Some(name), Some(c), "draft_plan")],
      map[ActivityId(k, key) := Activity("verification", Planned, 1)],
      {})
  }

  /** A spec without elements or activities that names the plan of a context. */
  function EmptySpec(c: Component, k: PlanId, name: string): Seed {
    Seed(c.name, [], [], name, k.context, "draft_plan", [], [])
  }

  lemma OnePlanMaterializable(c: Component, k: PlanId, name: string, newName: string, key: string, types: set<string>)
    requires name != newName
    ensures var db := OnePlan(c, k, name, key);
            && db.Valid() && NamedPlans(db.plans, c.project, newName) == {}
            && Materializable(db, types, c.project, k.package, k.context, EmptySpec(c, k, newName))
  {
  }

  lemma OnePlanRenamed(c: Component, k: PlanId, name: string, newName: string, key: string, types: set<string>)
    requires name != newName
    ensures Materialized(OnePlan(c, k, name, key), OnePlan(c, k, newName, key), types, c.project, k.package, EmptySpec(c, k, newName))
  {
    var before, after, seed := OnePlan(c, k, name, key), OnePlan(c, k, newName, key), EmptySpec(c, k, newName);
    OnePlanMaterializable(c, k, name, newName, key, types);
    NoActivitiesWritten(before, k, seed);
    NoRealizationsAdded(before, after, types, c, seed);
  }

  lemma NoActivitiesWritten(before: Store, k: PlanId, seed: Seed)
    requires seed.activities == [] && seed.dependencies == []
    ensures AllKnown(seed.activities)
    ensures ActivitiesOutside(before.activities, {}) + ActivityRows(k, seed.activities) == before.activities
    ensures DependenciesOutside(before.dependencies, {}) + DependencyRows(k, seed.dependencies) == before.dependencies
  {
  }

  lemma NoRealizationsAdded(before: Store, after: Store, types: set<string>, c: Component, seed: Seed)
    requires before.realizations == after.realizations && seed.elements == [] && seed.realizations == []
    ensures RealizationsAdded(before.realizations, after, types, c, seed)
  {
    var ids: map<string, Element> := map[];
    assert ElementLookup(ids, after.elements, c, Names(seed.elements));
    assert after.realizations == before.realizations + RealizationRows(ids, types, seed.realizations);
  }

  lemma RenamedRunLeavesGap(c: Component, k: PlanId, name: string, newName: string, key: string, types: set<string>)
    requires name != newName
    ensures var seed := EmptySpec(c, k, newName);
            && Run(OnePlan(c, k, name, key), OnePlan(c, k, newName, key), types, c.project, k.package, k.context, seed)
            && Gaps(LoadModelDetail(OnePlan(c, k, newName, key), c.name, newName), seed) != []
  {
    OnePlanMaterializable(c, k, name, newName, key, types);
    OnePlanRenamed(c, k, name, newName, key, types);
    RenameKeepsStaleActivities(OnePlan(c, k, name, key), OnePlan(c, k, newName, key), types,
      c.project, k.package, k.context, EmptySpec(c, k, newName), key);
  }

  const OWNER := Component("project", "C")
  const CONTEXT := PlanId("package", "context")

  /** A plan "old" renamed to "new" by its spec: the run succeeds and keeps the activity the spec
      does not list, so the checker reports a gap. */
  lemma RenameLeavesGap(types: set<string>)
    ensures OnePlan(OWNER, CONTEXT, "old", "stale").Valid()
    ensures Run(OnePlan(OWNER, CONTEXT, "old", "stale"), OnePlan(OWNER, CONTEXT, "new", "stale"), types,
                "project", "package", "context", EmptySpec(OWNER, CONTEXT, "new"))
    ensures Gaps(LoadModelDetail(OnePlan(OWNER, CONTEXT, "new", "stale"), "C", "new"), EmptySpec(OWNER, CONTEXT, "new")) != []
  {
    assert "old"[0] != "new"[0];
    OnePlanMaterializable(OWNER, CONTEXT, "old", "new", "stale", types);
    RenamedRunLeavesGap(OWNER, CONTEXT, "old", "new", "stale", types);
  }

  // ---------------------------------------------------------------- the second run

  /** A second materialization can always succeed, and what it clears is the plan itself. */
  lemma StillMaterializable(s0: Store, s1: Store, types: set<string>, project: string, package: string, anchor: string, seed: Seed)
    requires Run(s0, s1, types, project, package, anchor, seed)
    ensures Materializable(s1, types, project, package, anchor, seed)
    ensures NamedPlans(s1.plans, project, seed.plan) == {PlanId(package, seed.context)}
  {
    var c, k := Component(project, seed.component), PlanId(package, seed.context);
    SeededKeysPresent(s0, s1, types, project, package, seed);
    forall r | r in seed.realizations ensures RealizationWritable(s1, types, c, seed.realizations, r.key) {
      var i :| 0 <= i < |seed.realizations| && seed.realizations[i] == r;
      assert RealizationKeys(seed.realizations)[i] == r.key;
    }
    NamedAfter(s0.plans, k, project, seed.plan, Some(c), seed.planStatus);
    assert Anchored(s1.plans, project, package, anchor) by { assert k in s1.plans; }
  }

  lemma NamedAfter(plans: map<PlanId, Plan>, k: PlanId, project: string, name: string, c: Option<Component>, authority: string)
    requires NamedPlans(plans, project, name) <= {k}
    ensures NamedPlans(plans[k := Plan(project, Some(name), c, authority)], project, name) == {k}
  {
    var now := plans[k := Plan(project, Some(name), c, authority)];
    forall l | l in NamedPlans(now, project, name) ensures l in {k} {
      assert l in {k} || l in NamedPlans(plans, project, name);
    }
  }

  lemma SecondRunsPlan(s0: Store, s1: Store, s2: Store, types: set<string>, project: string, package: string, anchor: string, seed: Seed)
    requires Run(s0, s1, types, project, package, anchor, seed)
    requires Materialized(s1, s2, types, project, package, seed)
    ensures var k := PlanId(package, seed.context);
            && s2.activities == ActivitiesOutside(s1.activities, {k}) + ActivityRows(k, seed.activities)
            && s2.dependencies == DependenciesOutside(s1.dependencies, {k}) + DependencyRows(k, seed.dependencies)
  {
    StillMaterializable(s0, s1, types, project, package, anchor, seed);
  }

  /** Clearing a plan and writing its rows again changes nothing. */
  lemma RewriteActivities(activities: map<ActivityId, Activity>, k: PlanId, seeds: seq<ActivitySeed>)
    requires AllKnown(seeds)
    requires forall a :: a in activities ==> a.plan != k
    ensures var written := activities + ActivityRows(k, seeds);
            ActivitiesOutside(written, {k}) + ActivityRows(k, seeds) == written
  {
    ActivityRowKeys(k, seeds);
    assert ActivitiesOutside(activities + ActivityRows(k, seeds), {k}) == activities;
  }

  lemma RewriteDependencies(dependencies: set<Dependency>, k: PlanId, seeds: seq<DependencySeed>)
    requires forall d :: d in dependencies ==> d.plan != k
    ensures var written := dependencies + DependencyRows(k, seeds);
            DependenciesOutside(written, {k}) + DependencyRows(k, seeds) == written
  {
  }

  lemma NothingLeftBehind(db: Store, project: string, package: string, seed: Seed)
    requires db.Valid() && PlanFree(db, project, package, seed)
    ensures var k, gone := PlanId(package, seed.context), NamedPlans(db.plans, project, seed.plan);
            && (forall a :: a in ActivitiesOutside(db.activities, gone) ==> a.plan != k)
            && (forall d :: d in DependenciesOutside(db.dependencies, gone) ==> d.plan != k)
  {
    var k := PlanId(package, seed.context);
    if k !in db.plans { NoRowsOutsidePlans(db, k); }
  }

  /** A second materialization succeeds, keeps every key set, and leaves the plan with exactly the
      spec's activities and dependencies; unless the first run renamed the plan, the second
      changes neither. */
  lemma SecondRun(s0: Store, s1: Store, s2: Store, types: set<string>, project: string, package: string, anchor: string, seed: Seed)
    requires s0.Valid() && Run(s0, s1, types, project, package, anchor, seed)
    requires Materialized(s1, s2, types, project, package, seed)
    ensures Run(s1, s2, types, project, package, anchor, seed)
    ensures s2.components == s1.components && s2.elements == s1.elements && s2.plans == s1.plans
    ensures var c, k := Component(project, seed.component), PlanId(package, seed.context);
            && RealizationKeysOf(s2.realizations, c) == RealizationKeysOf(s1.realizations, c)
            && ActivityKeysOf(s2.activities.Keys, k) == Elements(ActivityKeys(seed.activities))
            && PairsOf(s2.dependencies, k) == Elements(DependencyPairs(seed.dependencies))
    ensures PlanFree(s0, project, package, seed) ==> s2.activities == s1.activities && s2.dependencies == s1.dependencies
  {
    var k := PlanId(package, seed.context);
    StillMaterializable(s0, s1, types, project, package, anchor, seed);
    SecondRunsKeys(s0, s1, s2, types, project, package, anchor, seed);
    SecondRunsPlan(s0, s1, s2, types, project, package, anchor, seed);
    if PlanFree(s0, project, package, seed) {
      var gone := NamedPlans(s0.plans, project, seed.plan);
      NothingLeftBehind(s0, project, package, seed);
      RewriteActivities(ActivitiesOutside(s0.activities, gone), k, seed.activities);
      RewriteDependencies(DependenciesOutside(s0.dependencies, gone), k, seed.dependencies);
    }
  }

  lemma SecondRunsKeys(s0: Store, s1: Store, s2: Store, types: set<string>, project: string, package: string, anchor: string, seed: Seed)
    requires Run(s0, s1, types, project, package, anchor, seed) && Run(s1, s2, types, project, package, anchor, seed)
    ensures var c, k := Component(project, seed.component), PlanId(package, seed.context);
            && RealizationKeysOf(s2.realizations, c) == RealizationKeysOf(s1.realizations, c)
            && ActivityKeysOf(s2.activities.Keys, k) == Elements(ActivityKeys(seed.activities))
            && PairsOf(s2.dependencies, k) == Elements(DependencyPairs(seed.dependencies))
  {
    var k := PlanId(package, seed.context);
    StillMaterializable(s0, s1, types, project, package, anchor, seed);
    ComponentKeysAfter(s0, s1, types, project, package, anchor, seed);
    ComponentKeysAfter(s1, s2, types, project, package, anchor, seed);
    PlanKeysAfter(s1, s2, types, project, package, anchor, seed, k);
  }

  /** Two runs in a row are checked clean exactly when the start was tidy and no other plan that
      names the component holds stale rows: the second run clears what a rename left behind. */
  lemma SecondRunHealsIff(s0: Store, s1: Store, s2: Store, types: set<string>, project: string, package: string, anchor: string, seed: Seed)
    requires Run(s0, s1, types, project, package, anchor, seed)
    requires Materialized(s1, s2, types, project, package, seed)
    ensures Gaps(LoadModelDetail(s2, seed.component, seed.plan), seed) == [] <==>
            var c := Component(project, seed.component);
            Tidy(s0, c, seed) && NoStale(s0, seed, Twins(s0.plans, PlanId(package, seed.context), c, seed.plan))
  {
    var c, k := Component(project, seed.component), PlanId(package, seed.context);
    StillMaterializable(s0, s1, types, project, package, anchor, seed);
    CleanAfterIff(s1, s2, types, project, package, anchor, seed);
    TidyAgain(s0, s1, types, project, package, anchor, seed);
    TwinsAgain(s0, s1, types, project, package, anchor, seed);
  }

  lemma TidyAgain(s0: Store, s1: Store, types: set<string>, project: string, package: string, anchor: string, seed: Seed)
    requires Run(s0, s1, types, project, package, anchor, seed)
    ensures var c := Component(project, seed.component); Tidy(s1, c, seed) <==> Tidy(s0, c, seed)
  {
    ComponentKeysAfter(s0, s1, types, project, package, anchor, seed);
    TargetsAfter(s0, s1, types, project, package, anchor, seed);
  }

  lemma TwinsAgain(s0: Store, s1: Store, types: set<string>, project: string, package: string, anchor: string, seed: Seed)
    requires Run(s0, s1, types, project, package, anchor, seed)
    ensures var twins := Twins(s0.plans, PlanId(package, seed.context), Component(project, seed.component), seed.plan);
            Survivors(s1.plans, project, package, seed) == twins && (NoStale(s1, seed, twins) <==> NoStale(s0, seed, twins))
  {
    var c, k := Component(project, seed.component), PlanId(package, seed.context);
    var twins := Twins(s0.plans, k, c, seed.plan);
    StillMaterializable(s0, s1, types, project, package, anchor, seed);
    assert Twins(s1.plans, k, c, seed.plan) == twins;
    OtherPlansKept(s0, s1, types, project, package, anchor, seed, twins);
    assert NoStale(s1, seed, twins) <==> NoStale(s0, seed, twins);
  }

  lemma OtherPlansKept(s0: Store, s1: Store, types: set<string>, project: string, package: string, anchor: string, seed: Seed, plans: set<PlanId>)
    requires Run(s0, s1, types, project, package, anchor, seed)
    requires PlanId(package, seed.context) !in plans
    ensures forall a: ActivityId :: a.plan in plans ==> (a in s0.activities <==> a in s1.activities)
    ensures forall d: Dependency :: d.plan in plans ==> (d in s0.dependencies <==> d in s1.dependencies)
  {
    ActivityRowKeys(PlanId(package, seed.context), seed.activities);
  }
}
