/** The rows a materialization stores, told from the seed: kind, state and sequence of every
    activity, and the type of every element and realization. */
module SpecRowLaws {
  import opened Wrappers
  import opened Ordering
  import opened PlanModel
  import opened SpecModel
  import opened SpecStore
  import opened SpecStoreLaws

  // ---------------------------------------------------------------- activities

  /** No later seed has the same key; with distinct keys every seed stands. */
  predicate Stands(seeds: seq<ActivitySeed>, i: nat)
    requires i < |seeds|
  {
    forall j :: i < j < |seeds| ==> seeds[j].key != seeds[i].key
  }

  lemma DistinctStand(seeds: seq<ActivitySeed>)
    requires Distinct(ActivityKeys(seeds))
    ensures forall i :: 0 <= i < |seeds| ==> Stands(seeds, i)
  {
    forall i, j | 0 <= i < j < |seeds| ensures seeds[j].key != seeds[i].key {
      assert ActivityKeys(seeds)[i] != ActivityKeys(seeds)[j];
    }
  }

  lemma {:induction false} StandingSeed(seeds: seq<ActivitySeed>, key: string) returns (i: nat)
    requires key in ActivityKeys(seeds)
    ensures i < |seeds| && seeds[i].key == key && Stands(seeds, i)
  {
    var n := |seeds| - 1;
    if seeds[n].key == key {
      i := n;
    } else {
      assert ActivityKeys(seeds) == ActivityKeys(seeds[..n]) + [seeds[n].key];
      i := StandingSeed(seeds[..n], key);
    }
  }

  /** The stored kind of a vocabulary word. */
  ghost predicate StoredKind(word: string, kind: string) {
    || (word == "verification" && kind == "verification")
    || (word in {"contract-authoring", "dto-materialization", "service-implementation"} && kind == "artifact_construction")
  }

  ghost predicate StoresActivity(rows: map<ActivityId, Activity>, id: ActivityId, a: ActivitySeed) {
    id in rows && rows[id].sequence == a.sequence && rows[id].state == Planned && StoredKind(a.kind, rows[id].kind)
  }

  lemma {:induction false} RowsStore(plan: PlanId, seeds: seq<ActivitySeed>, i: nat)
    requires AllKnown(seeds) && i < |seeds| && Stands(seeds, i)
    ensures StoresActivity(ActivityRows(plan, seeds), ActivityId(plan, seeds[i].key), seeds[i])
  {
    var n := |seeds| - 1;
    if i < n {
      assert Stands(seeds[..n], i);
      RowsStore(plan, seeds[..n], i);
      assert seeds[n].key != seeds[i].key;
    } else {
      assert KnownActivity(seeds[n]);
      assert seeds[n] in seeds;
    }
  }

  /** After a run every activity seed that no later one overrides is stored under its key, planned,
      with its own sequence and the kind its word stands for. */
  lemma StoredActivities(before: Store, after: Store, types: set<string>, project: string, package: string, anchor: string, seed: Seed, i: nat)
    requires Run(before, after, types, project, package, anchor, seed)
    requires i < |seed.activities| && Stands(seed.activities, i)
    ensures StoresActivity(after.activities, ActivityId(PlanId(package, seed.context), seed.activities[i].key), seed.activities[i])
  {
    RowsStore(PlanId(package, seed.context), seed.activities, i);
  }

  // ---------------------------------------------------------------- elements and realizations

  /** The element type of a vocabulary word. */
  ghost predicate StoredType(word: string, elementType: string) {
    || (word == "interface" && elementType == "interfaces")
    || (word == "dto" && elementType == "data_contract")
    || (word == "implementation" && elementType == "functions")
    || (word == "verification-surface" && elementType == "verification_surfaces")
  }

  lemma TypeOfWord(word: string, elementType: string)
    ensures StoredType(word, elementType) <==> word in ELEMENT_TYPES && ELEMENT_TYPES[word] == elementType
  {
  }

  lemma RowsOfElements(c: Component, seeds: seq<ElementSeed>, e: Element)
    ensures e in ElementRows(c, seeds) <==>
            e.component == c && exists s :: s in seeds && s.name == e.key && StoredType(s.kind, e.elementType)
  {
    forall s | s in seeds ensures StoredType(s.kind, e.elementType) <==> s.kind in ELEMENT_TYPES && ELEMENT_TYPES[s.kind] == e.elementType {
      TypeOfWord(s.kind, e.elementType);
    }
    if s :| s in seeds && s.name == e.key && StoredType(s.kind, e.elementType) && e.component == c {
      assert e == Element(c, ELEMENT_TYPES[s.kind], s.name);
    }
  }

  /** A run adds exactly the elements its seeds stand for. */
  lemma StoredElements(before: Store, after: Store, types: set<string>, project: string, package: string, anchor: string, seed: Seed, e: Element)
    requires Run(before, after, types, project, package, anchor, seed)
    ensures e in after.elements <==>
            e in before.elements ||
            (e.component == Component(project, seed.component) &&
             exists s :: s in seed.elements && s.name == e.key && StoredType(s.kind, e.elementType))
  {
    RowsOfElements(Component(project, seed.component), seed.elements, e);
  }

  /** A realization of a registered type is stored under its key at an element of the component with
      the seed's element name. */
  lemma StoredRealizations(before: Store, after: Store, types: set<string>, project: string, package: string, anchor: string, seed: Seed, s: RealizationSeed)
    requires Run(before, after, types, project, package, anchor, seed)
    requires s in seed.realizations && s.kind in types
    ensures exists e :: e in after.elements && e.component == Component(project, seed.component) && e.key == s.element &&
                        Realization(e, s.kind, s.key) in after.realizations
  {
    var c := Component(project, seed.component);
    var ids :| ElementLookup(ids, after.elements, c, Names(seed.elements)) &&
               after.realizations == before.realizations + RealizationRows(ids, types, seed.realizations);
    assert s.element in ids;
    assert Realization(ids[s.element], s.kind, s.key) in RealizationRows(ids, types, seed.realizations);
  }

  // ---------------------------------------------------------------- when a run succeeds

  /** The plan states the store accepts. */
  predicate StoredPlanState(state: string) {
    || state == "draft_plan" || state == "approved_plan" || state == "superseded_plan" || state == "rejected_plan"
    || state == "active_plan" || state == "partially_realized_plan" || state == "completed_plan"
    || state == "blocked_plan" || state == "deferred_plan"
  }

  lemma PlanStateIff(state: string)
    ensures state in PLAN_STATES <==> StoredPlanState(state)
  {
  }

  predicate StorableActivity(a: ActivitySeed, seed: Seed) {
    && -2147483648 <= a.sequence <= 2147483647
    && (a.kind == "contract-authoring" || a.kind == "dto-materialization" || a.kind == "service-implementation" || a.kind == "verification")
    && exists r :: r in seed.realizations && r.element == a.element && r.kind == a.realizationKind
  }

  lemma StorableIff(a: ActivitySeed, seed: Seed)
    ensures StorableActivity(a, seed) <==> HasMatch(a, seed.realizations) && KnownActivity(a)
  {
  }

  /** What the starting store must look like: the design package has an anchor plan, the row of the
      seed's context is free, and no other plan of the project has the name. */
  ghost predicate RoomFor(db: Store, project: string, package: string, anchor: string, seed: Seed) {
    var k := PlanId(package, seed.context);
    && (PlanId(package, anchor) in db.plans || exists l :: l in db.plans && l.package == package && db.plans[l].project == project)
    && (k !in db.plans || db.plans[k].name == Some(seed.plan) || db.plans[k].component == Some(Component(project, seed.component)))
    && (forall l :: l in db.plans && db.plans[l].project == project && db.plans[l].name == Some(seed.plan) ==> l == k)
  }

  /** A realization row of the key will be there: one is stored, or a seed of the key has a registered
      type. */
  ghost predicate RealizationThere(db: Store, types: set<string>, c: Component, seed: Seed, key: string) {
    || (exists r :: r in db.realizations && r.element.component == c && r.key == key)
    || (exists s :: s in seed.realizations && s.key == key && s.kind in types)
  }

  lemma ThereIff(db: Store, types: set<string>, c: Component, seed: Seed, key: string)
    ensures RealizationThere(db, types, c, seed, key) <==> RealizationWritable(db, types, c, seed.realizations, key)
  {
    assert key in RealizationKeysOf(db.realizations, c) <==> exists r :: r in db.realizations && r.element.component == c && r.key == key;
  }

  /** A run succeeds exactly when the store has room, and every element, realization, activity,
      dependency and the plan state of the seed can be stored. */
  lemma SucceedsIff(db: Store, types: set<string>, project: string, package: string, anchor: string, seed: Seed)
    ensures Materializable(db, types, project, package, anchor, seed) <==>
      && RoomFor(db, project, package, anchor, seed)
      && (forall e :: e in seed.elements ==> exists t :: StoredType(e.kind, t))
      && (forall r :: r in seed.realizations ==> RealizationThere(db, types, Component(project, seed.component), seed, r.key))
      && StoredPlanState(seed.planStatus)
      && (forall a :: a in seed.activities ==> StorableActivity(a, seed))
      && (forall d :: d in seed.dependencies ==> d.kind == "hard" && d.activity != d.dependsOn)
  {
    var c := Component(project, seed.component);
    RoomIff(db, project, package, anchor, seed);
    PlanStateIff(seed.planStatus);
    forall e ensures e in seed.elements ==> (e.kind in ELEMENT_TYPES <==> exists t :: StoredType(e.kind, t)) { WordKnown(e.kind); }
    forall key ensures RealizationThere(db, types, c, seed, key) <==> RealizationWritable(db, types, c, seed.realizations, key) {
      ThereIff(db, types, c, seed, key);
    }
    forall a ensures StorableActivity(a, seed) <==> HasMatch(a, seed.realizations) && KnownActivity(a) { StorableIff(a, seed); }
  }

  lemma WordKnown(word: string)
    ensures word in ELEMENT_TYPES <==> exists t :: StoredType(word, t)
  {
    if word in ELEMENT_TYPES { TypeOfWord(word, ELEMENT_TYPES[word]); }
    if t :| StoredType(word, t) { TypeOfWord(word, t); }
  }

  lemma RoomIff(db: Store, project: string, package: string, anchor: string, seed: Seed)
    ensures var c, k := Component(project, seed.component), PlanId(package, seed.context);
            RoomFor(db, project, package, anchor, seed) <==>
            && Anchored(db.plans, project, package, anchor) && ContextFree(db.plans, k, seed.plan, c)
            && NamedPlans(db.plans, c.project, seed.plan) <= {k}
  {
    assert forall l :: l in NamedPlans(db.plans, project, seed.plan) <==>
      l in db.plans && db.plans[l].project == project && db.plans[l].name == Some(seed.plan);
  }
}
