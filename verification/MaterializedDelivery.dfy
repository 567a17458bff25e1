/** From spec to delivery: what the delivery projection makes of a plan fresh from the
    materializer. */
module MaterializedDelivery {
  import opened Ordering
  import opened PlanModel
  import opened SpecModel
  import opened SpecStore
  import opened SpecStoreLaws
  import opened SpecRowLaws
  import DeliveryScheduler
  import DeliveryPlacement

  /** The rows the projection reads, out of the store the materializer writes. */
  function Projected(db: Store): DeliveryScheduler.Store {
    DeliveryScheduler.Store(
      map k | k in db.plans :: db.plans[k].authority,
      map a | a in db.activities :: DeliveryScheduler.Activity(db.activities[a].state, db.activities[a].sequence),
      set d | d in db.dependencies :: (ActivityId(d.plan, d.predecessor), ActivityId(d.plan, d.successor)))
  }

  predicate DependsOn(seed: Seed, successor: string, predecessor: string) {
    exists d :: d in seed.dependencies && d.dependsOn == predecessor && d.activity == successor
  }

  /** A closed walk through the seed's dependency table, from predecessor to successor. */
  ghost predicate SeedCycle(seed: Seed, w: seq<string>) {
    && |w| >= 2 && w[0] == w[|w| - 1]
    && forall i :: 0 < i < |w| ==> DependsOn(seed, w[i], w[i - 1])
  }

  ghost predicate HoldsSequence(db: DeliveryScheduler.Store, id: ActivityId, sequence: int) {
    id in db.activities && db.activities[id].sequence == sequence
  }

  ghost predicate HoldsSequences(db: DeliveryScheduler.Store, plan: PlanId, seeds: seq<ActivitySeed>) {
    forall i :: 0 <= i < |seeds| && Stands(seeds, i) ==> HoldsSequence(db, ActivityId(plan, seeds[i].key), seeds[i].sequence)
  }

  /** The projected plan is the seed's: its activities, all planned and with their sequence, and its
      dependencies. */
  ghost predicate HoldsSeed(db: DeliveryScheduler.Store, plan: PlanId, seed: Seed) {
    HoldsShape(db, plan, seed) && HoldsSequences(db, plan, seed.activities)
  }

  ghost predicate HoldsShape(db: DeliveryScheduler.Store, plan: PlanId, seed: Seed) {
    && (forall key :: ActivityId(plan, key) in db.activities <==> key in ActivityKeys(seed.activities))
    && (forall a :: a in db.activities && a.plan == plan ==> db.activities[a].state.Planned?)
    && (forall p, a :: (p, a) in db.precedes && (p.plan == plan || a.plan == plan) ==> p.plan == a.plan)
    && (forall p, a :: (ActivityId(plan, p), ActivityId(plan, a)) in db.precedes <==> DependsOn(seed, a, p))
  }

  lemma {:induction false} ActivityRowsPlanned(plan: PlanId, seeds: seq<ActivitySeed>)
    requires AllKnown(seeds)
    ensures forall a :: a in ActivityRows(plan, seeds) ==> ActivityRows(plan, seeds)[a].state.Planned?
  {
    if seeds != [] { ActivityRowsPlanned(plan, seeds[..|seeds| - 1]); }
  }

  lemma FreshSequences(before: Store, after: Store, types: set<string>, project: string, package: string, anchor: string, seed: Seed)
    requires Run(before, after, types, project, package, anchor, seed)
    ensures HoldsSequences(Projected(after), PlanId(package, seed.context), seed.activities)
  {
    var k := PlanId(package, seed.context);
    forall i | 0 <= i < |seed.activities| && Stands(seed.activities, i)
      ensures HoldsSequence(Projected(after), ActivityId(k, seed.activities[i].key), seed.activities[i].sequence)
    {
      StoredActivities(before, after, types, project, package, anchor, seed, i);
    }
  }

  lemma FreshDependencies(dependencies: set<Dependency>, others: set<Dependency>, k: PlanId, seed: Seed, p: string, a: string)
    requires dependencies == others + DependencyRows(k, seed.dependencies) && forall d :: d in others ==> d.plan != k
    ensures Dependency(k, p, a) in dependencies <==> DependsOn(seed, a, p)
  {
    if s :| s in seed.dependencies && s.dependsOn == p && s.activity == a {
      assert Dependency(k, p, a) in DependencyRows(k, seed.dependencies);
    }
  }

  lemma FreshPlanHoldsSeed(before: Store, after: Store, types: set<string>, project: string, package: string, anchor: string, seed: Seed)
    requires before.Valid() && PlanFree(before, project, package, seed)
    requires Run(before, after, types, project, package, anchor, seed)
    ensures HoldsSeed(Projected(after), PlanId(package, seed.context), seed)
  {
    var k, gone := PlanId(package, seed.context), NamedPlans(before.plans, project, seed.plan);
    NothingLeftBehind(before, project, package, seed);
    ActivityRowKeys(k, seed.activities);
    ActivityRowsPlanned(k, seed.activities);
    FreshSequences(before, after, types, project, package, anchor, seed);
    forall p, a ensures (ActivityId(k, p), ActivityId(k, a)) in Projected(after).precedes <==> DependsOn(seed, a, p) {
      assert (ActivityId(k, p), ActivityId(k, a)) in Projected(after).precedes <==> Dependency(k, p, a) in after.dependencies;
      FreshDependencies(after.dependencies, DependenciesOutside(before.dependencies, gone), k, seed, p, a);
    }
  }

  function IdsOf(plan: PlanId, keys: seq<string>): seq<ActivityId> {
    seq(|keys|, i requires 0 <= i < |keys| => ActivityId(plan, keys[i]))
  }

  function KeysOf(ids: seq<ActivityId>): seq<string> {
    seq(|ids|, i requires 0 <= i < |ids| => ids[i].key)
  }

  /** The projection's open activities lie on a cycle exactly when the seed's table has one. */
  lemma CyclesAgree(db: DeliveryScheduler.Store, plan: PlanId, seed: Seed)
    requires RefsResolve(seed) && HoldsShape(db, plan, seed)
    ensures DeliveryScheduler.Acyclic(db, DeliveryScheduler.Incomplete(db, plan)) <==> forall w :: !SeedCycle(seed, w)
  {
    var open := DeliveryScheduler.Incomplete(db, plan);
    forall w | SeedCycle(seed, w) ensures exists v :: DeliveryScheduler.CycleWithin(db, open, v) {
      CycleLifts(db, plan, seed, w);
    }
    forall v | DeliveryScheduler.CycleWithin(db, open, v) ensures exists w :: SeedCycle(seed, w) {
      CycleDescends(db, plan, seed, v);
    }
  }

  lemma CycleLifts(db: DeliveryScheduler.Store, plan: PlanId, seed: Seed, w: seq<string>)
    requires RefsResolve(seed) && HoldsShape(db, plan, seed) && SeedCycle(seed, w)
    ensures DeliveryScheduler.CycleWithin(db, DeliveryScheduler.Incomplete(db, plan), IdsOf(plan, w))
  {
    var v := IdsOf(plan, w);
    forall i | 0 < i < |v| ensures DeliveryScheduler.Linked(db, v, i) {
      assert DependsOn(seed, w[i], w[i - 1]);
      assert (v[i - 1], v[i]) in db.precedes;
    }
    forall i | 0 <= i < |v| ensures v[i] in DeliveryScheduler.Incomplete(db, plan) {
      var j := if i == 0 then 1 else i;
      assert DependsOn(seed, w[j], w[j - 1]);
    }
  }

  lemma CycleDescends(db: DeliveryScheduler.Store, plan: PlanId, seed: Seed, v: seq<ActivityId>)
    requires HoldsShape(db, plan, seed)
    requires DeliveryScheduler.CycleWithin(db, DeliveryScheduler.Incomplete(db, plan), v)
    ensures SeedCycle(seed, KeysOf(v))
  {
    var w := KeysOf(v);
    forall i | 0 < i < |w| ensures DependsOn(seed, w[i], w[i - 1]) {
      assert v[i] in DeliveryScheduler.Incomplete(db, plan) && v[i - 1] in DeliveryScheduler.Incomplete(db, plan);
      assert DeliveryScheduler.Linked(db, v, i);
      assert v[i] == ActivityId(plan, w[i]) && v[i - 1] == ActivityId(plan, w[i - 1]);
    }
  }

  lemma IncompleteIsSeed(db: DeliveryScheduler.Store, plan: PlanId, seed: Seed)
    requires HoldsShape(db, plan, seed)
    ensures forall a :: a in DeliveryScheduler.Incomplete(db, plan) <==> a.plan == plan && a.key in ActivityKeys(seed.activities)
    ensures |DeliveryScheduler.Incomplete(db, plan)| == |Elements(ActivityKeys(seed.activities))|
  {
    var keys := Elements(ActivityKeys(seed.activities));
    ImageSize(plan, keys);
    forall a: ActivityId ensures a in DeliveryScheduler.Incomplete(db, plan) <==> a.plan == plan && a.key in keys {
      assert a == ActivityId(a.plan, a.key);
    }
    assert DeliveryScheduler.Incomplete(db, plan) == set key | key in keys :: ActivityId(plan, key);
  }

  lemma {:induction false} ImageSize(plan: PlanId, keys: set<string>)
    ensures |set key | key in keys :: ActivityId(plan, key)| == |keys|
  {
    if keys != {} {
      var key :| key in keys;
      ImageSize(plan, keys - {key});
      assert (set x | x in keys :: ActivityId(plan, x)) == (set x | x in keys - {key} :: ActivityId(plan, x)) + {ActivityId(plan, key)};
    }
  }

  /** A spec with no activity, or with approved plan status and a cycle-free dependency table. */
  ghost predicate Deliverable(seed: Seed) {
    seed.activities == [] || (seed.planStatus == "approved_plan" && forall w :: !SeedCycle(seed, w))
  }

  lemma FinishableIff(db: DeliveryScheduler.Store, plan: PlanId, seed: Seed)
    requires RefsResolve(seed) && HoldsShape(db, plan, seed)
    ensures DeliveryScheduler.Finishable(db, plan) <==>
            seed.activities == [] || (DeliveryScheduler.ExecutionReady(db, plan) && forall w :: !SeedCycle(seed, w))
  {
    var open := DeliveryScheduler.Incomplete(db, plan);
    IncompleteIsSeed(db, plan, seed);
    CyclesAgree(db, plan, seed);
    if seed.activities != [] {
      assert ActivityKeys(seed.activities)[0] in ActivityKeys(seed.activities);
      assert ActivityId(plan, ActivityKeys(seed.activities)[0]) in open;
    }
    forall a, p | a in open && p in DeliveryScheduler.Predecessors(db, a) ensures p in open {
      assert (p, a) in db.precedes;
      assert a == ActivityId(plan, a.key) && p == ActivityId(plan, p.key);
      assert DependsOn(seed, a.key, p.key);
    }
  }

  /** Spec to finish: some run of next-set completions finishes the materialized plan exactly when
      the seed is deliverable, and then every run that cannot go on has completed each activity key
      of the seed once. */
  lemma FreshPlanCanFinishIff(before: Store, after: Store, types: set<string>, project: string, package: string, anchor: string, seed: Seed)
    requires before.Valid() && PlanFree(before, project, package, seed)
    requires Run(before, after, types, project, package, anchor, seed)
    ensures var db, k := Projected(after), PlanId(package, seed.context);
            (exists run :: DeliveryScheduler.ValidRun(db, k, run) &&
                           DeliveryScheduler.Incomplete(DeliveryScheduler.After(db, k, run), k) == {}) <==> Deliverable(seed)
    ensures var db, k := Projected(after), PlanId(package, seed.context);
            forall run :: Deliverable(seed) && DeliveryScheduler.ValidRun(db, k, run) ==>
              (DeliveryScheduler.NextSet(DeliveryScheduler.After(db, k, run), k) == {} <==> |run| == |Elements(ActivityKeys(seed.activities))|)
  {
    var db, k := Projected(after), PlanId(package, seed.context);
    FreshPlanHoldsSeed(before, after, types, project, package, anchor, seed);
    AuthorityCarried(before, after, types, project, package, seed);
    FinishableIff(db, k, seed);
    DeliveryScheduler.CanFinishIff(db, k);
    forall run | Deliverable(seed) && DeliveryScheduler.ValidRun(db, k, run)
      ensures DeliveryScheduler.NextSet(DeliveryScheduler.After(db, k, run), k) == {} <==> |run| == |Elements(ActivityKeys(seed.activities))|
    {
      IncompleteIsSeed(db, k, seed);
      DeliveryScheduler.EveryRunFinishes(db, k, run);
    }
  }

  lemma AuthorityCarried(before: Store, after: Store, types: set<string>, project: string, package: string, seed: Seed)
    requires Materialized(before, after, types, project, package, seed)
    requires seed.planStatus in PLAN_STATES
    ensures DeliveryScheduler.ExecutionReady(Projected(after), PlanId(package, seed.context)) <==> seed.planStatus == "approved_plan"
  {
  }

  // ---------------------------------------------------------------- what a fresh plan offers first

  predicate Independent(seed: Seed, key: string) {
    forall d :: d in seed.dependencies ==> d.activity != key
  }

  lemma IndependentIff(seed: Seed, key: string)
    ensures Independent(seed, key) <==> forall p :: !DependsOn(seed, key, p)
  {
    forall d | d in seed.dependencies && d.activity == key ensures DependsOn(seed, key, d.dependsOn) {}
  }

  lemma StartableIff(db: DeliveryScheduler.Store, plan: PlanId, seed: Seed, key: string)
    requires HoldsSeed(db, plan, seed) && DeliveryScheduler.ExecutionReady(db, plan) && key in ActivityKeys(seed.activities)
    ensures DeliveryPlacement.Startable(db, plan, ActivityId(plan, key)) <==> Independent(seed, key)
  {
    var a := ActivityId(plan, key);
    DeliveryPlacement.EligibleIff(db, plan, a);
    IndependentIff(seed, key);
    forall p: string | DependsOn(seed, key, p) ensures !DeliveryPlacement.Free(db, a) {
      assert (ActivityId(plan, p), a) in db.precedes;
    }
    forall p: ActivityId | (p, a) in db.precedes ensures DependsOn(seed, key, p.key) {
      assert p == ActivityId(plan, p.key);
    }
  }

  /** An activity that depends on nothing, none such coming earlier. */
  predicate FirstIndependent(seed: Seed, i: nat)
    requires i < |seed.activities|
  {
    && Stands(seed.activities, i) && Independent(seed, seed.activities[i].key)
    && forall j :: 0 <= j < |seed.activities| && Stands(seed.activities, j) && Independent(seed, seed.activities[j].key) ==>
         seed.activities[i].sequence <= seed.activities[j].sequence
  }

  lemma FirstOffered(db: DeliveryScheduler.Store, plan: PlanId, seed: Seed, i: nat)
    requires HoldsSeed(db, plan, seed) && DeliveryScheduler.ExecutionReady(db, plan)
    requires i < |seed.activities| && Stands(seed.activities, i)
    ensures ActivityId(plan, seed.activities[i].key) in DeliveryScheduler.NextSet(db, plan) <==> FirstIndependent(seed, i)
  {
    var a := ActivityId(plan, seed.activities[i].key);
    assert ActivityKeys(seed.activities)[i] == seed.activities[i].key;
    DeliveryPlacement.SetsFromRows(db, plan, a);
    forall j | 0 <= j < |seed.activities| && Stands(seed.activities, j)
      ensures var b := ActivityId(plan, seed.activities[j].key);
              && (DeliveryPlacement.Startable(db, plan, b) <==> Independent(seed, seed.activities[j].key))
              && b in db.activities && db.activities[b].sequence == seed.activities[j].sequence
    {
      assert ActivityKeys(seed.activities)[j] == seed.activities[j].key;
      StartableIff(db, plan, seed, seed.activities[j].key);
    }
    forall b | DeliveryPlacement.Startable(db, plan, b)
      ensures exists j :: 0 <= j < |seed.activities| && Stands(seed.activities, j) && b == ActivityId(plan, seed.activities[j].key)
    {
      assert b == ActivityId(plan, b.key);
      var j := StandingSeed(seed.activities, b.key);
    }
  }

  /** An approved spec, freshly materialized: the next set is exactly the activities of the spec that
      depend on nothing and come first among those. */
  lemma FreshNextSet(before: Store, after: Store, types: set<string>, project: string, package: string, anchor: string, seed: Seed)
    requires before.Valid() && PlanFree(before, project, package, seed)
    requires Run(before, after, types, project, package, anchor, seed) && seed.planStatus == "approved_plan"
    ensures var k := PlanId(package, seed.context);
            forall a :: a in DeliveryScheduler.NextSet(Projected(after), k) <==>
              exists i :: 0 <= i < |seed.activities| && FirstIndependent(seed, i) && a == ActivityId(k, seed.activities[i].key)
  {
    var db, k := Projected(after), PlanId(package, seed.context);
    FreshPlanHoldsSeed(before, after, types, project, package, anchor, seed);
    AuthorityCarried(before, after, types, project, package, seed);
    forall i | 0 <= i < |seed.activities| && Stands(seed.activities, i)
      ensures ActivityId(k, seed.activities[i].key) in DeliveryScheduler.NextSet(db, k) <==> FirstIndependent(seed, i)
    {
      FirstOffered(db, k, seed, i);
    }
    forall a | a in DeliveryScheduler.NextSet(db, k)
      ensures exists i :: 0 <= i < |seed.activities| && FirstIndependent(seed, i) && a == ActivityId(k, seed.activities[i].key)
    {
      assert a == ActivityId(k, a.key);
      var i := StandingSeed(seed.activities, a.key);
    }
  }
}
