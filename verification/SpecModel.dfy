/** The seed a component spec yields and the store it is materialized into.  Rows are identified
    by their unique keys. */
module SpecModel {
  import opened Wrappers
  import opened Ordering
  import opened PlanModel

  datatype ElementSeed = ElementSeed(name: string, kind: string)
  datatype RealizationSeed = RealizationSeed(element: string, kind: string, key: string)
  datatype ActivitySeed = ActivitySeed(key: string, sequence: int, kind: string, element: string, realizationKind: string)
  datatype DependencySeed = DependencySeed(activity: string, dependsOn: string, kind: string)

  datatype Seed = Seed(
    component: string,
    elements: seq<ElementSeed>,
    realizations: seq<RealizationSeed>,
    plan: string, context: string, planStatus: string,
    activities: seq<ActivitySeed>,
    dependencies: seq<DependencySeed>)

  function Names(elements: seq<ElementSeed>): seq<string> {
    seq(|elements|, i requires 0 <= i < |elements| => elements[i].name)
  }

  function RealizationKeys(realizations: seq<RealizationSeed>): seq<string> {
    seq(|realizations|, i requires 0 <= i < |realizations| => realizations[i].key)
  }

  function ActivityKeys(activities: seq<ActivitySeed>): seq<string> {
    seq(|activities|, i requires 0 <= i < |activities| => activities[i].key)
  }

  function PairText(predecessor: string, successor: string): string {
    predecessor + "->" + successor
  }

  function DependencyPairs(dependencies: seq<DependencySeed>): seq<string> {
    seq(|dependencies|, i requires 0 <= i < |dependencies| => PairText(dependencies[i].dependsOn, dependencies[i].activity))
  }

  predicate DistinctKeys(seed: Seed) {
    && Distinct(Names(seed.elements)) && Distinct(RealizationKeys(seed.realizations))
    && Distinct(ActivityKeys(seed.activities)) && Distinct(DependencyPairs(seed.dependencies))
  }

  /** What extraction guarantees: every reference inside the seed resolves. */
  predicate RefsResolve(seed: Seed) {
    && (forall r :: r in seed.realizations ==> r.element in Names(seed.elements))
    && (forall a :: a in seed.activities ==> a.element in Names(seed.elements))
    && (forall d :: d in seed.dependencies ==>
          d.activity in ActivityKeys(seed.activities) && d.dependsOn in ActivityKeys(seed.activities))
  }

  datatype Component = Component(project: string, name: string)
  datatype Element = Element(component: Component, elementType: string, key: string)
  datatype Realization = Realization(element: Element, realizationType: string, key: string)

  datatype Plan = Plan(project: string, name: Option<string>, component: Option<Component>, authority: string)
  datatype Activity = Activity(kind: string, state: ActivityState, sequence: int)
  datatype Dependency = Dependency(plan: PlanId, predecessor: string, successor: string)

  datatype Store = Store(
    components: set<Component>,
    elements: set<Element>,
    realizations: set<Realization>,
    plans: map<PlanId, Plan>,
    activities: map<ActivityId, Activity>,
    dependencies: set<Dependency>)
  {
    /** Foreign keys, the unique plan name per project, and the ban on self-dependencies. */
    predicate Valid() {
      && (forall e :: e in elements ==> e.component in components)
      && (forall r :: r in realizations ==> r.element in elements)
      && (forall k :: k in plans && plans[k].component.Some? ==> plans[k].component.value in components)
      && (forall k, l :: (k in plans && l in plans && plans[k].name.Some? &&
            plans[k].name == plans[l].name && plans[k].project == plans[l].project) ==> k == l)
      && (forall a :: a in activities ==> a.plan in plans)
      && (forall d :: d in dependencies ==>
            && d.predecessor != d.successor
            && ActivityId(d.plan, d.predecessor) in activities && ActivityId(d.plan, d.successor) in activities)
    }
  }

  function ElementKeysOf(elements: set<Element>, c: Component): set<string> {
    set e | e in elements && e.component == c :: e.key
  }

  function RealizationKeysOf(realizations: set<Realization>, c: Component): set<string> {
    set r | r in realizations && r.element.component == c :: r.key
  }

  function ActivityKeysOf(activities: set<ActivityId>, plan: PlanId): set<string> {
    set a | a in activities && a.plan == plan :: a.key
  }

  function PairsOf(dependencies: set<Dependency>, plan: PlanId): set<string> {
    set d | d in dependencies && d.plan == plan :: PairText(d.predecessor, d.successor)
  }
}
