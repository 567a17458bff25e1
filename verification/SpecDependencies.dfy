/** What a clean report says about dependencies.  The checker compares texts "a->b", and a text can
    be read as more than one pair of keys when keys contain "->" themselves. */
module SpecDependencies {
  import opened Wrappers
  import opened Ordering
  import opened PlanModel
  import opened Text
  import opened SpecModel
  import opened SpecConsistency

  datatype KeyPair = KeyPair(predecessor: string, successor: string)

  function TextOf(p: KeyPair): string {
    PairText(p.predecessor, p.successor)
  }

  function SeedPairs(seed: Seed): set<KeyPair> {
    set d | d in seed.dependencies :: KeyPair(d.dependsOn, d.activity)
  }

  function ModelKeyPairs(db: Store, seed: Seed): set<KeyPair> {
    set d | d in db.dependencies && d.plan in TargetPlans(db, seed.component, seed.plan) :: KeyPair(d.predecessor, d.successor)
  }

  /** A pair the store can hold for the seed's activities: two different ones of them. */
  predicate Holdable(seed: Seed, p: KeyPair) {
    p.predecessor in ActivityKeys(seed.activities) && p.successor in ActivityKeys(seed.activities) && p.predecessor != p.successor
  }

  /** Told from the spec alone: no listed dependency shares its text with another pair of keys. */
  ghost predicate Unambiguous(seed: Seed) {
    forall d, p :: d in SeedPairs(seed) && Holdable(seed, p) && TextOf(p) == TextOf(d) ==> p == d
  }

  ghost predicate Realizable(seed: Seed, text: string) {
    exists p :: Holdable(seed, p) && TextOf(p) == text
  }

  /** Told from the spec alone: some valid store can pass the check. */
  ghost predicate Passable(seed: Seed) {
    && DistinctKeys(seed)
    && (seed.realizations != [] ==> seed.elements != [])
    && forall d :: d in SeedPairs(seed) ==> Realizable(seed, TextOf(d))
  }

  // ---------------------------------------------------------------- from a clean store

  lemma SeedTexts(seed: Seed)
    ensures forall text :: text in Elements(DependencyPairs(seed.dependencies)) <==> exists d :: d in SeedPairs(seed) && TextOf(d) == text
  {
    var texts := DependencyPairs(seed.dependencies);
    forall text | text in Elements(texts) ensures exists d :: d in SeedPairs(seed) && TextOf(d) == text {
      var i :| 0 <= i < |texts| && texts[i] == text;
      var d := seed.dependencies[i];
      assert d in seed.dependencies && KeyPair(d.dependsOn, d.activity) in SeedPairs(seed);
      assert TextOf(KeyPair(d.dependsOn, d.activity)) == text;
    }
    forall d | d in SeedPairs(seed) ensures TextOf(d) in Elements(texts) {
      var s :| s in seed.dependencies && d == KeyPair(s.dependsOn, s.activity);
      var i :| 0 <= i < |seed.dependencies| && seed.dependencies[i] == s;
      assert texts[i] == TextOf(d);
    }
  }

  lemma ModelTexts(db: Store, seed: Seed)
    ensures forall text :: text in ModelPairs(db, seed.component, seed.plan) <==> exists p :: p in ModelKeyPairs(db, seed) && TextOf(p) == text
  {
    forall text | text in ModelPairs(db, seed.component, seed.plan)
      ensures exists p :: p in ModelKeyPairs(db, seed) && TextOf(p) == text
    {
      var d :| d in db.dependencies && d.plan in TargetPlans(db, seed.component, seed.plan) && PairText(d.predecessor, d.successor) == text;
      assert KeyPair(d.predecessor, d.successor) in ModelKeyPairs(db, seed);
      assert TextOf(KeyPair(d.predecessor, d.successor)) == text;
    }
  }

  lemma ModelPairsHoldable(db: Store, seed: Seed)
    requires db.Valid() && Clean(db, seed)
    ensures forall p :: p in ModelKeyPairs(db, seed) ==> Holdable(seed, p)
  {
    forall p | p in ModelKeyPairs(db, seed) ensures Holdable(seed, p) {
      var d :| d in db.dependencies && d.plan in TargetPlans(db, seed.component, seed.plan) && p == KeyPair(d.predecessor, d.successor);
      assert ActivityId(d.plan, p.predecessor) in db.activities && ActivityId(d.plan, p.successor) in db.activities;
      assert p.predecessor in ModelActivityKeys(db, seed.component, seed.plan);
      assert p.successor in ModelActivityKeys(db, seed.component, seed.plan);
    }
  }

  /** The texts agree in a clean store: each pair of either side has a partner on the other. */
  lemma PartnersExist(db: Store, seed: Seed)
    requires Clean(db, seed)
    ensures forall d :: d in SeedPairs(seed) ==> exists p :: p in ModelKeyPairs(db, seed) && TextOf(p) == TextOf(d)
    ensures forall p :: p in ModelKeyPairs(db, seed) ==> exists d :: d in SeedPairs(seed) && TextOf(d) == TextOf(p)
  {
    SeedTexts(seed);
    ModelTexts(db, seed);
    forall d | d in SeedPairs(seed) ensures exists p :: p in ModelKeyPairs(db, seed) && TextOf(p) == TextOf(d) {
      assert TextOf(d) in ModelPairs(db, seed.component, seed.plan);
    }
    forall p | p in ModelKeyPairs(db, seed) ensures exists d :: d in SeedPairs(seed) && TextOf(d) == TextOf(p) {
      assert TextOf(p) in Elements(DependencyPairs(seed.dependencies));
    }
  }

  lemma RealizationsNeedElements(db: Store, seed: Seed)
    requires db.Valid() && Clean(db, seed) && seed.realizations != []
    ensures seed.elements != []
  {
    var key := RealizationKeys(seed.realizations)[0];
    assert key in Elements(RealizationKeys(seed.realizations));
    var r :| r in db.realizations && r.element.component in TargetComponents(db, seed.component) && r.key == key;
    assert r.element.key in ModelElementKeys(db, seed.component);
    assert r.element.key in Names(seed.elements);
  }

  lemma PartnersRealize(seed: Seed, held: set<KeyPair>)
    requires forall p :: p in held ==> Holdable(seed, p)
    requires forall d :: d in SeedPairs(seed) ==> exists p :: p in held && TextOf(p) == TextOf(d)
    ensures forall d :: d in SeedPairs(seed) ==> Realizable(seed, TextOf(d))
  {
    forall d | d in SeedPairs(seed) ensures Realizable(seed, TextOf(d)) {
      var p :| p in held && TextOf(p) == TextOf(d);
      assert Holdable(seed, p);
    }
  }

  lemma CleanIsPassable(db: Store, seed: Seed)
    requires db.Valid() && Clean(db, seed)
    ensures Passable(seed)
  {
    ModelPairsHoldable(db, seed);
    PartnersExist(db, seed);
    PartnersRealize(seed, ModelKeyPairs(db, seed));
    if seed.realizations != [] { RealizationsNeedElements(db, seed); }
  }

  lemma CleanHoldsSeedPairs(db: Store, seed: Seed)
    requires db.Valid() && Clean(db, seed) && Unambiguous(seed)
    ensures ModelKeyPairs(db, seed) == SeedPairs(seed)
  {
    ModelPairsHoldable(db, seed);
    PartnersExist(db, seed);
  }

  // ---------------------------------------------------------------- a clean store for a passable seed

  function Home(seed: Seed): Component {
    Component("", seed.component)
  }

  function HomePlan(seed: Seed): PlanId {
    PlanId("", seed.context)
  }

  function FirstElement(seed: Seed): Element {
    Element(Home(seed), "", if seed.elements == [] then "" else seed.elements[0].name)
  }

  /** One component and one plan with the spec's keys, and the given dependencies. */
  function StoreWith(seed: Seed, pairs: set<KeyPair>): Store {
    Store(
      {Home(seed)},
      set n | n in Names(seed.elements) :: Element(Home(seed), "", n),
      set key | key in RealizationKeys(seed.realizations) :: Realization(FirstElement(seed), "", key),
      map[HomePlan(seed) := Plan("", Some(seed.plan), Some(Home(seed)), seed.planStatus)],
      map key | key in ActivityKeys(seed.activities) :: ActivityId(HomePlan(seed), key) := Activity("", Planned, 0),
      set p | p in pairs :: Dependency(HomePlan(seed), p.predecessor, p.successor))
  }

  lemma StoreWithIsValid(seed: Seed, pairs: set<KeyPair>)
    requires seed.realizations != [] ==> seed.elements != []
    requires forall p :: p in pairs ==> Holdable(seed, p)
    ensures StoreWith(seed, pairs).Valid()
  {
    var db := StoreWith(seed, pairs);
    if seed.elements != [] {
      assert Names(seed.elements)[0] in Names(seed.elements);
      assert FirstElement(seed) in db.elements;
    }
    forall d | d in db.dependencies
      ensures d.predecessor != d.successor
      ensures ActivityId(d.plan, d.predecessor) in db.activities && ActivityId(d.plan, d.successor) in db.activities
    {
      var p :| p in pairs && d == Dependency(HomePlan(seed), p.predecessor, p.successor);
      assert Holdable(seed, p);
    }
  }

  lemma StoreWithQueries(seed: Seed, pairs: set<KeyPair>)
    ensures var db := StoreWith(seed, pairs);
            && TargetComponents(db, seed.component) == {Home(seed)}
            && TargetPlans(db, seed.component, seed.plan) == {HomePlan(seed)}
            && ModelElementKeys(db, seed.component) == Elements(Names(seed.elements))
            && ModelRealizationKeys(db, seed.component) == Elements(RealizationKeys(seed.realizations))
            && ModelActivityKeys(db, seed.component, seed.plan) == Elements(ActivityKeys(seed.activities))
            && ModelKeyPairs(db, seed) == pairs
  {
    var db := StoreWith(seed, pairs);
    assert TargetComponents(db, seed.component) == {Home(seed)};
    assert TargetPlans(db, seed.component, seed.plan) == {HomePlan(seed)};
    forall n | n in Names(seed.elements) ensures n in ModelElementKeys(db, seed.component) {
      assert Element(Home(seed), "", n) in db.elements;
    }
    forall key | key in RealizationKeys(seed.realizations) ensures key in ModelRealizationKeys(db, seed.component) {
      assert Realization(FirstElement(seed), "", key) in db.realizations;
    }
    forall key | key in ActivityKeys(seed.activities) ensures key in ModelActivityKeys(db, seed.component, seed.plan) {
      assert ActivityId(HomePlan(seed), key) in db.activities;
    }
    forall p | p in pairs ensures p in ModelKeyPairs(db, seed) {
      assert Dependency(HomePlan(seed), p.predecessor, p.successor) in db.dependencies;
    }
  }

  lemma StoreWithIsClean(seed: Seed, pairs: set<KeyPair>)
    requires DistinctKeys(seed)
    requires forall d :: d in SeedPairs(seed) ==> exists p :: p in pairs && TextOf(p) == TextOf(d)
    requires forall p :: p in pairs ==> exists d :: d in SeedPairs(seed) && TextOf(d) == TextOf(p)
    ensures Clean(StoreWith(seed, pairs), seed)
  {
    var db := StoreWith(seed, pairs);
    StoreWithQueries(seed, pairs);
    SeedTexts(seed);
    ModelTexts(db, seed);
    assert ModelPairs(db, seed.component, seed.plan) == Elements(DependencyPairs(seed.dependencies));
  }

  /** All pairs of the spec's keys that read like a listed dependency. */
  function LookAlikes(seed: Seed): set<KeyPair> {
    var keys := Elements(ActivityKeys(seed.activities));
    set a, b | a in keys && b in keys && a != b && PairText(a, b) in DependencyPairs(seed.dependencies) :: KeyPair(a, b)
  }

  lemma LookAlikesPass(seed: Seed)
    requires Passable(seed)
    ensures StoreWith(seed, LookAlikes(seed)).Valid() && Clean(StoreWith(seed, LookAlikes(seed)), seed)
    ensures ModelKeyPairs(StoreWith(seed, LookAlikes(seed)), seed) == LookAlikes(seed)
  {
    var pairs := LookAlikes(seed);
    SeedTexts(seed);
    forall d | d in SeedPairs(seed) ensures exists p :: p in pairs && TextOf(p) == TextOf(d) {
      assert Realizable(seed, TextOf(d));
      var p :| Holdable(seed, p) && TextOf(p) == TextOf(d);
      assert TextOf(p) in Elements(DependencyPairs(seed.dependencies));
      assert p == KeyPair(p.predecessor, p.successor) && p in pairs;
    }
    forall p | p in pairs ensures Holdable(seed, p) && exists d :: d in SeedPairs(seed) && TextOf(d) == TextOf(p) {
      assert TextOf(p) in Elements(DependencyPairs(seed.dependencies));
    }
    StoreWithIsValid(seed, pairs);
    StoreWithIsClean(seed, pairs);
    StoreWithQueries(seed, pairs);
  }

  /** Some valid store passes the check exactly when the spec is passable. */
  lemma PassableIff(seed: Seed)
    ensures (exists db: Store :: db.Valid() && Clean(db, seed)) <==> Passable(seed)
  {
    if Passable(seed) {
      LookAlikesPass(seed);
      var db := StoreWith(seed, LookAlikes(seed));
      assert db.Valid() && Clean(db, seed);
    }
    forall db: Store | db.Valid() && Clean(db, seed) ensures Passable(seed) { CleanIsPassable(db, seed); }
  }

  /** With distinct dependency texts no two listed dependencies read alike. */
  lemma ListedTextsDiffer(seed: Seed, d: KeyPair, e: KeyPair)
    requires Distinct(DependencyPairs(seed.dependencies))
    requires d in SeedPairs(seed) && e in SeedPairs(seed) && TextOf(d) == TextOf(e)
    ensures d == e
  {
    var s :| s in seed.dependencies && d == KeyPair(s.dependsOn, s.activity);
    var t :| t in seed.dependencies && e == KeyPair(t.dependsOn, t.activity);
    var i :| 0 <= i < |seed.dependencies| && seed.dependencies[i] == s;
    var j :| 0 <= j < |seed.dependencies| && seed.dependencies[j] == t;
    assert DependencyPairs(seed.dependencies)[i] == TextOf(d) && DependencyPairs(seed.dependencies)[j] == TextOf(e);
  }

  /** An ambiguous spec that can pass does pass for the store with every look-alike pair, which holds
      a pair the spec does not list. */
  lemma AmbiguousPasses(seed: Seed) returns (db: Store)
    requires Passable(seed) && !Unambiguous(seed)
    ensures db.Valid() && Clean(db, seed) && ModelKeyPairs(db, seed) != SeedPairs(seed)
  {
    var d, p :| d in SeedPairs(seed) && Holdable(seed, p) && TextOf(p) == TextOf(d) && p != d;
    db := StoreWith(seed, LookAlikes(seed));
    LookAlikesPass(seed);
    LookAlikeMember(seed, d, p);
    if p in SeedPairs(seed) { ListedTextsDiffer(seed, d, p); }
  }

  lemma LookAlikeMember(seed: Seed, d: KeyPair, p: KeyPair)
    requires d in SeedPairs(seed) && Holdable(seed, p) && TextOf(p) == TextOf(d)
    ensures p in LookAlikes(seed)
  {
    SeedTexts(seed);
    assert TextOf(p) in Elements(DependencyPairs(seed.dependencies));
    assert p == KeyPair(p.predecessor, p.successor);
  }

  /** When a clean report means the right dependencies: every valid store that passes holds exactly
      the spec's pairs if and only if none of them shares its text with another pair of the spec's
      keys (or the spec cannot pass at all). */
  lemma CleanMeansDependenciesIff(seed: Seed)
    ensures (forall db: Store :: db.Valid() && Clean(db, seed) ==> ModelKeyPairs(db, seed) == SeedPairs(seed))
       <==> (Passable(seed) ==> Unambiguous(seed))
  {
    if Passable(seed) ==> Unambiguous(seed) {
      forall db: Store | db.Valid() && Clean(db, seed) ensures ModelKeyPairs(db, seed) == SeedPairs(seed) {
        CleanIsPassable(db, seed);
        CleanHoldsSeedPairs(db, seed);
      }
    } else {
      var db := AmbiguousPasses(seed);
    }
  }

  // ---------------------------------------------------------------- keys free of arrows

  predicate ArrowFree(key: string) {
    forall i :: 0 < i < |key| ==> !(key[i - 1] == '-' && key[i] == '>')
  }

  /** A text with arrow-free predecessors can be read in one way only. */
  lemma OneReading(p: KeyPair, q: KeyPair)
    requires ArrowFree(p.predecessor) && ArrowFree(q.predecessor) && TextOf(p) == TextOf(q)
    ensures p == q
  {
    NotShorter(p, q);
    NotShorter(q, p);
    var text, n := TextOf(p), |p.predecessor|;
    assert text[..n] == p.predecessor && text[..n] == q.predecessor;
    assert text[n + 2..] == p.successor && text[n + 2..] == q.successor;
  }

  lemma NotShorter(p: KeyPair, q: KeyPair)
    requires ArrowFree(q.predecessor) && TextOf(p) == TextOf(q)
    ensures |p.predecessor| >= |q.predecessor|
  {
    var text, n, m := TextOf(p), |p.predecessor|, |q.predecessor|;
    assert text[n] == '-' && text[n + 1] == '>';
    assert text[m] == '-' && text[..m] == q.predecessor;
    assert forall k :: 0 <= k < m ==> q.predecessor[k] == text[k];
  }

  /** Keys free of "->" are enough: then a clean report means exactly the spec's dependencies. */
  lemma ArrowFreeKeysAreUnambiguous(db: Store, seed: Seed)
    requires db.Valid() && RefsResolve(seed)
    requires forall key :: key in ActivityKeys(seed.activities) ==> ArrowFree(key)
    requires Gaps(LoadModelDetail(db, seed.component, seed.plan), seed) == []
    ensures ModelKeyPairs(db, seed) == SeedPairs(seed)
  {
    forall d, p | d in SeedPairs(seed) && Holdable(seed, p) && TextOf(p) == TextOf(d) ensures p == d {
      OneReading(p, d);
    }
    NoGapsIff(db, seed);
    CleanHoldsSeedPairs(db, seed);
  }

  // ---------------------------------------------------------------- an input where it goes wrong

  const ARROW_SEED := Seed("C", [], [], "plan", "context", "draft_plan",
    [ActivitySeed("a", 1, "verification", "", ""), ActivitySeed("b->c", 2, "verification", "", ""),
     ActivitySeed("a->b", 3, "verification", "", ""), ActivitySeed("c", 4, "verification", "", "")],
    [DependencySeed("b->c", "a", "hard")])

  /** A spec that lists a before b->c and a store that holds a->b before c instead: the checker
      reports no gap. */
  lemma ArrowKeysMislead()
    ensures var db := StoreWith(ARROW_SEED, {KeyPair("a->b", "c")});
            && db.Valid()
            && Gaps(LoadModelDetail(db, ARROW_SEED.component, ARROW_SEED.plan), ARROW_SEED) == []
            && SeedPairs(ARROW_SEED) == {KeyPair("a", "b->c")}
            && ModelKeyPairs(db, ARROW_SEED) == {KeyPair("a->b", "c")}
  {
    var pairs := {KeyPair("a->b", "c")};
    var keys := ActivityKeys(ARROW_SEED.activities);
    assert keys == ["a", "b->c", "a->b", "c"];
    assert keys[2] in keys && keys[3] in keys;
    assert SeedPairs(ARROW_SEED) == {KeyPair("a", "b->c")};
    assert TextOf(KeyPair("a", "b->c")) == "a->b->c" == TextOf(KeyPair("a->b", "c"));
    StoreWithIsValid(ARROW_SEED, pairs);
    StoreWithIsClean(ARROW_SEED, pairs);
    StoreWithQueries(ARROW_SEED, pairs);
    NoGapsIff(StoreWith(ARROW_SEED, pairs), ARROW_SEED);
  }
}
