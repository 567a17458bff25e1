/** Comparing a component spec with the store: the checker's queries, its gap list, and the exact
    meaning of an empty one. */
module SpecConsistency {
  import opened Wrappers
  import opened Ordering
  import opened PlanModel
  import opened Text
  import opened SpecModel

  datatype Detail = Detail(
    componentCount: nat, elementCount: nat, realizationCount: nat, activityCount: nat, dependencyCount: nat,
    planPresent: bool,
    elementKeys: seq<string>, realizationKeys: seq<string>, activityKeys: seq<string>, dependencyPairs: seq<string>)

  // The checker's set queries; they select the component by name alone.

  function TargetComponents(db: Store, name: string): set<Component> {
    set c | c in db.components && c.name == name
  }

  function TargetPlans(db: Store, name: string, plan: string): set<PlanId> {
    set k | k in db.plans && db.plans[k].name == Some(plan) && db.plans[k].component.Some? &&
            db.plans[k].component.value in TargetComponents(db, name)
  }

  function ModelElementKeys(db: Store, name: string): set<string> {
    set e | e in db.elements && e.component in TargetComponents(db, name) :: e.key
  }

  function ModelRealizationKeys(db: Store, name: string): set<string> {
    set r | r in db.realizations && r.element.component in TargetComponents(db, name) :: r.key
  }

  function ModelActivityKeys(db: Store, name: string, plan: string): set<string> {
    set a | a in db.activities && a.plan in TargetPlans(db, name, plan) :: a.key
  }

  function ModelPairs(db: Store, name: string, plan: string): set<string> {
    set d | d in db.dependencies && d.plan in TargetPlans(db, name, plan) :: PairText(d.predecessor, d.successor)
  }

  ghost function LoadModelDetail(db: Store, name: string, plan: string): Detail {
    Detail(
      |TargetComponents(db, name)|,
      |ModelElementKeys(db, name)|, |ModelRealizationKeys(db, name)|,
      |ModelActivityKeys(db, name, plan)|, |ModelPairs(db, name, plan)|,
      TargetPlans(db, name, plan) != {},
      InOrder(StrLe, ModelElementKeys(db, name)), InOrder(StrLe, ModelRealizationKeys(db, name)),
      InOrder(StrLe, ModelActivityKeys(db, name, plan)), InOrder(StrLe, ModelPairs(db, name, plan)))
  }

  type Gap = string

  function When(test: bool, gap: Gap): seq<Gap> {
    if test then [gap] else []
  }

  /** The tests of the counts, appended to the gaps found so far. */
  function CountGaps(gaps: seq<Gap>, d: Detail, seed: Seed): seq<Gap> {
    gaps + When(d.componentCount != 1, "component_count_mismatch")
         + When(d.elementCount != |seed.elements|, "element_count_mismatch")
         + When(d.realizationCount != |seed.realizations|, "realization_count_mismatch")
         + When(d.activityCount != |seed.activities|, "activity_count_mismatch")
         + When(d.dependencyCount != |seed.dependencies|, "dependency_count_mismatch")
  }

  /** The tests of the plan and of the key lists. */
  function KeyGaps(gaps: seq<Gap>, d: Detail, seed: Seed): seq<Gap> {
    gaps + When(!d.planPresent, "missing_plan_seed_materialization")
         + When(d.elementKeys != Sort(StrLe, Names(seed.elements)), "element_key_mismatch")
         + When(d.realizationKeys != Sort(StrLe, RealizationKeys(seed.realizations)), "realization_key_mismatch")
         + When(d.activityKeys != Sort(StrLe, ActivityKeys(seed.activities)), "activity_key_mismatch")
         + When(d.dependencyPairs != Sort(StrLe, DependencyPairs(seed.dependencies)), "dependency_pair_mismatch")
  }

  function Gaps(d: Detail, seed: Seed): seq<Gap> {
    KeyGaps(CountGaps([], d, seed), d, seed)
  }

  method AppendIf(gaps: seq<Gap>, test: bool, gap: Gap) returns (more: seq<Gap>)
    ensures more == gaps + When(test, gap)
  {
    more := gaps;
    if test { more := more + [gap]; }
  }

  /** Every count and every sorted key list agrees with the spec. */
  predicate Agrees(d: Detail, seed: Seed) {
    && d.componentCount == 1 && d.planPresent
    && d.elementKeys == Sort(StrLe, Names(seed.elements)) && d.elementCount == |seed.elements|
    && d.realizationKeys == Sort(StrLe, RealizationKeys(seed.realizations)) && d.realizationCount == |seed.realizations|
    && d.activityKeys == Sort(StrLe, ActivityKeys(seed.activities)) && d.activityCount == |seed.activities|
    && d.dependencyPairs == Sort(StrLe, DependencyPairs(seed.dependencies)) && d.dependencyCount == |seed.dependencies|
  }

  method EvaluateConsistency(d: Detail, seed: Seed) returns (gaps: seq<Gap>)
    ensures gaps == Gaps(d, seed)
    ensures gaps == [] <==> Agrees(d, seed)
  {
    gaps := [];
    gaps := AppendIf(gaps, d.componentCount != 1, "component_count_mismatch");
    gaps := AppendIf(gaps, d.elementCount != |seed.elements|, "element_count_mismatch");
    gaps := AppendIf(gaps, d.realizationCount != |seed.realizations|, "realization_count_mismatch");
    gaps := AppendIf(gaps, d.activityCount != |seed.activities|, "activity_count_mismatch");
    gaps := AppendIf(gaps, d.dependencyCount != |seed.dependencies|, "dependency_count_mismatch");
    gaps := AppendIf(gaps, !d.planPresent, "missing_plan_seed_materialization");
    gaps := AppendIf(gaps, d.elementKeys != Sort(StrLe, Names(seed.elements)), "element_key_mismatch");
    gaps := AppendIf(gaps, d.realizationKeys != Sort(StrLe, RealizationKeys(seed.realizations)), "realization_key_mismatch");
    gaps := AppendIf(gaps, d.activityKeys != Sort(StrLe, ActivityKeys(seed.activities)), "activity_key_mismatch");
    gaps := AppendIf(gaps, d.dependencyPairs != Sort(StrLe, DependencyPairs(seed.dependencies)), "dependency_pair_mismatch");
    GapsEmpty(d, seed);
  }

  // ---------------------------------------------------------------- what the comparison means

  /** A sorted list equals the ordered distinct keys exactly when it is duplicate-free and has
      the same elements; and then the counts agree. */
  lemma SortedKeysAgree(expected: seq<string>, model: set<string>)
    ensures InOrder(StrLe, model) == Sort(StrLe, expected) <==> Distinct(expected) && Elements(expected) == model
    ensures InOrder(StrLe, model) == Sort(StrLe, expected) ==> |model| == |expected|
  {
    StringsAreOrdered();
    InOrderFacts(StrLe, model);
    SortSorts(StrLe, expected);
    SameElements(Sort(StrLe, expected), expected);
    DistinctCardinality(expected);
    DistinctCardinality(Sort(StrLe, expected));
    DistinctCardinality(InOrder(StrLe, model));
    if Distinct(expected) && Elements(expected) == model {
      InOrderUnique(StrLe, model, Sort(StrLe, expected));
    }
  }

  predicate Agree(expected: seq<string>, model: set<string>) {
    Distinct(expected) && Elements(expected) == model
  }

  lemma KeysAgree(db: Store, seed: Seed)
    ensures var d := LoadModelDetail(db, seed.component, seed.plan);
            && (d.elementKeys == Sort(StrLe, Names(seed.elements)) <==> Agree(Names(seed.elements), ModelElementKeys(db, seed.component)))
            && (d.realizationKeys == Sort(StrLe, RealizationKeys(seed.realizations)) <==>
                  Agree(RealizationKeys(seed.realizations), ModelRealizationKeys(db, seed.component)))
            && (d.activityKeys == Sort(StrLe, ActivityKeys(seed.activities)) <==>
                  Agree(ActivityKeys(seed.activities), ModelActivityKeys(db, seed.component, seed.plan)))
            && (d.dependencyPairs == Sort(StrLe, DependencyPairs(seed.dependencies)) <==>
                  Agree(DependencyPairs(seed.dependencies), ModelPairs(db, seed.component, seed.plan)))
  {
    SortedKeysAgree(Names(seed.elements), ModelElementKeys(db, seed.component));
    SortedKeysAgree(RealizationKeys(seed.realizations), ModelRealizationKeys(db, seed.component));
    SortedKeysAgree(ActivityKeys(seed.activities), ModelActivityKeys(db, seed.component, seed.plan));
    SortedKeysAgree(DependencyPairs(seed.dependencies), ModelPairs(db, seed.component, seed.plan));
  }

  /** Every count gap of a kind comes with the key gap of that kind. */
  lemma CountGapsImplyKeyGaps(db: Store, seed: Seed)
    ensures var d := LoadModelDetail(db, seed.component, seed.plan);
            && (d.elementCount != |seed.elements| ==> d.elementKeys != Sort(StrLe, Names(seed.elements)))
            && (d.realizationCount != |seed.realizations| ==> d.realizationKeys != Sort(StrLe, RealizationKeys(seed.realizations)))
            && (d.activityCount != |seed.activities| ==> d.activityKeys != Sort(StrLe, ActivityKeys(seed.activities)))
            && (d.dependencyCount != |seed.dependencies| ==> d.dependencyPairs != Sort(StrLe, DependencyPairs(seed.dependencies)))
  {
    SortedKeysAgree(Names(seed.elements), ModelElementKeys(db, seed.component));
    SortedKeysAgree(RealizationKeys(seed.realizations), ModelRealizationKeys(db, seed.component));
    SortedKeysAgree(ActivityKeys(seed.activities), ModelActivityKeys(db, seed.component, seed.plan));
    SortedKeysAgree(DependencyPairs(seed.dependencies), ModelPairs(db, seed.component, seed.plan));
  }

  /** The checker reports no gap exactly when there is one component of the name, the plan exists,
      and each key list of the spec is duplicate-free and equal as a set to the model's. */
  ghost predicate Clean(db: Store, seed: Seed) {
    && |TargetComponents(db, seed.component)| == 1
    && TargetPlans(db, seed.component, seed.plan) != {}
    && Agree(Names(seed.elements), ModelElementKeys(db, seed.component))
    && Agree(RealizationKeys(seed.realizations), ModelRealizationKeys(db, seed.component))
    && Agree(ActivityKeys(seed.activities), ModelActivityKeys(db, seed.component, seed.plan))
    && Agree(DependencyPairs(seed.dependencies), ModelPairs(db, seed.component, seed.plan))
  }

  lemma NoGapsIff(db: Store, seed: Seed)
    ensures Gaps(LoadModelDetail(db, seed.component, seed.plan), seed) == [] <==> Clean(db, seed)
  {
    var d := LoadModelDetail(db, seed.component, seed.plan);
    KeysAgree(db, seed);
    CountGapsImplyKeyGaps(db, seed);
    GapsEmpty(d, seed);
  }

  lemma CountGapsEmpty(gaps: seq<Gap>, d: Detail, seed: Seed)
    ensures CountGaps(gaps, d, seed) == [] <==>
      gaps == [] &&
      d.componentCount == 1 && d.elementCount == |seed.elements| && d.realizationCount == |seed.realizations| &&
      d.activityCount == |seed.activities| && d.dependencyCount == |seed.dependencies|
  {
  }

  lemma KeyGapsEmpty(gaps: seq<Gap>, d: Detail, seed: Seed)
    ensures KeyGaps(gaps, d, seed) == [] <==>
      && gaps == [] && d.planPresent
      && d.elementKeys == Sort(StrLe, Names(seed.elements))
      && d.realizationKeys == Sort(StrLe, RealizationKeys(seed.realizations))
      && d.activityKeys == Sort(StrLe, ActivityKeys(seed.activities))
      && d.dependencyPairs == Sort(StrLe, DependencyPairs(seed.dependencies))
  {
  }

  lemma GapsEmpty(d: Detail, seed: Seed)
    ensures Gaps(d, seed) == [] <==> Agrees(d, seed)
  {
    CountGapsEmpty([], d, seed);
    KeyGapsEmpty(CountGaps([], d, seed), d, seed);
  }

  // ---------------------------------------------------------------- the proof runner's verdict

  datatype Verdict = CannotProve | NeedsMaterializationFix | ReadyForFollowOn | ReadyForDev

  const DECISIVE_GAPS: set<Gap> := {
    "governed_doc_lint_failed", "component_count_mismatch", "element_key_mismatch", "realization_key_mismatch",
    "activity_key_mismatch", "dependency_pair_mismatch", "missing_plan_seed_materialization"}

  /** determine_result_type over the gaps of all proof stages. */
  function DetermineResult(gaps: seq<Gap>, dryRun: bool): Verdict {
    if exists g :: g in gaps && g in DECISIVE_GAPS then CannotProve
    else if exists g :: g in gaps && EndsWith(g, "mismatch") then NeedsMaterializationFix
    else if exists g :: g in gaps && StartsWith(g, "missing_") then NeedsMaterializationFix
    else if exists g :: g in gaps && g == "materializer_run_failed" then NeedsMaterializationFix
    else if dryRun then ReadyForFollowOn
    else ReadyForDev
  }

  /** Any gap between spec and store is decisive: whatever the other stages report, the verdict is
      that nothing can be proved with current authority. */
  lemma AnyGapIsDecisive(db: Store, seed: Seed, before: seq<Gap>, after: seq<Gap>, dryRun: bool)
    requires Gaps(LoadModelDetail(db, seed.component, seed.plan), seed) != []
    ensures DetermineResult(before + Gaps(LoadModelDetail(db, seed.component, seed.plan), seed) + after, dryRun) == CannotProve
  {
    var d := LoadModelDetail(db, seed.component, seed.plan);
    CountGapsImplyKeyGaps(db, seed);
    GapsEmpty(d, seed);
    var g := DecisiveGap(d, seed);
    assert g in before + Gaps(d, seed) + after;
  }

  lemma CountGapListed(d: Detail, seed: Seed)
    requires d.componentCount != 1
    ensures "component_count_mismatch" in CountGaps([], d, seed)
  {
  }

  lemma KeyGapsListed(gaps: seq<Gap>, d: Detail, seed: Seed)
    ensures forall g :: g in gaps ==> g in KeyGaps(gaps, d, seed)
    ensures !d.planPresent ==> "missing_plan_seed_materialization" in KeyGaps(gaps, d, seed)
    ensures d.elementKeys != Sort(StrLe, Names(seed.elements)) ==> "element_key_mismatch" in KeyGaps(gaps, d, seed)
    ensures d.realizationKeys != Sort(StrLe, RealizationKeys(seed.realizations)) ==> "realization_key_mismatch" in KeyGaps(gaps, d, seed)
    ensures d.activityKeys != Sort(StrLe, ActivityKeys(seed.activities)) ==> "activity_key_mismatch" in KeyGaps(gaps, d, seed)
    ensures d.dependencyPairs != Sort(StrLe, DependencyPairs(seed.dependencies)) ==> "dependency_pair_mismatch" in KeyGaps(gaps, d, seed)
  {
  }

  /** A wrong component count, a missing plan or a wrong key list is in the list and decisive. */
  lemma DecisiveGap(d: Detail, seed: Seed) returns (g: Gap)
    requires
      || d.componentCount != 1 || !d.planPresent
      || d.elementKeys != Sort(StrLe, Names(seed.elements))
      || d.realizationKeys != Sort(StrLe, RealizationKeys(seed.realizations))
      || d.activityKeys != Sort(StrLe, ActivityKeys(seed.activities))
      || d.dependencyPairs != Sort(StrLe, DependencyPairs(seed.dependencies))
    ensures g in Gaps(d, seed) && g in DECISIVE_GAPS
  {
    KeyGapsListed(CountGaps([], d, seed), d, seed);
    if d.componentCount != 1 {
      CountGapListed(d, seed);
      g := "component_count_mismatch";
    } else if !d.planPresent {
      g := "missing_plan_seed_materialization";
    } else if d.elementKeys != Sort(StrLe, Names(seed.elements)) {
      g := "element_key_mismatch";
    } else if d.realizationKeys != Sort(StrLe, RealizationKeys(seed.realizations)) {
      g := "realization_key_mismatch";
    } else if d.activityKeys != Sort(StrLe, ActivityKeys(seed.activities)) {
      g := "activity_key_mismatch";
    } else {
      g := "dependency_pair_mismatch";
    }
  }

  function Severity(v: Verdict): nat {
    match v
    case CannotProve => 2
    case NeedsMaterializationFix => 1
    case _ => 0
  }

  /** The verdict is that of the worst gap, wherever it stands; without a bad one the run decides. */
  lemma VerdictIsWorst(before: seq<Gap>, after: seq<Gap>, dryRun: bool)
    ensures var first, rest := DetermineResult(before, dryRun), DetermineResult(after, dryRun);
            DetermineResult(before + after, dryRun) == if Severity(first) >= Severity(rest) then first else rest
    ensures DetermineResult([], dryRun) == if dryRun then ReadyForFollowOn else ReadyForDev
  {
    forall g ensures g in before + after <==> g in before || g in after {}
  }

  /** The verdict on a single gap. */
  lemma VerdictOnOne(gap: Gap, dryRun: bool)
    ensures DetermineResult([gap], dryRun) ==
            if gap in DECISIVE_GAPS then CannotProve
            else if EndsWith(gap, "mismatch") || StartsWith(gap, "missing_") || gap == "materializer_run_failed" then NeedsMaterializationFix
            else if dryRun then ReadyForFollowOn else ReadyForDev
  {
    assert gap in [gap];
    assert forall g :: g in [gap] ==> g == gap;
  }

  const COUNT_NAMES: seq<Gap> := [
    "component_count_mismatch", "element_count_mismatch", "realization_count_mismatch",
    "activity_count_mismatch", "dependency_count_mismatch"]
  const KEY_NAMES: seq<Gap> := [
    "missing_plan_seed_materialization", "element_key_mismatch", "realization_key_mismatch",
    "activity_key_mismatch", "dependency_pair_mismatch"]

  predicate CountsWrong(d: Detail, seed: Seed) {
    && d.componentCount != 1 && d.elementCount != |seed.elements| && d.realizationCount != |seed.realizations|
    && d.activityCount != |seed.activities| && d.dependencyCount != |seed.dependencies|
  }

  predicate KeysWrong(d: Detail, seed: Seed) {
    && !d.planPresent && d.elementKeys != Sort(StrLe, Names(seed.elements))
    && d.realizationKeys != Sort(StrLe, RealizationKeys(seed.realizations))
    && d.activityKeys != Sort(StrLe, ActivityKeys(seed.activities))
    && d.dependencyPairs != Sort(StrLe, DependencyPairs(seed.dependencies))
  }

  lemma AllOf(gaps: seq<Gap>, a: Gap, b: Gap, c: Gap, d: Gap, e: Gap)
    ensures gaps + When(true, a) + When(true, b) + When(true, c) + When(true, d) + When(true, e) == gaps + [a, b, c, d, e]
  {
  }

  lemma WorstCounts(d: Detail, seed: Seed)
    requires CountsWrong(d, seed)
    ensures CountGaps([], d, seed) == [] + COUNT_NAMES
  {
    AllOf([], COUNT_NAMES[0], COUNT_NAMES[1], COUNT_NAMES[2], COUNT_NAMES[3], COUNT_NAMES[4]);
  }

  lemma WorstKeys(gaps: seq<Gap>, d: Detail, seed: Seed)
    requires KeysWrong(d, seed)
    ensures KeyGaps(gaps, d, seed) == gaps + KEY_NAMES
  {
    AllOf(gaps, KEY_NAMES[0], KEY_NAMES[1], KEY_NAMES[2], KEY_NAMES[3], KEY_NAMES[4]);
  }

  /** The gaps by name and in order, when every test fails. */
  lemma WorstReport(d: Detail, seed: Seed)
    requires CountsWrong(d, seed) && KeysWrong(d, seed)
    ensures Gaps(d, seed) == [] + COUNT_NAMES + KEY_NAMES
  {
    WorstCounts(d, seed);
    WorstKeys(CountGaps([], d, seed), d, seed);
  }
}
