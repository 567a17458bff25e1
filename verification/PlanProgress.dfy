/** The progress service beside the delivery projection: its own choice of the next activity, the
    authority state it summarises, and what writing that state back does to a run. */
module PlanProgress {
  import opened Wrappers
  import opened PlanModel
  import opened DeliveryScheduler

  datatype ProgressClass = IsCompletedNow | IsDeferred | IsBlocked | IsRemaining

  /** Classify an activity; unverified holds those that lack a required verification. */
  function Classify(a: Activity, missing: bool): ProgressClass {
    match a.state
    case Cancelled | Superseded | Deferred | Skipped => IsDeferred
    case Blocked => IsBlocked
    case Completed => if missing then IsBlocked else IsCompletedNow
    case _ => IsRemaining
  }

  function Classified(db: Store, plan: PlanId, unverified: set<ActivityId>, c: ProgressClass): set<ActivityId> {
    set a | a in db.activities && a.plan == plan && Classify(db.activities[a], a in unverified) == c
  }

  /** Remaining activities whose predecessors are all completed and verified. */
  function Executable(db: Store, plan: PlanId, unverified: set<ActivityId>): set<ActivityId> {
    set a | a in Classified(db, plan, unverified, IsRemaining) &&
            Predecessors(db, a) <= Classified(db, plan, unverified, IsCompletedNow)
  }

  /** Executable activities of the least sequence. */
  function FirstRank(db: Store, plan: PlanId, unverified: set<ActivityId>): set<ActivityId> {
    var executable := Executable(db, plan, unverified);
    set a | a in executable && forall b :: b in executable ==> db.activities[a].sequence <= db.activities[b].sequence
  }

  datatype Next = NoneNext | OneNext(activity: ActivityId) | Ambiguous

  predicate IsNext(db: Store, plan: PlanId, unverified: set<ActivityId>, next: Next) {
    match next
    case NoneNext => Executable(db, plan, unverified) == {}
    case OneNext(a) => FirstRank(db, plan, unverified) == {a}
    case Ambiguous => |FirstRank(db, plan, unverified)| > 1
  }

  datatype Realization = NotStarted | Partially | Substantially | Fully | RealizationBlocked | RealizationDeferred

  function RealizationState(completed: nat, remaining: nat, blocked: nat, deferred: nat, total: nat): Realization {
    if total == 0 || completed == 0 then
      if blocked > 0 then RealizationBlocked
      else if deferred > 0 && remaining == 0 then RealizationDeferred
      else NotStarted
    else if remaining == 0 && blocked == 0 then Fully
    else if blocked > 0 && remaining > 0 then RealizationBlocked
    else if remaining == 0 && deferred > 0 then RealizationDeferred
    else if 4 * completed >= 3 * total then Substantially
    else Partially
  }

  function AuthoritySummary(r: Realization, remaining: nat, blocked: nat, deferred: nat): string {
    match r
    case Fully => "completed_plan"
    case RealizationBlocked => "blocked_plan"
    case _ =>
      if r == RealizationDeferred && remaining == 0 then "deferred_plan"
      else if r == Partially || r == Substantially then "partially_realized_plan"
      else if remaining > 0 || blocked > 0 || deferred > 0 then "active_plan"
      else "draft_plan"
  }

  /** The authority state the service summarises; an ambiguous next activity counts as blocked. */
  function Summary(db: Store, plan: PlanId, unverified: set<ActivityId>): string {
    var completed := |Classified(db, plan, unverified, IsCompletedNow)|;
    var remaining := |Classified(db, plan, unverified, IsRemaining)|;
    var deferred := |Classified(db, plan, unverified, IsDeferred)|;
    var blocked := |Classified(db, plan, unverified, IsBlocked)| + if |FirstRank(db, plan, unverified)| > 1 then 1 else 0;
    var total := |set a | a in db.activities && a.plan == plan|;
    if total == 0 then "draft_plan"
    else AuthoritySummary(RealizationState(completed, remaining, blocked, deferred, total), remaining, blocked, deferred)
  }

  /** reconcile writes the summary over the plan's authority state. */
  function Reconciled(db: Store, plan: PlanId, unverified: set<ActivityId>): Store {
    if plan in db.authority then db.(authority := db.authority[plan := Summary(db, plan, unverified)]) else db
  }

  // ---------------------------------------------------------------- the two choices of next

  /** Dependency rows stay inside the plan. */
  predicate OwnPredecessors(db: Store, plan: PlanId) {
    forall d :: d in db.precedes && d.1.plan == plan ==> d.0.plan == plan
  }

  predicate NothingStarted(db: Store, plan: PlanId) {
    forall a :: a in db.activities && a.plan == plan ==> !db.activities[a].state.Active? && !db.activities[a].state.InProgress?
  }

  predicate AllVerified(db: Store, plan: PlanId, unverified: set<ActivityId>) {
    forall a :: a in unverified && a in db.activities && a.plan == plan ==> !db.activities[a].state.Completed?
  }

  predicate Started(db: Store, a: ActivityId)
    requires a in db.activities
  {
    db.activities[a].state.Active? || db.activities[a].state.InProgress?
  }

  /** What the projection offers next, the service accepts: predecessors of this plan, verified. */
  predicate NextVerified(db: Store, plan: PlanId, unverified: set<ActivityId>) {
    forall a, p :: a in NextSet(db, plan) && p in Predecessors(db, a) ==> p.plan == plan && p !in unverified
  }

  /** What is under way and executable comes after something the projection offers. */
  predicate StartedComesLater(db: Store, plan: PlanId, unverified: set<ActivityId>) {
    forall b :: b in Executable(db, plan, unverified) && Started(db, b) ==>
      exists a :: a in NextSet(db, plan) && db.activities[a].sequence < db.activities[b].sequence
  }

  lemma NextIsExecutableIff(db: Store, plan: PlanId, unverified: set<ActivityId>)
    ensures NextSet(db, plan) <= Executable(db, plan, unverified) <==> NextVerified(db, plan, unverified)
  {
    forall a, p | a in NextSet(db, plan) && p in Predecessors(db, a)
      ensures p in Classified(db, plan, unverified, IsCompletedNow) <==> p.plan == plan && p !in unverified
    {
      CountsMeetIff(db, a);
    }
  }

  /** Executable activities not under way are eligible to the projection. */
  lemma ExecutableWaits(db: Store, plan: PlanId, unverified: set<ActivityId>, a: ActivityId)
    requires a in Executable(db, plan, unverified) && !Started(db, a)
    ensures Eligible(db, plan, a)
  {
    CountsMeetIff(db, a);
    forall p | p in Predecessors(db, a) ensures IsCompleted(db, p) {
      assert p in Classified(db, plan, unverified, IsCompletedNow);
    }
  }

  lemma FirstRankExists(db: Store, plan: PlanId, unverified: set<ActivityId>)
    ensures FirstRank(db, plan, unverified) == {} <==> Executable(db, plan, unverified) == {}
  {
    if Executable(db, plan, unverified) != {} {
      var m := LeastSequence(db, Executable(db, plan, unverified));
      assert m in FirstRank(db, plan, unverified);
    }
  }

  lemma RankFromNext(db: Store, plan: PlanId, unverified: set<ActivityId>, b: ActivityId)
    requires ExecutionReady(db, plan) || Executable(db, plan, unverified) == {}
    requires NextVerified(db, plan, unverified) && StartedComesLater(db, plan, unverified)
    ensures b in FirstRank(db, plan, unverified) <==> b in NextSet(db, plan)
  {
    NextIsExecutableIff(db, plan, unverified);
    forall c | c in Executable(db, plan, unverified) && !Started(db, c) ensures Eligible(db, plan, c) {
      ExecutableWaits(db, plan, unverified, c);
    }
    if b in FirstRank(db, plan, unverified) {
      assert !Started(db, b);
      Classification(db, plan);
      var a :| a in NextSet(db, plan);
      assert db.activities[b].sequence <= db.activities[a].sequence;
    }
  }

  /** The service's first rank is the projection's next set exactly when the projection's choice is
      verified within the plan, nothing executable under way comes as early, and a plan that is not
      execution-ready has nothing executable. */
  lemma FirstRankIsNextIff(db: Store, plan: PlanId, unverified: set<ActivityId>)
    ensures FirstRank(db, plan, unverified) == NextSet(db, plan) <==>
      && (ExecutionReady(db, plan) || Executable(db, plan, unverified) == {})
      && NextVerified(db, plan, unverified) && StartedComesLater(db, plan, unverified)
  {
    FirstRankExists(db, plan, unverified);
    if FirstRank(db, plan, unverified) == NextSet(db, plan) {
      NextIsExecutableIff(db, plan, unverified);
      forall b | b in Executable(db, plan, unverified) && Started(db, b)
        ensures exists a :: a in NextSet(db, plan) && db.activities[a].sequence < db.activities[b].sequence
      {
        var a :| a in NextSet(db, plan);
        assert a in FirstRank(db, plan, unverified) && b !in NextSet(db, plan);
        EarlierThanStarted(db, plan, unverified, a, b);
      }
    } else if (ExecutionReady(db, plan) || Executable(db, plan, unverified) == {})
           && NextVerified(db, plan, unverified) && StartedComesLater(db, plan, unverified) {
      forall b ensures b in FirstRank(db, plan, unverified) <==> b in NextSet(db, plan) {
        RankFromNext(db, plan, unverified, b);
      }
    }
  }

  lemma EarlierThanStarted(db: Store, plan: PlanId, unverified: set<ActivityId>, a: ActivityId, b: ActivityId)
    requires a in FirstRank(db, plan, unverified) && b in Executable(db, plan, unverified) && b !in FirstRank(db, plan, unverified)
    ensures db.activities[a].sequence < db.activities[b].sequence
  {
    var c :| c in Executable(db, plan, unverified) && !(db.activities[b].sequence <= db.activities[c].sequence);
  }

  /** With nothing under way, every completion verified and dependencies inside the plan, the
      service's next activity is the projection's: none, one, or ambiguous as the next set has no,
      one or several members. */
  lemma NextAgrees(db: Store, plan: PlanId, unverified: set<ActivityId>, next: Next)
    requires ExecutionReady(db, plan)
    requires OwnPredecessors(db, plan) && NothingStarted(db, plan) && AllVerified(db, plan, unverified)
    ensures FirstRank(db, plan, unverified) == NextSet(db, plan)
    ensures IsNext(db, plan, unverified, next) <==>
            match next
            case NoneNext => NextSet(db, plan) == {}
            case OneNext(a) => NextSet(db, plan) == {a}
            case Ambiguous => |NextSet(db, plan)| > 1
  {
    forall a, p | a in NextSet(db, plan) && p in Predecessors(db, a) ensures p.plan == plan && p !in unverified {
      CountsMeetIff(db, a);
      assert (p, a) in db.precedes && (p, a).1.plan == plan;
    }
    FirstRankIsNextIff(db, plan, unverified);
    FirstRankExists(db, plan, unverified);
  }

  // ---------------------------------------------------------------- runs with reconciles

  lemma SummaryNeverReady(db: Store, plan: PlanId, unverified: set<ActivityId>)
    ensures !ExecutionReady(Reconciled(db, plan, unverified), plan)
  {
    var s := Summary(db, plan, unverified);
    assert s in {"draft_plan", "active_plan", "completed_plan", "blocked_plan", "deferred_plan", "partially_realized_plan"};
    NoSummaryIsReady(s);
  }

  lemma NoSummaryIsReady(s: string)
    requires s in {"draft_plan", "active_plan", "completed_plan", "blocked_plan", "deferred_plan", "partially_realized_plan"}
    ensures s !in {"approved_plan", "approved_brief", "packet_ready_execution_authority"}
  {
  }

  /** A worker turn completes some next activity, or finds none; a reconcile may come at any time,
      with any state of verification. */
  datatype Move = Turn(completed: Option<ActivityId>) | Reconcile(unverified: set<ActivityId>)

  ghost predicate Allowed(db: Store, plan: PlanId, move: Move) {
    match move
    case Turn(Some(a)) => a in NextSet(db, plan)
    case Turn(None) => NextSet(db, plan) == {}
    case Reconcile(_) => true
  }

  ghost function Moved(db: Store, plan: PlanId, move: Move): Store
    requires Allowed(db, plan, move)
  {
    match move
    case Turn(Some(a)) => Complete(db, a)
    case Turn(None) => db
    case Reconcile(unverified) => Reconciled(db, plan, unverified)
  }

  ghost predicate Schedule(db: Store, plan: PlanId, moves: seq<Move>)
    decreases |moves|
  {
    moves == [] || (Allowed(db, plan, moves[0]) && Schedule(Moved(db, plan, moves[0]), plan, moves[1..]))
  }

  ghost function Outcome(db: Store, plan: PlanId, moves: seq<Move>): Store
    requires Schedule(db, plan, moves)
    decreases |moves|
  {
    if moves == [] then db else Outcome(Moved(db, plan, moves[0]), plan, moves[1..])
  }

  /** Worker turns before the first reconcile. */
  function TurnsBefore(moves: seq<Move>): nat {
    if moves == [] || moves[0].Reconcile? then 0 else 1 + TurnsBefore(moves[1..])
  }

  lemma Withdrawn(db: Store, plan: PlanId)
    requires !ExecutionReady(db, plan)
    ensures NextSet(db, plan) == {}
  {
  }

  /** Once the plan is not execution-ready, no move completes anything. */
  lemma {:induction false} NothingCompletes(db: Store, plan: PlanId, moves: seq<Move>)
    requires !ExecutionReady(db, plan) && Schedule(db, plan, moves)
    ensures Outcome(db, plan, moves).activities == db.activities
    decreases |moves|
  {
    if moves != [] {
      Withdrawn(db, plan);
      var db' := Moved(db, plan, moves[0]);
      if moves[0].Reconcile? { SummaryNeverReady(db, plan, moves[0].unverified); }
      NothingCompletes(db', plan, moves[1..]);
    }
  }

  lemma SameIncomplete(db: Store, db': Store, plan: PlanId)
    requires db'.activities == db.activities
    ensures Incomplete(db', plan) == Incomplete(db, plan)
  {
    forall a ensures a in Incomplete(db', plan) <==> a in Incomplete(db, plan) {}
  }

  /** Runs interleaved with reconciles: a finishable plan is finished by a schedule exactly when as
      many worker turns come before the first reconcile as activities were incomplete.  So a single
      reconcile before the last completion keeps the plan from ever finishing. */
  lemma {:induction false} FinishesIffNoEarlyReconcile(db: Store, plan: PlanId, moves: seq<Move>)
    requires Finishable(db, plan) && Schedule(db, plan, moves)
    ensures Incomplete(Outcome(db, plan, moves), plan) == {} <==> TurnsBefore(moves) >= |Incomplete(db, plan)|
    decreases |moves|
  {
    if moves != [] {
      var db' := Moved(db, plan, moves[0]);
      match moves[0]
      case Turn(Some(a)) =>
        CompleteFacts(db, plan, a);
        FinishableStep(db, plan, a);
        FinishesIffNoEarlyReconcile(db', plan, moves[1..]);
      case Turn(None) =>
        NoDeadlock(db, plan);
        FinishesIffNoEarlyReconcile(db', plan, moves[1..]);
      case Reconcile(unverified) =>
        SummaryNeverReady(db, plan, unverified);
        NothingCompletes(db', plan, moves[1..]);
        SameIncomplete(db, Outcome(db, plan, moves), plan);
    }
  }

  /** No completion ever follows a reconcile, in any plan. */
  lemma {:induction false} ReconcileEndsCompletions(db: Store, plan: PlanId, moves: seq<Move>, i: nat, j: nat)
    requires Schedule(db, plan, moves) && i < j < |moves| && moves[i].Reconcile?
    ensures moves[j].Turn? ==> moves[j].completed == None
    decreases |moves|
  {
    var db' := Moved(db, plan, moves[0]);
    if i > 0 {
      assert moves[i] == moves[1..][i - 1] && moves[j] == moves[1..][j - 1];
      ReconcileEndsCompletions(db', plan, moves[1..], i - 1, j - 1);
    } else {
      SummaryNeverReady(db, plan, moves[0].unverified);
      assert moves[j] == moves[1..][j - 1];
      IdleWhenWithdrawn(db', plan, moves[1..], j - 1);
    }
  }

  lemma {:induction false} IdleWhenWithdrawn(db: Store, plan: PlanId, moves: seq<Move>, j: nat)
    requires !ExecutionReady(db, plan) && Schedule(db, plan, moves) && j < |moves|
    ensures moves[j].Turn? ==> moves[j].completed == None
    decreases |moves|
  {
    Withdrawn(db, plan);
    if j > 0 {
      if moves[0].Reconcile? { SummaryNeverReady(db, plan, moves[0].unverified); }
      IdleWhenWithdrawn(Moved(db, plan, moves[0]), plan, moves[1..], j - 1);
      assert moves[j] == moves[1..][j - 1];
    }
  }

  /** The completion command's default: every completion is followed by a reconcile at once. */
  predicate EachReconciled(moves: seq<Move>) {
    forall i :: 0 <= i < |moves| && moves[i].Turn? && moves[i].completed.Some? ==> i + 1 < |moves| && moves[i + 1].Reconcile?
  }

  lemma OneTurnAtMost(db: Store, plan: PlanId, moves: seq<Move>)
    requires Finishable(db, plan) && Incomplete(db, plan) != {} && Schedule(db, plan, moves) && EachReconciled(moves)
    ensures TurnsBefore(moves) <= 1
  {
    NoDeadlock(db, plan);
    if moves != [] && moves[0].Turn? {
      assert moves[0].completed.Some?;
      assert moves[1..][0] == moves[1];
    }
  }

  lemma SingleTurn(db: Store, plan: PlanId) returns (moves: seq<Move>)
    requires Finishable(db, plan) && |Incomplete(db, plan)| == 1
    ensures Schedule(db, plan, moves) && EachReconciled(moves) && TurnsBefore(moves) == 1
  {
    NoDeadlock(db, plan);
    var a :| a in NextSet(db, plan);
    var reconcile := [Reconcile({})];
    moves := [Turn(Some(a))] + reconcile;
    assert moves[1..] == reconcile && reconcile[1..] == [];
    assert Schedule(Complete(db, a), plan, reconcile);
  }

  /** Under that default a finishable plan can be finished exactly when at most one activity was
      incomplete. */
  lemma DefaultFinishesIff(db: Store, plan: PlanId)
    requires Finishable(db, plan)
    ensures (exists moves :: Schedule(db, plan, moves) && EachReconciled(moves) && Incomplete(Outcome(db, plan, moves), plan) == {})
       <==> |Incomplete(db, plan)| <= 1
  {
    forall moves | Schedule(db, plan, moves) && EachReconciled(moves) && Incomplete(Outcome(db, plan, moves), plan) == {}
      ensures |Incomplete(db, plan)| <= 1
    {
      FinishesIffNoEarlyReconcile(db, plan, moves);
      if Incomplete(db, plan) != {} { OneTurnAtMost(db, plan, moves); }
    }
    if |Incomplete(db, plan)| == 0 {
      var moves: seq<Move> := [];
      assert Schedule(db, plan, moves) && EachReconciled(moves) && Outcome(db, plan, moves) == db;
    } else if |Incomplete(db, plan)| == 1 {
      var moves := SingleTurn(db, plan);
      FinishesIffNoEarlyReconcile(db, plan, moves);
      assert Schedule(db, plan, moves) && EachReconciled(moves);
    }
  }

  // ---------------------------------------------------------------- an input where a reconcile stops a run

  const PLAN := PlanId("package", "context")
  const ONLY := ActivityId(PLAN, "only")
  const READY_PLAN := Store(map[PLAN := "approved_plan"], map[ONLY := Activity(Planned, 1)], {})

  /** One planned activity: a turn finishes the plan, a turn behind a reconcile finds nothing. */
  lemma ReconcileStops()
    ensures ONLY in NextSet(READY_PLAN, PLAN)
    ensures Incomplete(Complete(READY_PLAN, ONLY), PLAN) == {}
    ensures NextSet(Reconciled(READY_PLAN, PLAN, {}), PLAN) == {}
    ensures ONLY in Incomplete(Reconciled(READY_PLAN, PLAN, {}), PLAN)
  {
    CountsMeetIff(READY_PLAN, ONLY);
    assert Predecessors(READY_PLAN, ONLY) == {};
    SummaryNeverReady(READY_PLAN, PLAN, {});
    Withdrawn(Reconciled(READY_PLAN, PLAN, {}), PLAN);
  }

  const DONE := ActivityId(PLAN, "done")
  const NEXT := ActivityId(PLAN, "next")
  const UNVERIFIED_PLAN := Store(
    map[PLAN := "approved_plan"],
    map[DONE := Activity(Completed, 1), NEXT := Activity(Planned, 2)],
    {(DONE, NEXT)})

  /** A completion that lacks a required verification: the projection offers its successor as next,
      the service has nothing to execute. */
  lemma UnverifiedParts()
    ensures NEXT in NextSet(UNVERIFIED_PLAN, PLAN)
    ensures Executable(UNVERIFIED_PLAN, PLAN, {DONE}) == {}
  {
    assert "done"[0] != "next"[0];
    OfferedThoughUnverified(UNVERIFIED_PLAN, PLAN, DONE, NEXT);
  }

  lemma OfferedThoughUnverified(db: Store, plan: PlanId, done: ActivityId, next: ActivityId)
    requires ExecutionReady(db, plan) && done != next && done.plan == next.plan == plan
    requires db.activities == map[done := Activity(Completed, 1), next := Activity(Planned, 2)] && db.precedes == {(done, next)}
    ensures next in NextSet(db, plan) && Executable(db, plan, {done}) == {}
  {
    assert (done, next) in db.precedes;
    forall p ensures p in Predecessors(db, next) <==> p == done { if p == done { assert (p, next).0 in Predecessors(db, next); } }
    CountsMeetIff(db, next);
    assert Eligible(db, plan, next);
    forall b | b in db.activities && Eligible(db, plan, b) ensures b == next { assert b == done || b == next; }
    assert done !in Classified(db, plan, {done}, IsCompletedNow);
    assert done in Predecessors(db, next);
    forall a ensures a !in Executable(db, plan, {done}) { assert a in db.activities ==> a == done || a == next; }
  }
}
