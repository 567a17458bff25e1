/** The delivery projection: a declarative scheduler over plan activities and their dependency
    rows.  The view's five activity sets become set comprehensions; the operation that moves
    time forward is completing one member of the next set. */
module DeliveryScheduler {

  import opened PlanModel

  datatype Activity = Activity(state: ActivityState, sequence: int)

  /** The rows the view joins.  A pair in `precedes` is (predecessor, successor); the view joins
      dependency rows by activity only, so a predecessor may belong to another plan. */
  datatype Store = Store(
    authority: map<PlanId, string>,
    activities: map<ActivityId, Activity>,
    precedes: set<(ActivityId, ActivityId)>)

  predicate ExecutionReady(db: Store, plan: PlanId) {
    plan in db.authority &&
    db.authority[plan] in {"approved_plan", "approved_brief", "packet_ready_execution_authority"}
  }

  predicate IsCompleted(db: Store, a: ActivityId) {
    a in db.activities && db.activities[a].state.Completed?
  }

  predicate InPlan(db: Store, plan: PlanId, a: ActivityId) {
    a in db.activities && a.plan == plan
  }

  predicate Waiting(db: Store, plan: PlanId, a: ActivityId) {
    InPlan(db, plan, a) && (db.activities[a].state.Planned? || db.activities[a].state.Ready?)
  }

  function Predecessors(db: Store, a: ActivityId): set<ActivityId> {
    set d | d in db.precedes && d.1 == a :: d.0
  }

  function PredecessorCount(db: Store, a: ActivityId): nat {
    |Predecessors(db, a)|
  }

  function CompletedPredecessorCount(db: Store, a: ActivityId): nat {
    |set p | p in Predecessors(db, a) && IsCompleted(db, p)|
  }

  /** Rows over which the view takes MIN(sequence_order). */
  predicate Eligible(db: Store, plan: PlanId, a: ActivityId) {
    Waiting(db, plan, a) && PredecessorCount(db, a) == CompletedPredecessorCount(db, a)
  }

  // The five activity sets of the view.

  function CurrentSet(db: Store, plan: PlanId): set<ActivityId> {
    set a | a in db.activities && InPlan(db, plan, a) && db.activities[a].state.Active?
  }

  function CompletedSet(db: Store, plan: PlanId): set<ActivityId> {
    set a | a in db.activities && InPlan(db, plan, a) && db.activities[a].state.Completed?
  }

  function BlockedSet(db: Store, plan: PlanId): set<ActivityId> {
    set a | a in db.activities && InPlan(db, plan, a) &&
            (db.activities[a].state.Blocked? ||
             (Waiting(db, plan, a) &&
              (!ExecutionReady(db, plan) || PredecessorCount(db, a) > CompletedPredecessorCount(db, a))))
  }

  function NextSet(db: Store, plan: PlanId): set<ActivityId> {
    set a | a in db.activities && Eligible(db, plan, a) && ExecutionReady(db, plan) &&
            forall b :: b in db.activities && Eligible(db, plan, b) ==>
              db.activities[a].sequence <= db.activities[b].sequence
  }

  function OpenSet(db: Store, plan: PlanId): set<ActivityId> {
    set a | a in db.activities && InPlan(db, plan, a) &&
            db.activities[a].state !in {Completed, Skipped, Superseded}
  }

  datatype BlockingReason =
    | PlanNotExecutionReady | ActivityStateBlocked | PredecessorIncomplete | OtherwiseBlocked

  function BlockingReasonFor(db: Store, plan: PlanId, a: ActivityId): BlockingReason
    requires a in db.activities
  {
    if !ExecutionReady(db, plan) then PlanNotExecutionReady
    else if db.activities[a].state.Blocked? then ActivityStateBlocked
    else if PredecessorCount(db, a) > CompletedPredecessorCount(db, a) then PredecessorIncomplete
    else OtherwiseBlocked
  }

  function Complete(db: Store, a: ActivityId): Store
    requires a in db.activities
  {
    db.(activities := db.activities[a := db.activities[a].(state := Completed)])
  }

  // ---------------------------------------------------------------- classification

  /** The counting test in SQL means what it should: every predecessor is completed. */
  lemma CountsMeetIff(db: Store, a: ActivityId)
    ensures CompletedPredecessorCount(db, a) <= PredecessorCount(db, a)
    ensures PredecessorCount(db, a) == CompletedPredecessorCount(db, a)
       <==> forall p :: p in Predecessors(db, a) ==> IsCompleted(db, p)
  {
    var preds := Predecessors(db, a);
    var done := set p | p in preds && IsCompleted(db, p);
    assert done <= preds;
    SubsetCardinality(done, preds);
  }

  lemma SubsetCardinality<T>(a: set<T>, b: set<T>)
    requires a <= b
    ensures |a| <= |b|
    ensures |a| == |b| <==> a == b
  {
    assert b == a + (b - a);
    assert |b| == |a| + |b - a|;
  }

  /** Every activity of the plan is classified without overlap, the fallback blocking reason is
      never reported, and a plan that is not execution-ready offers nothing. */
  lemma Classification(db: Store, plan: PlanId)
    ensures CurrentSet(db, plan) !! CompletedSet(db, plan) !! BlockedSet(db, plan) !! NextSet(db, plan)
    ensures forall a :: Waiting(db, plan, a) && a !in BlockedSet(db, plan) <==> Eligible(db, plan, a) && ExecutionReady(db, plan)
    ensures CurrentSet(db, plan) + BlockedSet(db, plan) + NextSet(db, plan) <= OpenSet(db, plan)
    ensures CompletedSet(db, plan) !! OpenSet(db, plan)
    ensures forall a :: a in BlockedSet(db, plan) ==> BlockingReasonFor(db, plan, a) != OtherwiseBlocked
    ensures NextSet(db, plan) == {} <==> !ExecutionReady(db, plan) || forall a :: !Eligible(db, plan, a)
  {
    forall a ensures CompletedPredecessorCount(db, a) <= PredecessorCount(db, a) {
      CountsMeetIff(db, a);
    }
    if ExecutionReady(db, plan) && exists a :: Eligible(db, plan, a) {
      var eligible := set a | a in db.activities && Eligible(db, plan, a);
      var a :| Eligible(db, plan, a);
      assert a in eligible;
      var m := LeastSequence(db, eligible);
      assert m in NextSet(db, plan);
    }
  }

  /** Next means earliest: a next activity precedes or ties with every unblocked waiting one, and
      every unblocked waiting activity that ties with it is next as well. */
  lemma NextIsEarliest(db: Store, plan: PlanId, a: ActivityId, b: ActivityId)
    requires a in NextSet(db, plan)
    requires Waiting(db, plan, b) && b !in BlockedSet(db, plan)
    ensures db.activities[a].sequence <= db.activities[b].sequence
    ensures b in NextSet(db, plan) <==> db.activities[a].sequence == db.activities[b].sequence
  {
    Classification(db, plan);
    assert Eligible(db, plan, b);
  }

  lemma {:induction false} LeastSequence(db: Store, s: set<ActivityId>) returns (m: ActivityId)
    requires s != {} && s <= db.activities.Keys
    ensures m in s
    ensures forall b :: b in s ==> db.activities[m].sequence <= db.activities[b].sequence
  {
    m :| m in s;
    if s != {m} {
      var n := LeastSequence(db, s - {m});
      if db.activities[n].sequence < db.activities[m].sequence {
        m := n;
      }
    }
  }

  // ---------------------------------------------------------------- runs

  /** A run completes, one after the other, members of the next set at that moment. */
  ghost predicate ValidRun(db: Store, plan: PlanId, run: seq<ActivityId>)
    decreases |run|
  {
    run == [] ||
    (run[0] in NextSet(db, plan) && ValidRun(Complete(db, run[0]), plan, run[1..]))
  }

  ghost function After(db: Store, plan: PlanId, run: seq<ActivityId>): Store
    requires ValidRun(db, plan, run)
    decreases |run|
  {
    if run == [] then db else After(Complete(db, run[0]), plan, run[1..])
  }

  function Incomplete(db: Store, plan: PlanId): set<ActivityId> {
    set a | a in db.activities && InPlan(db, plan, a) && !db.activities[a].state.Completed?
  }

  lemma CompleteFacts(db: Store, plan: PlanId, a: ActivityId)
    requires a in NextSet(db, plan)
    ensures Waiting(db, plan, a)
    ensures forall p :: p in Predecessors(db, a) ==> IsCompleted(db, p)
    ensures forall x :: Predecessors(Complete(db, a), x) == Predecessors(db, x)
    ensures forall x :: IsCompleted(Complete(db, a), x) <==> IsCompleted(db, x) || x == a
    ensures Incomplete(db, plan) == Incomplete(Complete(db, a), plan) + {a}
    ensures a !in Incomplete(Complete(db, a), plan)
    ensures |Incomplete(db, plan)| == |Incomplete(Complete(db, a), plan)| + 1
  {
    CountsMeetIff(db, a);
    var rest := Incomplete(Complete(db, a), plan);
    assert Incomplete(db, plan) == rest + {a};
  }

  /** The completion order is a linear extension of the dependency relation: each predecessor of
      the i-th completed activity was completed at the start or earlier in the run. */
  lemma {:induction false} RunIsLinearExtension(db: Store, plan: PlanId, run: seq<ActivityId>)
    requires ValidRun(db, plan, run)
    ensures forall i, p :: 0 <= i < |run| && p in Predecessors(db, run[i]) ==>
              IsCompleted(db, p) || p in run[..i]
    ensures forall i :: 0 <= i < |run| ==> run[i] in Incomplete(db, plan)
    ensures forall i, j :: 0 <= i < j < |run| ==> run[i] != run[j]
    decreases |run|
  {
    if run != [] {
      var db' := Complete(db, run[0]);
      CompleteFacts(db, plan, run[0]);
      RunIsLinearExtension(db', plan, run[1..]);
      forall i, p | 0 <= i < |run| && p in Predecessors(db, run[i])
        ensures IsCompleted(db, p) || p in run[..i]
      {
        if i > 0 {
          assert run[i] == run[1..][i - 1];
          assert run[..i] == [run[0]] + run[1..][..i - 1];
        }
      }
      forall i | 0 <= i < |run| ensures run[i] in Incomplete(db, plan) {
        if i > 0 { assert run[i] == run[1..][i - 1]; }
      }
      forall i, j | 0 <= i < j < |run| ensures run[i] != run[j] {
        assert run[j] == run[1..][j - 1];
        if i > 0 { assert run[i] == run[1..][i - 1]; }
      }
    }
  }

  ghost predicate ClosedUnderPredecessors(db: Store, plan: PlanId) {
    forall a, p :: a in CompletedSet(db, plan) && p in Predecessors(db, a) ==> IsCompleted(db, p)
  }

  /** What every run keeps: completed activities stay completed, closure under predecessors is
      preserved, and nothing unblocked ever enters the blocked set. */
  lemma {:induction false} RunInvariants(db: Store, plan: PlanId, run: seq<ActivityId>)
    requires ValidRun(db, plan, run)
    ensures forall a :: a in CompletedSet(After(db, plan, run), plan) <==> a in CompletedSet(db, plan) || a in run
    ensures ClosedUnderPredecessors(db, plan) ==> ClosedUnderPredecessors(After(db, plan, run), plan)
    ensures BlockedSet(After(db, plan, run), plan) <= BlockedSet(db, plan)
    decreases |run|
  {
    if run != [] {
      var db' := Complete(db, run[0]);
      StepInvariants(db, plan, run[0]);
      RunInvariants(db', plan, run[1..]);
      assert forall a :: a in run <==> a == run[0] || a in run[1..];
    }
  }

  lemma StepInvariants(db: Store, plan: PlanId, a: ActivityId)
    requires a in NextSet(db, plan)
    ensures CompletedSet(Complete(db, a), plan) == CompletedSet(db, plan) + {a}
    ensures ClosedUnderPredecessors(db, plan) ==> ClosedUnderPredecessors(Complete(db, a), plan)
    ensures BlockedSet(Complete(db, a), plan) <= BlockedSet(db, plan)
  {
    CompleteFacts(db, plan, a);
    CompletingUnblocks(db, plan, a);
  }

  lemma CompletingUnblocks(db: Store, plan: PlanId, a: ActivityId)
    requires a in NextSet(db, plan)
    ensures BlockedSet(Complete(db, a), plan) <= BlockedSet(db, plan)
  {
    var db' := Complete(db, a);
    CompleteFacts(db, plan, a);
    forall b | b in BlockedSet(db', plan) ensures b in BlockedSet(db, plan) {
      CountsMeetIff(db, b);
      CountsMeetIff(db', b);
    }
  }

  // ---------------------------------------------------------------- no deadlock

  ghost predicate Linked(db: Store, w: seq<ActivityId>, i: int)
    requires 0 < i < |w|
  {
    w[i - 1] in Predecessors(db, w[i])
  }

  /** A walk follows dependency rows from predecessor to successor. */
  ghost predicate Walk(db: Store, w: seq<ActivityId>) {
    forall i :: 0 < i < |w| ==> Linked(db, w, i)
  }

  ghost predicate HasPredecessorIn(db: Store, s: set<ActivityId>, a: ActivityId) {
    exists p :: p in s && p in Predecessors(db, a)
  }

  ghost predicate CycleWithin(db: Store, s: set<ActivityId>, w: seq<ActivityId>) {
    && |w| >= 2 && w[0] == w[|w| - 1] && Walk(db, w)
    && forall i :: 0 <= i < |w| ==> w[i] in s
  }

  ghost predicate Acyclic(db: Store, s: set<ActivityId>) {
    forall w :: !CycleWithin(db, s, w)
  }

  /** What a run can finish from: nothing is left, or the plan is execution-ready, whatever is
      left is planned or ready, waits only for activities of this plan, and is free of cycles. */
  ghost predicate Finishable(db: Store, plan: PlanId) {
    var open := Incomplete(db, plan);
    open == {} ||
    (&& ExecutionReady(db, plan)
     && (forall a :: a in open ==> Waiting(db, plan, a))
     && (forall a, p :: a in open && p in Predecessors(db, a) ==> IsCompleted(db, p) || p in open)
     && Acyclic(db, open))
  }

  ghost predicate SourceFree(db: Store, s: set<ActivityId>) {
    forall a {:trigger HasPredecessorIn(db, s, a)} :: a in s ==> HasPredecessorIn(db, s, a)
  }

  lemma {:induction false} Pigeonhole(s: set<ActivityId>, w: seq<ActivityId>) returns (i: nat, j: nat)
    requires |w| > |s|
    requires forall k :: 0 <= k < |w| ==> w[k] in s
    ensures i < j < |w| && w[i] == w[j]
  {
    assert w[0] in s;
    if k: nat :| 0 < k < |w| && w[k] == w[0] {
      i, j := 0, k;
    } else {
      i, j := Pigeonhole(s - {w[0]}, w[1..]);
      i, j := i + 1, j + 1;
    }
  }

  /** Walk backwards n steps inside a set whose every member has a predecessor in the set. */
  lemma {:induction false} WalkBack(db: Store, s: set<ActivityId>, n: nat) returns (w: seq<ActivityId>)
    requires s != {}
    requires SourceFree(db, s)
    ensures |w| == n + 1 && Walk(db, w)
    ensures forall i :: 0 <= i < |w| ==> w[i] in s
  {
    if n == 0 {
      var a :| a in s;
      w := [a];
    } else {
      var v := WalkBack(db, s, n - 1);
      assert HasPredecessorIn(db, s, v[0]);
      var p :| p in s && p in Predecessors(db, v[0]);
      w := [p] + v;
      forall i | 0 < i < |w| ensures Linked(db, w, i) {
        if i > 1 { assert Linked(db, v, i - 1); }
      }
    }
  }

  lemma SourceFreeHasCycle(db: Store, s: set<ActivityId>)
    requires s != {} && SourceFree(db, s)
    ensures exists w :: CycleWithin(db, s, w)
  {
    var w := WalkBack(db, s, |s|);
    var i, j := Pigeonhole(s, w);
    var c := w[i..j + 1];
    forall k | 0 < k < |c| ensures Linked(db, c, k) {
      assert Linked(db, w, i + k);
    }
    assert CycleWithin(db, s, c);
  }

  /** The finite-DAG argument: a non-empty acyclic set has a member with no predecessor in it. */
  lemma AcyclicHasSource(db: Store, s: set<ActivityId>) returns (a: ActivityId)
    requires s != {} && Acyclic(db, s)
    ensures a in s && forall p :: p in Predecessors(db, a) ==> p !in s
  {
    if SourceFree(db, s) { SourceFreeHasCycle(db, s); }
    a :| a in s && !HasPredecessorIn(db, s, a);
  }

  /** No deadlock: something is next exactly when something is incomplete. */
  lemma NoDeadlock(db: Store, plan: PlanId)
    requires Finishable(db, plan)
    ensures NextSet(db, plan) == {} <==> Incomplete(db, plan) == {}
  {
    var open := Incomplete(db, plan);
    Classification(db, plan);
    if open != {} {
      var a := AcyclicHasSource(db, open);
      CountsMeetIff(db, a);
      assert Eligible(db, plan, a);
    }
  }

  lemma FinishableStep(db: Store, plan: PlanId, a: ActivityId)
    requires a in NextSet(db, plan)
    ensures Finishable(db, plan) <==> Finishable(Complete(db, a), plan)
  {
    CompleteFacts(db, plan, a);
    AcyclicStep(db, plan, a);
    if Finishable(Complete(db, a), plan) { FinishableBefore(db, plan, a); }
  }

  lemma FinishableBefore(db: Store, plan: PlanId, a: ActivityId)
    requires a in NextSet(db, plan) && Finishable(Complete(db, a), plan)
    ensures Finishable(db, plan)
  {
    var db' := Complete(db, a);
    CompleteFacts(db, plan, a);
    AcyclicStep(db, plan, a);
    var open, open' := Incomplete(db, plan), Incomplete(db', plan);
    forall b | b in open ensures Waiting(db, plan, b) {
      if b != a { assert Waiting(db', plan, b); }
    }
    forall b, p | b in open && p in Predecessors(db, b) ensures IsCompleted(db, p) || p in open {
      if b != a { assert IsCompleted(db', p) || p in open'; }
    }
    assert open' == {} ==> Acyclic(db', open');
  }

  /** Completing a next activity neither makes nor breaks a cycle of incomplete ones. */
  lemma AcyclicStep(db: Store, plan: PlanId, a: ActivityId)
    requires a in NextSet(db, plan)
    ensures Acyclic(db, Incomplete(db, plan)) <==> Acyclic(Complete(db, a), Incomplete(Complete(db, a), plan))
  {
    var db' := Complete(db, a);
    CompleteFacts(db, plan, a);
    var open, open' := Incomplete(db, plan), Incomplete(db', plan);
    forall w ensures CycleWithin(db, open, w) <==> CycleWithin(db', open', w) {
      SameWalks(db, db', w);
      if CycleWithin(db, open, w) { CycleAvoids(db, open, w, a); }
    }
  }

  lemma SameWalks(db: Store, db': Store, w: seq<ActivityId>)
    requires db.precedes == db'.precedes
    ensures Walk(db, w) <==> Walk(db', w)
  {
    forall i | 0 < i < |w| ensures Linked(db, w, i) <==> Linked(db', w, i) {}
  }

  /** An activity all of whose predecessors are completed lies on no cycle of incomplete ones. */
  lemma CycleAvoids(db: Store, s: set<ActivityId>, w: seq<ActivityId>, a: ActivityId)
    requires CycleWithin(db, s, w)
    requires forall p :: p in Predecessors(db, a) ==> IsCompleted(db, p)
    requires forall x :: x in s ==> !IsCompleted(db, x)
    ensures forall i :: 0 <= i < |w| ==> w[i] != a
  {
    forall i | 0 <= i < |w| ensures w[i] != a {
      var k := if i == 0 then |w| - 1 else i;
      assert w[k - 1] in s && Linked(db, w, k);
    }
  }

  /** Termination: from a finishable plan every run, however it chooses among next activities,
      has one step for each activity it removes from the incomplete set, can be continued while
      something is incomplete, and so ends after exactly as many steps as were incomplete. */
  lemma {:induction false} EveryRunFinishes(db: Store, plan: PlanId, run: seq<ActivityId>)
    requires Finishable(db, plan) && ValidRun(db, plan, run)
    ensures Finishable(After(db, plan, run), plan)
    ensures |run| + |Incomplete(After(db, plan, run), plan)| == |Incomplete(db, plan)|
    ensures NextSet(After(db, plan, run), plan) == {} <==> |run| == |Incomplete(db, plan)|
    decreases |run|
  {
    if run == [] {
      NoDeadlock(db, plan);
    } else {
      CompleteFacts(db, plan, run[0]);
      FinishableStep(db, plan, run[0]);
      EveryRunFinishes(Complete(db, run[0]), plan, run[1..]);
    }
  }

  lemma {:induction false} FinishingRun(db: Store, plan: PlanId) returns (run: seq<ActivityId>)
    requires Finishable(db, plan)
    ensures ValidRun(db, plan, run)
    ensures Incomplete(After(db, plan, run), plan) == {}
    decreases |Incomplete(db, plan)|
  {
    if Incomplete(db, plan) == {} {
      run := [];
    } else {
      NoDeadlock(db, plan);
      var a :| a in NextSet(db, plan);
      CompleteFacts(db, plan, a);
      FinishableStep(db, plan, a);
      var rest := FinishingRun(Complete(db, a), plan);
      run := [a] + rest;
      assert run[1..] == rest;
    }
  }

  lemma {:induction false} OnlyFinishableFinishes(db: Store, plan: PlanId, run: seq<ActivityId>)
    requires ValidRun(db, plan, run) && Incomplete(After(db, plan, run), plan) == {}
    ensures Finishable(db, plan)
    decreases |run|
  {
    if run != [] {
      OnlyFinishableFinishes(Complete(db, run[0]), plan, run[1..]);
      FinishableStep(db, plan, run[0]);
    }
  }

  /** The exact condition under which the scheduler can drive a plan to completion. */
  lemma CanFinishIff(db: Store, plan: PlanId)
    ensures (exists run :: ValidRun(db, plan, run) && Incomplete(After(db, plan, run), plan) == {})
       <==> Finishable(db, plan)
  {
    if Finishable(db, plan) {
      var run := FinishingRun(db, plan);
    }
    if run :| ValidRun(db, plan, run) && Incomplete(After(db, plan, run), plan) == {} {
      OnlyFinishableFinishes(db, plan, run);
    }
  }
}
