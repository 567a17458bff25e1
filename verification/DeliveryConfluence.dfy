/** Which activities can ever be completed, one by one: the least set of waiting activities whose
    predecessors are completed or in the set.  All choices among next activities end there. */
module DeliveryConfluence {
  import opened PlanModel
  import opened DeliveryScheduler

  /** Every predecessor of a is completed (in whichever plan) or in s. */
  ghost predicate Supported(db: Store, a: ActivityId, s: set<ActivityId>) {
    forall p :: p in Predecessors(db, a) ==> IsCompleted(db, p) || p in s
  }

  /** s already holds every waiting activity it supports. */
  ghost predicate Saturated(db: Store, plan: PlanId, s: set<ActivityId>) {
    forall a :: Waiting(db, plan, a) && Supported(db, a, s) ==> a in s
  }

  /** The least saturated set. */
  ghost function Completable(db: Store, plan: PlanId): set<ActivityId> {
    set a | a in db.activities && Waiting(db, plan, a) && forall s: set<ActivityId> :: Saturated(db, plan, s) ==> a in s
  }

  lemma CompletableIsLeast(db: Store, plan: PlanId)
    ensures Saturated(db, plan, Completable(db, plan))
    ensures forall s :: Saturated(db, plan, s) ==> Completable(db, plan) <= s
  {
    var least := Completable(db, plan);
    forall a | Waiting(db, plan, a) && Supported(db, a, least) ensures a in least {
      forall s: set<ActivityId> | Saturated(db, plan, s) ensures a in s {
        assert Supported(db, a, s);
      }
    }
  }

  // ---------------------------------------------------------------- what runs reach

  ghost function Done(run: seq<ActivityId>): set<ActivityId> {
    set a | a in run
  }

  lemma {:induction false} RunWaits(db: Store, plan: PlanId, run: seq<ActivityId>)
    requires ValidRun(db, plan, run)
    ensures forall a :: a in run ==> Waiting(db, plan, a)
    ensures forall a :: Waiting(After(db, plan, run), plan, a) <==> Waiting(db, plan, a) && a !in run
    ensures ExecutionReady(After(db, plan, run), plan) <==> ExecutionReady(db, plan)
    ensures After(db, plan, run).precedes == db.precedes
    ensures forall a :: IsCompleted(After(db, plan, run), a) <==> IsCompleted(db, a) || a in run
    decreases |run|
  {
    if run != [] {
      var rest := run[1..];
      CompleteFacts(db, plan, run[0]);
      RunWaits(Complete(db, run[0]), plan, rest);
      assert forall a :: a in run <==> a == run[0] || a in rest;
    }
  }

  lemma StepSupported(db: Store, plan: PlanId, run: seq<ActivityId>, s: set<ActivityId>, n: nat)
    requires ValidRun(db, plan, run) && n < |run| && Done(run[..n]) <= s
    ensures Waiting(db, plan, run[n]) && Supported(db, run[n], s)
  {
    RunIsLinearExtension(db, plan, run);
    RunWaits(db, plan, run);
    assert run[n] in run;
    forall p | p in Predecessors(db, run[n]) ensures IsCompleted(db, p) || p in s {
      assert IsCompleted(db, p) || p in Done(run[..n]);
    }
  }

  /** A run completes members of every saturated set only. */
  lemma {:induction false} RunWithin(db: Store, plan: PlanId, run: seq<ActivityId>, s: set<ActivityId>, n: nat)
    requires ValidRun(db, plan, run) && Saturated(db, plan, s) && n <= |run|
    ensures Done(run[..n]) <= s
  {
    if n > 0 {
      RunWithin(db, plan, run, s, n - 1);
      StepSupported(db, plan, run, s, n - 1);
      assert run[..n] == run[..n - 1] + [run[n - 1]];
    }
  }

  /** Confluence: every run that cannot go on has completed exactly the completable activities
      (nothing at all if the plan is not execution-ready). */
  lemma ExhaustedRun(db: Store, plan: PlanId, run: seq<ActivityId>)
    requires ValidRun(db, plan, run) && NextSet(After(db, plan, run), plan) == {}
    ensures Done(run) == if ExecutionReady(db, plan) then Completable(db, plan) else {}
  {
    if ExecutionReady(db, plan) {
      CompletableIsLeast(db, plan);
      RunWithin(db, plan, run, Completable(db, plan), |run|);
      assert run[..|run|] == run;
      ExhaustedIsSaturated(db, plan, run);
    } else {
      assert NextSet(db, plan) == {};
    }
  }

  lemma ExhaustedIsSaturated(db: Store, plan: PlanId, run: seq<ActivityId>)
    requires ValidRun(db, plan, run) && NextSet(After(db, plan, run), plan) == {} && ExecutionReady(db, plan)
    ensures Saturated(db, plan, Done(run))
  {
    var after := After(db, plan, run);
    RunWaits(db, plan, run);
    Classification(after, plan);
    forall a | Waiting(db, plan, a) && Supported(db, a, Done(run)) ensures a in Done(run) {
      CountsMeetIff(after, a);
      assert Predecessors(after, a) == Predecessors(db, a);
      assert !Eligible(after, plan, a);
    }
  }

  lemma {:induction false} RunToTheEnd(db: Store, plan: PlanId) returns (run: seq<ActivityId>)
    ensures ValidRun(db, plan, run) && NextSet(After(db, plan, run), plan) == {}
    decreases |Incomplete(db, plan)|
  {
    if NextSet(db, plan) == {} {
      run := [];
    } else {
      var a :| a in NextSet(db, plan);
      CompleteFacts(db, plan, a);
      var rest := RunToTheEnd(Complete(db, a), plan);
      run := [a] + rest;
      assert run[1..] == rest;
    }
  }

  /** An activity is completed by some run exactly when the plan is execution-ready and the activity
      is completable. */
  lemma CompletedBySomeRunIff(db: Store, plan: PlanId, a: ActivityId)
    ensures (exists run :: ValidRun(db, plan, run) && a in run) <==> ExecutionReady(db, plan) && a in Completable(db, plan)
  {
    if ExecutionReady(db, plan) && a in Completable(db, plan) {
      var run := RunToTheEnd(db, plan);
      ExhaustedRun(db, plan, run);
      assert a in Done(run);
    }
    forall run | ValidRun(db, plan, run) && a in run ensures ExecutionReady(db, plan) && a in Completable(db, plan) {
      assert run[0] in NextSet(db, plan);
      CompletableIsLeast(db, plan);
      RunWithin(db, plan, run, Completable(db, plan), |run|);
      assert run[..|run|] == run && a in Done(run);
    }
  }

  /** A plan is finishable exactly when nothing is incomplete, or it is execution-ready and every
      incomplete activity is completable. */
  lemma FinishableIff(db: Store, plan: PlanId)
    ensures Finishable(db, plan) <==>
            Incomplete(db, plan) == {} || (ExecutionReady(db, plan) && Incomplete(db, plan) <= Completable(db, plan))
  {
    if Finishable(db, plan) {
      var run := FinishingRun(db, plan);
      RunInvariants(db, plan, run);
      forall a | a in Incomplete(db, plan) ensures ExecutionReady(db, plan) && a in Completable(db, plan) {
        assert a in CompletedSet(After(db, plan, run), plan) by { RunEnds(db, plan, run, a); }
        CompletedBySomeRunIff(db, plan, a);
      }
    } else if ExecutionReady(db, plan) && Incomplete(db, plan) <= Completable(db, plan) {
      var run := RunToTheEnd(db, plan);
      ExhaustedRun(db, plan, run);
      RunWaits(db, plan, run);
      forall a | a in Incomplete(After(db, plan, run), plan) ensures false {
        RunEnds(db, plan, run, a);
      }
      OnlyFinishableFinishes(db, plan, run);
      assert false;
    }
  }

  lemma {:induction false} RunEnds(db: Store, plan: PlanId, run: seq<ActivityId>, a: ActivityId)
    requires ValidRun(db, plan, run)
    ensures InPlan(After(db, plan, run), plan, a) <==> InPlan(db, plan, a)
    ensures InPlan(db, plan, a) ==> (a in Incomplete(After(db, plan, run), plan) <==> a in Incomplete(db, plan) && a !in run)
    decreases |run|
  {
    if run != [] {
      CompleteFacts(db, plan, run[0]);
      RunEnds(Complete(db, run[0]), plan, run[1..], a);
      assert a in run <==> a == run[0] || a in run[1..];
    }
  }

  // ---------------------------------------------------------------- what runs cannot get past

  /** No run of next-set completions reaches the successor of an activity that is neither completed
      nor a waiting activity of the plan: skipped, superseded, blocked, under way, or unfinished in
      another plan. */
  lemma StuckPredecessor(db: Store, plan: PlanId, a: ActivityId, p: ActivityId, run: seq<ActivityId>)
    requires p in Predecessors(db, a) && !IsCompleted(db, p) && !Waiting(db, plan, p)
    requires ValidRun(db, plan, run)
    ensures a !in run
  {
    RunIsLinearExtension(db, plan, run);
    RunWaits(db, plan, run);
    forall i | 0 <= i < |run| ensures run[i] != a {
      assert p in run[..i] ==> p in run;
    }
  }

  /** Completed predecessors count wherever they are: with all of them completed an activity is
      not blocked by them. */
  lemma ForeignPredecessorsCount(db: Store, plan: PlanId, a: ActivityId)
    requires Waiting(db, plan, a) && ExecutionReady(db, plan)
    ensures a in BlockedSet(db, plan) <==> exists p :: p in Predecessors(db, a) && !IsCompleted(db, p)
  {
    CountsMeetIff(db, a);
  }

  const PLAN := PlanId("package", "context")
  const SKIPPED := ActivityId(PLAN, "skipped")
  const SUCCESSOR := ActivityId(PLAN, "successor")
  const STUCK := Store(
    map[PLAN := "approved_plan"],
    map[SKIPPED := Activity(Skipped, 1), SUCCESSOR := Activity(Planned, 2)],
    {(SKIPPED, SUCCESSOR)})

  /** An approved acyclic plan that no run finishes, because one activity was skipped. */
  lemma SkippedBlocksForGood()
    ensures ExecutionReady(STUCK, PLAN) && SUCCESSOR in Incomplete(STUCK, PLAN)
    ensures forall run :: ValidRun(STUCK, PLAN, run) ==> SUCCESSOR !in run
    ensures !Finishable(STUCK, PLAN)
  {
    assert (SKIPPED, SUCCESSOR).0 in Predecessors(STUCK, SUCCESSOR);
    forall run | ValidRun(STUCK, PLAN, run) ensures SUCCESSOR !in run {
      StuckPredecessor(STUCK, PLAN, SUCCESSOR, SKIPPED, run);
    }
    assert SKIPPED in Incomplete(STUCK, PLAN) && !Waiting(STUCK, PLAN, SKIPPED);
  }
}
