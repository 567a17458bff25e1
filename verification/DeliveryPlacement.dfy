/** The projection's sets told from the stored rows: where every activity of a plan stands, and what
    a run does to the rows. */
module DeliveryPlacement {
  import opened PlanModel
  import opened DeliveryScheduler

  predicate Accepting(db: Store, plan: PlanId) {
    plan in db.authority &&
    (db.authority[plan] == "approved_plan" || db.authority[plan] == "approved_brief" ||
     db.authority[plan] == "packet_ready_execution_authority")
  }

  /** Every stored predecessor row of the activity leads to a completed activity. */
  ghost predicate Free(db: Store, a: ActivityId) {
    forall p :: (p, a) in db.precedes ==> p in db.activities && db.activities[p].state == Completed
  }

  ghost predicate Startable(db: Store, plan: PlanId, a: ActivityId) {
    && a in db.activities && a.plan == plan
    && (db.activities[a].state == Planned || db.activities[a].state == Ready)
    && Accepting(db, plan) && Free(db, a)
  }

  lemma EligibleIff(db: Store, plan: PlanId, a: ActivityId)
    ensures Eligible(db, plan, a) && ExecutionReady(db, plan) <==> Startable(db, plan, a)
    ensures ExecutionReady(db, plan) <==> Accepting(db, plan)
    ensures PredecessorCount(db, a) > CompletedPredecessorCount(db, a) <==> !Free(db, a)
  {
    CountsMeetIff(db, a);
    forall p ensures p in Predecessors(db, a) <==> (p, a) in db.precedes {
      if (p, a) in db.precedes { assert (p, a).0 in Predecessors(db, a); }
    }
  }

  /** Membership of each of the five sets, from the stored state, the plan's authority and the
      predecessor rows. */
  lemma SetsFromRows(db: Store, plan: PlanId, a: ActivityId)
    requires a in db.activities && a.plan == plan
    ensures var state := db.activities[a].state;
            && (a in CurrentSet(db, plan) <==> state == Active)
            && (a in CompletedSet(db, plan) <==> state == Completed)
            && (a in BlockedSet(db, plan) <==>
                  state == Blocked || ((state == Planned || state == Ready) && !Startable(db, plan, a)))
            && (a in OpenSet(db, plan) <==> state != Completed && state != Skipped && state != Superseded)
    ensures a in NextSet(db, plan) <==>
            && Startable(db, plan, a)
            && forall b :: Startable(db, plan, b) ==> db.activities[a].sequence <= db.activities[b].sequence
  {
    EligibleIff(db, plan, a);
    forall b ensures Eligible(db, plan, b) && ExecutionReady(db, plan) <==> Startable(db, plan, b) {
      EligibleIff(db, plan, b);
    }
  }

  /** No set holds anything but activities of the plan. */
  lemma NothingForeign(db: Store, plan: PlanId, a: ActivityId)
    requires a in CurrentSet(db, plan) + CompletedSet(db, plan) + BlockedSet(db, plan) + NextSet(db, plan) + OpenSet(db, plan)
    ensures a in db.activities && a.plan == plan
  {
  }

  /** Startable activities behind an earlier startable one. */
  ghost function LaterSet(db: Store, plan: PlanId): set<ActivityId> {
    set a | a in db.activities && Startable(db, plan, a) &&
            exists b :: Startable(db, plan, b) && db.activities[b].sequence < db.activities[a].sequence
  }

  /** Activities in a state no filter of the view tests for. */
  function UnlistedSet(db: Store, plan: PlanId): set<ActivityId> {
    set a | a in db.activities && a.plan == plan &&
            db.activities[a].state in {Skipped, Superseded, InProgress, Deferred, Cancelled}
  }

  lemma Places(db: Store, plan: PlanId, a: ActivityId)
    ensures a in CurrentSet(db, plan) <==> a in db.activities && a.plan == plan && db.activities[a].state == Active
    ensures a in CompletedSet(db, plan) <==> a in db.activities && a.plan == plan && db.activities[a].state == Completed
    ensures a in BlockedSet(db, plan) <==>
            a in db.activities && a.plan == plan &&
            (db.activities[a].state == Blocked || (Waiting(db, plan, a) && !Startable(db, plan, a)))
    ensures a in NextSet(db, plan) + LaterSet(db, plan) <==> Startable(db, plan, a)
    ensures a in NextSet(db, plan) ==> a !in LaterSet(db, plan)
  {
    if a in db.activities && a.plan == plan {
      SetsFromRows(db, plan, a);
    } else if a in CurrentSet(db, plan) + CompletedSet(db, plan) + BlockedSet(db, plan) + NextSet(db, plan) {
      NothingForeign(db, plan, a);
      assert false;
    }
  }

  /** Every activity of the plan has exactly one place. */
  lemma PlacedOnce(db: Store, plan: PlanId)
    ensures (set a | a in db.activities && a.plan == plan) ==
            CurrentSet(db, plan) + CompletedSet(db, plan) + BlockedSet(db, plan) + NextSet(db, plan)
            + LaterSet(db, plan) + UnlistedSet(db, plan)
    ensures CurrentSet(db, plan) !! CompletedSet(db, plan) !! BlockedSet(db, plan) !! NextSet(db, plan)
            !! LaterSet(db, plan) !! UnlistedSet(db, plan)
  {
    var current, completed, blocked := CurrentSet(db, plan), CompletedSet(db, plan), BlockedSet(db, plan);
    var next, later, unlisted := NextSet(db, plan), LaterSet(db, plan), UnlistedSet(db, plan);
    forall a
      ensures a in db.activities && a.plan == plan <==> a in current + completed + blocked + next + later + unlisted
      ensures a in current ==> a !in completed + blocked + next + later + unlisted
      ensures a in completed ==> a !in blocked + next + later + unlisted
      ensures a in blocked ==> a !in next + later + unlisted
      ensures a in next ==> a !in later + unlisted
      ensures a in later ==> a !in unlisted
    {
      Places(db, plan, a);
    }
  }

  /** The reason a blocked activity is reported with. */
  lemma ReasonFromRows(db: Store, plan: PlanId, a: ActivityId)
    requires a in BlockedSet(db, plan)
    ensures BlockingReasonFor(db, plan, a) ==
            if !Accepting(db, plan) then PlanNotExecutionReady
            else if db.activities[a].state == Blocked then ActivityStateBlocked
            else PredecessorIncomplete
    ensures BlockingReasonFor(db, plan, a) == PredecessorIncomplete ==> !Free(db, a)
  {
    EligibleIff(db, plan, a);
  }

  /** A run turns the state of its activities to completed and leaves every other cell as it was. */
  lemma {:induction false} RunChangesStates(db: Store, plan: PlanId, run: seq<ActivityId>)
    requires ValidRun(db, plan, run)
    ensures var after := After(db, plan, run);
            && after.authority == db.authority && after.precedes == db.precedes
            && after.activities == map a | a in db.activities ::
                 if a in run then Activity(Completed, db.activities[a].sequence) else db.activities[a]
    decreases |run|
  {
    if run != [] {
      RunChangesStates(Complete(db, run[0]), plan, run[1..]);
      assert run == [run[0]] + run[1..];
    }
  }
}
