/** What the progress service makes of stored rows: the class of every activity, what it takes as
    executable, and the one authority state it summarises. */
module ProgressLaws {
  import opened PlanModel
  import opened DeliveryScheduler
  import opened PlanProgress

  /** The four classes, from the stored state and whether a required verification is missing. */
  lemma ClassFromRows(db: Store, plan: PlanId, unverified: set<ActivityId>, a: ActivityId)
    requires a in db.activities && a.plan == plan
    ensures var state := db.activities[a].state;
            && (a in Classified(db, plan, unverified, IsCompletedNow) <==> state == Completed && a !in unverified)
            && (a in Classified(db, plan, unverified, IsBlocked) <==> state == Blocked || (state == Completed && a in unverified))
            && (a in Classified(db, plan, unverified, IsDeferred) <==>
                  state == Deferred || state == Skipped || state == Cancelled || state == Superseded)
            && (a in Classified(db, plan, unverified, IsRemaining) <==>
                  state == Planned || state == Ready || state == Active || state == InProgress)
  {
  }

  lemma OwnActivities(db: Store, plan: PlanId, unverified: set<ActivityId>, c: ProgressClass)
    ensures forall a :: a in Classified(db, plan, unverified, c) ==> a in db.activities && a.plan == plan
  {
  }

  /** Executable: remaining, with every predecessor a verified completion of the same plan. */
  lemma ExecutableFromRows(db: Store, plan: PlanId, unverified: set<ActivityId>, a: ActivityId)
    ensures a in Executable(db, plan, unverified) <==>
            && a in Classified(db, plan, unverified, IsRemaining)
            && forall p :: (p, a) in db.precedes ==>
                 p in db.activities && p.plan == plan && db.activities[p].state == Completed && p !in unverified
  {
    forall p ensures p in Predecessors(db, a) <==> (p, a) in db.precedes {
      if (p, a) in db.precedes { assert (p, a).0 in Predecessors(db, a); }
    }
    forall p ensures p in Classified(db, plan, unverified, IsCompletedNow) <==>
                     p in db.activities && p.plan == plan && db.activities[p].state == Completed && p !in unverified {
      OwnActivities(db, plan, unverified, IsCompletedNow);
      if p in db.activities && p.plan == plan { ClassFromRows(db, plan, unverified, p); }
    }
  }

  function Own(db: Store, plan: PlanId): set<ActivityId> {
    set a | a in db.activities && a.plan == plan
  }

  lemma ApartCounts(all: set<ActivityId>, a: set<ActivityId>, b: set<ActivityId>, c: set<ActivityId>, d: set<ActivityId>)
    requires all == a + b + c + d && a !! b !! c !! d
    ensures |all| == |a| + |b| + |c| + |d|
  {
    assert |a + b| == |a| + |b|;
    assert |a + b + c| == |a + b| + |c|;
  }

  /** The four classes count every activity of the plan once. */
  lemma CountsAddUp(db: Store, plan: PlanId, unverified: set<ActivityId>)
    ensures |Own(db, plan)| ==
            |Classified(db, plan, unverified, IsCompletedNow)| + |Classified(db, plan, unverified, IsRemaining)|
            + |Classified(db, plan, unverified, IsBlocked)| + |Classified(db, plan, unverified, IsDeferred)|
  {
    ApartCounts(Own(db, plan), Classified(db, plan, unverified, IsCompletedNow), Classified(db, plan, unverified, IsRemaining),
                Classified(db, plan, unverified, IsBlocked), Classified(db, plan, unverified, IsDeferred));
  }

  /** The summarised authority state by the counts, without the realization state in between.  Blocked
      counts one more when the next activity is ambiguous. */
  lemma SummaryFromCounts(db: Store, plan: PlanId, unverified: set<ActivityId>)
    ensures var completed, remaining := |Classified(db, plan, unverified, IsCompletedNow)|, |Classified(db, plan, unverified, IsRemaining)|;
            var deferred := |Classified(db, plan, unverified, IsDeferred)|;
            var blocked := |Classified(db, plan, unverified, IsBlocked)| + if IsNext(db, plan, unverified, Ambiguous) then 1 else 0;
            Summary(db, plan, unverified) ==
            if Own(db, plan) == {} then "draft_plan"
            else if completed > 0 && remaining == 0 && blocked == 0 then "completed_plan"
            else if blocked > 0 && (completed == 0 || remaining > 0) then "blocked_plan"
            else if completed == 0 then (if remaining > 0 then "active_plan" else "deferred_plan")
            else if remaining == 0 && deferred > 0 then "deferred_plan"
            else "partially_realized_plan"
  {
    CountsAddUp(db, plan, unverified);
    assert Own(db, plan) == {} <==> |Own(db, plan)| == 0;
    NoneAmbiguous(db, plan, unverified);
  }

  lemma NoneAmbiguous(db: Store, plan: PlanId, unverified: set<ActivityId>)
    ensures IsNext(db, plan, unverified, Ambiguous) <==> |FirstRank(db, plan, unverified)| > 1
  {
  }

  /** reconcile stores the summary in the plan's authority state, if the plan is there, and changes
      nothing else. */
  lemma ReconcileWrites(db: Store, plan: PlanId, unverified: set<ActivityId>)
    ensures var after := Reconciled(db, plan, unverified);
            && after.activities == db.activities && after.precedes == db.precedes
            && after.authority.Keys == db.authority.Keys
            && forall k :: k in db.authority ==>
                 after.authority[k] == if k == plan then Summary(db, plan, unverified) else db.authority[k]
  {
  }

  /** Short of full, blocked and deferred, three quarters completed count as substantial. */
  lemma SubstantialIff(completed: nat, remaining: nat, blocked: nat, deferred: nat, total: nat)
    requires total > 0
    ensures var state := RealizationState(completed, remaining, blocked, deferred, total);
            state in {Partially, Substantially} ==> (state == Substantially <==> completed as real / total as real >= 0.75)
  {
    assert completed as real / total as real >= 0.75 <==> completed as real >= 0.75 * total as real;
  }
}
