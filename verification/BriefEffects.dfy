/** What each lifecycle command does to the stored row, the targets and the log, told from the
    state before it; and what it leaves out. */
module BriefEffects {
  import opened Wrappers
  import opened BriefTargets
  import opened BriefLifecycle

  predicate DraftOrAbsent(b: Brief) {
    b.row.None? || b.row.value.authority == DraftBrief
  }

  const DERIVATION := Event(None, DraftBrief, DeriveDraft, None)

  // ---------------------------------------------------------------- assembling

  /** A brief as a persisted assembly leaves it: a draft row with its timestamps kept, the targets
      as they were, and the derivation in the log. */
  predicate Drafted(before: Brief, after: Brief) {
    && after.row.Some?
    && after.row.value.authority == DraftBrief && after.row.value.status == Draft
    && after.row.value.readiness == DerivationReady
    && after.row.value.approvedAt == (if before.row.Some? then before.row.value.approvedAt else None)
    && after.row.value.packetReadyAt == (if before.row.Some? then before.row.value.packetReadyAt else None)
    && after.owners == before.owners
    && after.events == (if exists e :: e in before.events && e.kind == DeriveDraft then before.events else before.events + [DERIVATION])
  }

  lemma DerivedIff(events: seq<Event>)
    ensures HasDerived(events) <==> exists e :: e in events && e.kind == DeriveDraft
  {
    if e :| e in events && e.kind == DeriveDraft {
      var i :| 0 <= i < |events| && events[i] == e;
      assert events[i].kind == DeriveDraft;
    }
  }

  lemma AssembleEffect(b: Brief, ready: bool, persist: bool)
    ensures var (after, outcome) := Step(b, Assemble(ready, persist));
            && outcome == (if ready && DraftOrAbsent(b) then Done(false) else Failed)
            && (if outcome.Done? && persist then Drafted(b, after) else after == b)
  {
    DerivedIff(b.events);
    assert b.events + [] == b.events;
  }

  /** A persisted success leaves exactly one derivation in the log. */
  lemma DerivedOnce(b: Brief)
    requires Consistent(b) && DraftOrAbsent(b)
    ensures CountKind(Step(b, Assemble(true, true)).0.events, DeriveDraft) == 1
  {
    var after := Step(b, Assemble(true, true)).0;
    AssembleEffect(b, true, true);
    StepKeeps(b, Assemble(true, true));
    LogCounts(after.events);
  }

  /** A run without its assemblies that are not to be stored. */
  function Storing(commands: seq<Command>): seq<Command> {
    if commands == [] then []
    else
      var front, last := Storing(commands[..|commands| - 1]), commands[|commands| - 1];
      if last.Assemble? && !last.persist then front else front + [last]
  }

  /** Assemblies that are not to be stored leave no trace: a run reaches the same state without them. */
  lemma {:induction false} TrialsLeaveNoTrace(commands: seq<Command>)
    ensures Run(Storing(commands)) == Run(commands)
  {
    if commands != [] {
      var front, last := commands[..|commands| - 1], commands[|commands| - 1];
      TrialsLeaveNoTrace(front);
      if last.Assemble? && !last.persist {
        AssembleEffect(Run(front), last.ready, false);
      } else {
        RunThen(Storing(front), last);
      }
    }
  }

  // ---------------------------------------------------------------- authoring targets

  /** Authoring is assembling and then adding the owner's targets; without the owner's surfaces the
      assembly stays, and without readiness, storing or a bound plan nothing happens. */
  lemma AuthorEffect(b: Brief, ready: bool, persist: bool, bound: bool, owner: Option<string>)
    ensures var (after, outcome) := Step(b, AuthorTargets(ready, persist, bound, owner));
            if ready && persist && bound && DraftOrAbsent(b)
            then && outcome == (if owner.Some? then Done(false) else Failed)
                 && after.owners == b.owners + (if owner.Some? then {owner.value} else {})
                 && Drafted(b, after.(owners := b.owners))
            else outcome == Failed && after == b
  {
    AssembleEffect(b, true, true);
  }

  // ---------------------------------------------------------------- decisions

  /** The states a decision may start from, the state it leads to, and what the row shows then. */
  datatype Move = Move(from: set<Authority>, to: Authority, status: Status, kind: Kind)

  const APPROVAL := Move({DraftBrief}, ApprovedBrief, Approved, ApproveBrief)
  const REJECTION := Move({DraftBrief, ApprovedBrief}, RejectedAuthority, Rejected, RejectBrief)
  const REOPENING := Move({RejectedAuthority}, DraftBrief, Draft, ReopenDraft)

  function MoveOf(d: Decision): Move
    requires !d.Unsupported?
  {
    match d
    case Approve => APPROVAL
    case Reject => REJECTION
    case Reopen => REOPENING
  }

  /** A decision that is allowed changes authority state, status and approval time, and nothing else
      of the row; it logs itself with the number of targets.  Any other decision changes nothing. */
  lemma DecisionEffect(b: Brief, decision: Decision, now: nat)
    requires Consistent(b)
    ensures var (after, outcome) := Step(b, Review(false, true, decision, now));
            if b.row.Some? && !decision.Unsupported? && b.row.value.authority in MoveOf(decision).from
               && (decision.Approve? ==> b.owners != {})
            then
              var move := MoveOf(decision);
              && outcome == Done(true) && after.owners == b.owners
              && after.row == Some(b.row.value.(authority := move.to, status := move.status,
                   approvedAt := if decision.Approve? then Some(now) else if decision.Reopen? then None else b.row.value.approvedAt))
              && after.events == b.events + [Event(Some(b.row.value.authority), move.to, move.kind, Some(5 * |b.owners|))]
            else
              && after == b
              && outcome == (if b.row.Some? && !decision.Unsupported? && b.row.value.authority == MoveOf(decision).to
                             then Done(false) else Failed)
  {
  }

  /** A review by package is an assembly followed by the review, unless the assembly fails. */
  lemma ReviewByPackage(b: Brief, ready: bool, decision: Decision, now: nat)
    ensures var (assembled, first) := Step(b, Assemble(ready, true));
            Step(b, Review(true, ready, decision, now)) ==
            if first.Failed? then (assembled, Failed) else Step(assembled, Review(false, true, decision, now))
  {
  }

  // ---------------------------------------------------------------- preparing the packet

  /** An approved brief whose inputs are present becomes packet-ready, stored or not; a packet-ready
      one is only reported again; nothing else succeeds. */
  lemma PacketEffect(b: Brief, inputsPresent: bool, persist: bool, now: nat)
    requires Consistent(b)
    ensures var (after, outcome) := Step(b, Prepare(inputsPresent, persist, now));
            if b.row.Some? && b.row.value.authority == ApprovedBrief && inputsPresent
            then && outcome == Done(true) && after.owners == b.owners
                 && after.row == Some(Row(PacketReady, Active, ExecutionReady, b.row.value.approvedAt, Some(now)))
                 && after.events == b.events + [Event(Some(ApprovedBrief), PacketReady, MarkPacketReady, Some(5 * |b.owners|))]
            else && after == b
                 && outcome == (if b.row.Some? && b.row.value.authority == PacketReady && inputsPresent then Done(false) else Failed)
  {
  }
}
