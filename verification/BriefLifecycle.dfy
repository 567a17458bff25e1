/** The authority lifecycle of one coder brief: its row, its realization targets and the
    append-only log of authority events, changed by four commands. */
module BriefLifecycle {
  import opened Wrappers
  import opened BriefTargets

  datatype Authority = DraftBrief | ApprovedBrief | PacketReady | SupersededAuthority | RejectedAuthority
  datatype Status = Draft | Approved | Active | Superseded | Consumed | Rejected
  datatype Kind = DeriveDraft | ApproveBrief | MarkPacketReady | SupersedeBrief | RejectBrief | ReopenDraft
  datatype Readiness = DerivationReady | ExecutionReady

  /** One log row; targetCount is the count its evidence records, if any. */
  datatype Event = Event(from: Option<Authority>, to: Authority, kind: Kind, targetCount: Option<nat>)

  datatype Row = Row(
    authority: Authority, status: Status, readiness: Readiness,
    approvedAt: Option<nat>, packetReadyAt: Option<nat>)

  /** `owners` are those whose blueprints were authored as realization targets of the brief. */
  datatype Brief = Brief(row: Option<Row>, owners: set<string>, events: seq<Event>)

  const NO_BRIEF := Brief(None, {}, [])

  datatype Decision = Approve | Reject | Reopen | Unsupported

  /** `ready` is the outcome of derivation readiness and schema validation, `owner` the component and
      slug whose blueprints the package yields (None when a required surface is missing),
      `inputsPresent` the file and package checks of packet preparation, `now` the transaction time. */
  datatype Command =
    | Assemble(ready: bool, persist: bool)
    | AuthorTargets(ready: bool, persist: bool, bound: bool, owner: Option<string>)
    | Review(viaPackage: bool, ready: bool, decision: Decision, now: nat)
    | Prepare(inputsPresent: bool, persist: bool, now: nat)

  datatype Outcome = Failed | Done(transitionApplied: bool)

  // The decision tables.

  function TargetState(d: Decision): Authority
    requires !d.Unsupported?
  {
    match d
    case Approve => ApprovedBrief
    case Reject => RejectedAuthority
    case Reopen => DraftBrief
  }

  function TransitionKind(d: Decision): Kind
    requires !d.Unsupported?
  {
    match d
    case Approve => ApproveBrief
    case Reject => RejectBrief
    case Reopen => ReopenDraft
  }

  function AllowedFrom(d: Decision): set<Authority>
    requires !d.Unsupported?
  {
    match d
    case Approve => {DraftBrief}
    case Reject => {DraftBrief, ApprovedBrief}
    case Reopen => {RejectedAuthority}
  }

  function DecidedStatus(d: Decision): Status
    requires !d.Unsupported?
  {
    match d
    case Approve => Approved
    case Reject => Rejected
    case Reopen => Draft
  }

  function ApprovedAtAfter(d: Decision, now: nat, before: Option<nat>): Option<nat> {
    match d
    case Approve => Some(now)
    case Reopen => None
    case _ => before
  }

  predicate ReviewChecksPass(r: Row, owners: set<string>, d: Decision)
    requires !d.Unsupported?
  {
    && r.authority in AllowedFrom(d)
    && (d.Approve? ==> r.readiness == DerivationReady && TargetCount(owners) > 0)
  }

  predicate PacketChecksPass(r: Row, owners: set<string>, inputsPresent: bool) {
    r.authority in {ApprovedBrief, PacketReady} && TargetCount(owners) > 0 && inputsPresent
  }

  predicate HasDerived(events: seq<Event>) {
    exists i :: 0 <= i < |events| && events[i].kind == DeriveDraft
  }

  // ---------------------------------------------------------------- the commands as steps

  function UpsertDraft(b: Brief): Brief {
    var row := if b.row.Some?
               then b.row.value.(authority := DraftBrief, status := Draft, readiness := DerivationReady)
               else Row(DraftBrief, Draft, DerivationReady, None, None);
    var derived := if HasDerived(b.events) then [] else [Event(None, DraftBrief, DeriveDraft, None)];
    b.(row := Some(row), events := b.events + derived)
  }

  function AssembleStep(b: Brief, ready: bool, persist: bool): (Brief, Outcome) {
    if !ready || (b.row.Some? && b.row.value.authority != DraftBrief) then (b, Failed)
    else (if persist then UpsertDraft(b) else b, Done(false))
  }

  function AuthorStep(b: Brief, ready: bool, persist: bool, bound: bool, owner: Option<string>): (Brief, Outcome) {
    if !ready || !persist || !bound then (b, Failed)
    else
      var (assembled, outcome) := AssembleStep(b, true, true);
      if outcome.Failed? || owner.None? then (assembled, Failed)
      else (assembled.(owners := assembled.owners + {owner.value}), Done(false))
  }

  function DecideStep(b: Brief, decision: Decision, now: nat): (Brief, Outcome) {
    if b.row.None? || decision.Unsupported? then (b, Failed)
    else
      var r := b.row.value;
      if r.authority == TargetState(decision) then (b, Done(false))
      else if !ReviewChecksPass(r, b.owners, decision) then (b, Failed)
      else
        var row := r.(authority := TargetState(decision), status := DecidedStatus(decision),
                      approvedAt := ApprovedAtAfter(decision, now, r.approvedAt));
        var event := Event(Some(r.authority), TargetState(decision), TransitionKind(decision), Some(TargetCount(b.owners)));
        (b.(row := Some(row), events := b.events + [event]), Done(true))
  }

  function ReviewStep(b: Brief, viaPackage: bool, ready: bool, decision: Decision, now: nat): (Brief, Outcome) {
    if viaPackage then
      var (assembled, outcome) := AssembleStep(b, ready, true);
      if outcome.Failed? then (assembled, Failed) else DecideStep(assembled, decision, now)
    else DecideStep(b, decision, now)
  }

  function PrepareStep(b: Brief, inputsPresent: bool, persist: bool, now: nat): (Brief, Outcome) {
    if b.row.None? || !PacketChecksPass(b.row.value, b.owners, inputsPresent) then (b, Failed)
    else
      var r := b.row.value;
      if r.authority != PacketReady then
        var row := r.(authority := PacketReady, status := Active, readiness := ExecutionReady, packetReadyAt := Some(now));
        var event := Event(Some(r.authority), PacketReady, MarkPacketReady, Some(TargetCount(b.owners)));
        (b.(row := Some(row), events := b.events + [event]), Done(true))
      else (if persist then b.(row := Some(r.(readiness := ExecutionReady))) else b, Done(false))
  }

  function Step(b: Brief, c: Command): (Brief, Outcome) {
    match c
    case Assemble(ready, persist) => AssembleStep(b, ready, persist)
    case AuthorTargets(ready, persist, bound, owner) => AuthorStep(b, ready, persist, bound, owner)
    case Review(viaPackage, ready, decision, now) => ReviewStep(b, viaPackage, ready, decision, now)
    case Prepare(inputsPresent, persist, now) => PrepareStep(b, inputsPresent, persist, now)
  }

  /** The state a run of commands reaches, whatever each of them reported. */
  function Run(commands: seq<Command>): Brief {
    if commands == [] then NO_BRIEF
    else Step(Run(commands[..|commands| - 1]), commands[|commands| - 1]).0
  }

  // ---------------------------------------------------------------- the commands on stored state

  class BriefStore {
    var row: Option<Row>
    var owners: set<string>
    var events: seq<Event>

    function State(): Brief
      reads this
    {
      Brief(row, owners, events)
    }

    /** What holds in every state the commands reach from the start. */
    predicate Valid()
      reads this
    {
      Consistent(State())
    }

    constructor ()
      ensures State() == NO_BRIEF && Valid()
    {
      row, owners, events := None, {}, [];
    }

    method AssembleCoderBrief(ready: bool, persist: bool) returns (outcome: Outcome)
      modifies this
      ensures (State(), outcome) == AssembleStep(old(State()), ready, persist)
      ensures outcome.Done? <==> ready && (old(row).None? || old(row).value.authority == DraftBrief)
      ensures !persist || outcome.Failed? ==> State() == old(State())
      ensures old(Valid()) ==> Valid()
    {
      if Valid() { AssembleKeeps(State(), ready, persist); }
      if !ready { return Failed; }
      if row.Some? && row.value.authority != DraftBrief { return Failed; }
      if persist {
        if row.Some? {
          row := Some(row.value.(authority := DraftBrief, status := Draft, readiness := DerivationReady));
        } else {
          row := Some(Row(DraftBrief, Draft, DerivationReady, None, None));
        }
        if !HasDerived(events) {
          events := events + [Event(None, DraftBrief, DeriveDraft, None)];
        } else {
          assert events + [] == events;
        }
      }
      outcome := Done(false);
    }

    method AuthorBriefTargets(ready: bool, persist: bool, bound: bool, owner: Option<string>) returns (outcome: Outcome)
      modifies this
      ensures (State(), outcome) == AuthorStep(old(State()), ready, persist, bound, owner)
      ensures old(Valid()) ==> Valid()
    {
      if Valid() { AuthorKeeps(State(), ready, persist, bound, owner); }
      if !ready || !persist || !bound { return Failed; }
      outcome := AssembleCoderBrief(true, true);
      if outcome.Failed? || owner.None? { return Failed; }
      owners := owners + {owner.value};
    }

    method Decide(decision: Decision, now: nat) returns (outcome: Outcome)
      modifies this
      ensures (State(), outcome) == DecideStep(old(State()), decision, now)
      ensures old(Valid()) ==> Valid()
    {
      if Valid() { DecideKeeps(State(), decision, now); }
      if row.None? || decision.Unsupported? { return Failed; }
      var r := row.value;
      if r.authority == TargetState(decision) { return Done(false); }
      if !ReviewChecksPass(r, owners, decision) { return Failed; }
      events := events + [Event(Some(r.authority), TargetState(decision), TransitionKind(decision), Some(TargetCount(owners)))];
      row := Some(r.(authority := TargetState(decision), status := DecidedStatus(decision),
                     approvedAt := ApprovedAtAfter(decision, now, r.approvedAt)));
      outcome := Done(true);
    }

    method ReviewCoderBrief(viaPackage: bool, ready: bool, decision: Decision, now: nat) returns (outcome: Outcome)
      modifies this
      ensures (State(), outcome) == ReviewStep(old(State()), viaPackage, ready, decision, now)
      ensures old(Valid()) ==> Valid()
    {
      if viaPackage {
        outcome := AssembleCoderBrief(ready, true);
        if outcome.Failed? { return; }
      }
      outcome := Decide(decision, now);
    }

    method PrepareArchitectPacket(inputsPresent: bool, persist: bool, now: nat) returns (outcome: Outcome)
      modifies this
      ensures (State(), outcome) == PrepareStep(old(State()), inputsPresent, persist, now)
      ensures old(Valid()) ==> Valid()
    {
      if Valid() { PrepareKeeps(State(), inputsPresent, persist, now); }
      if row.None? || !PacketChecksPass(row.value, owners, inputsPresent) { return Failed; }
      var r := row.value;
      if r.authority != PacketReady {
        row := Some(r.(authority := PacketReady, status := Active, readiness := ExecutionReady, packetReadyAt := Some(now)));
        events := events + [Event(Some(r.authority), PacketReady, MarkPacketReady, Some(TargetCount(owners)))];
        return Done(true);
      }
      if persist {
        row := Some(r.(readiness := ExecutionReady));
      }
      outcome := Done(false);
    }
  }

  // ---------------------------------------------------------------- the log

  function LastState(events: seq<Event>): Option<Authority> {
    if events == [] then None else Some(events[|events| - 1].to)
  }

  /** The target count the last event records. */
  function LastCount(events: seq<Event>): nat {
    if events == [] || events[|events| - 1].targetCount.None? then 0 else events[|events| - 1].targetCount.value
  }

  /** Targets come in fives, and can have been added since the last event only if the brief was a
      draft in between. */
  predicate CountAllowed(before: Option<Authority>, count: nat, recorded: Option<nat>) {
    recorded.Some? && recorded.value % 5 == 0 && if before == Some(DraftBrief) then recorded.value >= count else recorded.value == count
  }

  predicate LegalEvent(before: Option<Authority>, count: nat, e: Event) {
    e.from == before &&
    match e.kind
    case DeriveDraft => before == None && e.to == DraftBrief && e.targetCount == None
    case ApproveBrief =>
      before == Some(DraftBrief) && e.to == ApprovedBrief && CountAllowed(before, count, e.targetCount) && e.targetCount.value > 0
    case MarkPacketReady => before == Some(ApprovedBrief) && e.to == PacketReady && CountAllowed(before, count, e.targetCount)
    case RejectBrief =>
      before in {Some(DraftBrief), Some(ApprovedBrief)} && e.to == RejectedAuthority && CountAllowed(before, count, e.targetCount)
    case ReopenDraft => before == Some(RejectedAuthority) && e.to == DraftBrief && CountAllowed(before, count, e.targetCount)
    case SupersedeBrief => false
  }

  /** Each event starts where the previous one ended, makes one of the allowed moves, and records a
      target count its predecessors allow. */
  predicate LegalLog(events: seq<Event>) {
    events == [] ||
    var front := events[..|events| - 1];
    LegalLog(front) && LegalEvent(LastState(front), LastCount(front), events[|events| - 1])
  }

  function LastApproval(events: seq<Event>): Option<Event> {
    if events == [] then None
    else if events[|events| - 1].kind == ApproveBrief then Some(events[|events| - 1])
    else LastApproval(events[..|events| - 1])
  }

  /** What the row holds, given the authority state the log replays to. */
  predicate RowConsistent(r: Row) {
    && !r.authority.SupersededAuthority?
    && r.status == (match r.authority
                    case DraftBrief => Draft
                    case ApprovedBrief => Approved
                    case RejectedAuthority => Rejected
                    case _ => Active)
    && (r.readiness == ExecutionReady <==> r.authority == PacketReady)
    && (r.authority == DraftBrief ==> r.approvedAt == None)
    && (r.authority in {ApprovedBrief, PacketReady} ==> r.approvedAt.Some?)
    && (r.packetReadyAt.Some? <==> r.authority == PacketReady)
  }

  /** The invariant of every reachable state. */
  predicate Consistent(b: Brief) {
    && LegalLog(b.events)
    && LastState(b.events) == (if b.row.Some? then Some(b.row.value.authority) else None)
    && (b.row.None? ==> b.owners == {})
    && LastCount(b.events) <= TargetCount(b.owners)
    && (b.row.Some? && b.row.value.authority != DraftBrief ==> LastCount(b.events) == TargetCount(b.owners))
    && (b.row.Some? ==> RowConsistent(b.row.value))
    && (b.row.Some? && b.row.value.authority in {ApprovedBrief, PacketReady} ==>
          TargetCount(b.owners) > 0 && LastApproval(b.events).Some? &&
          LastApproval(b.events).value.targetCount == Some(TargetCount(b.owners)))
  }

  lemma {:induction false} DerivedFirst(events: seq<Event>)
    requires LegalLog(events)
    ensures HasDerived(events) <==> events != []
    ensures forall i :: 0 <= i < |events| ==> (events[i].kind == DeriveDraft <==> i == 0)
    ensures forall i :: 0 <= i < |events| - 1 ==> events[i].kind != MarkPacketReady
  {
    if events != [] {
      var front := events[..|events| - 1];
      DerivedFirst(front);
      assert forall i :: 0 <= i < |front| ==> events[i] == front[i];
    }
  }

  /** The replay, read at one position. */
  lemma {:induction false} LegalAt(events: seq<Event>, i: nat)
    requires LegalLog(events) && i < |events|
    ensures LegalEvent(LastState(events[..i]), LastCount(events[..i]), events[i])
    ensures i > 0 ==> LastState(events[..i]) == Some(events[i - 1].to)
  {
    var front := events[..|events| - 1];
    if i < |front| {
      LegalAt(front, i);
      assert front[..i] == events[..i];
    }
  }

  lemma Appended(events: seq<Event>, e: Event)
    ensures LegalLog(events + [e]) <==> LegalLog(events) && LegalEvent(LastState(events), LastCount(events), e)
    ensures LastCount(events + [e]) == if e.targetCount.Some? then e.targetCount.value else 0
    ensures LastState(events + [e]) == Some(e.to)
    ensures LastApproval(events + [e]) == if e.kind == ApproveBrief then Some(e) else LastApproval(events)
  {
    assert (events + [e])[..|events|] == events;
  }

  lemma AssembleKeeps(b: Brief, ready: bool, persist: bool)
    requires Consistent(b)
    ensures Consistent(AssembleStep(b, ready, persist).0)
  {
    DerivedFirst(b.events);
    assert b.events + [] == b.events;
    Appended(b.events, Event(None, DraftBrief, DeriveDraft, None));
  }

  lemma OwnersGrow(owners: set<string>, owner: string)
    ensures TargetCount(owners) <= TargetCount(owners + {owner})
  {
    if owner in owners { assert owners + {owner} == owners; }
  }

  lemma AuthorKeeps(b: Brief, ready: bool, persist: bool, bound: bool, owner: Option<string>)
    requires Consistent(b)
    ensures Consistent(AuthorStep(b, ready, persist, bound, owner).0)
  {
    AssembleKeeps(b, true, true);
    if owner.Some? { OwnersGrow(b.owners, owner.value); }
  }

  lemma DecideKeeps(b: Brief, decision: Decision, now: nat)
    requires Consistent(b)
    ensures Consistent(DecideStep(b, decision, now).0)
  {
    if b.row.Some? && !decision.Unsupported? {
      Appended(b.events, Event(Some(b.row.value.authority), TargetState(decision), TransitionKind(decision), Some(TargetCount(b.owners))));
    }
  }

  lemma PrepareKeeps(b: Brief, inputsPresent: bool, persist: bool, now: nat)
    requires Consistent(b)
    ensures Consistent(PrepareStep(b, inputsPresent, persist, now).0)
  {
    if b.row.Some? {
      Appended(b.events, Event(Some(b.row.value.authority), PacketReady, MarkPacketReady, Some(TargetCount(b.owners))));
    }
  }

  lemma StepKeeps(b: Brief, c: Command)
    requires Consistent(b)
    ensures Consistent(Step(b, c).0)
  {
    match c
    case Assemble(ready, persist) => AssembleKeeps(b, ready, persist);
    case AuthorTargets(ready, persist, bound, owner) => AuthorKeeps(b, ready, persist, bound, owner);
    case Review(viaPackage, ready, decision, now) =>
      AssembleKeeps(b, ready, true);
      DecideKeeps(if viaPackage then AssembleStep(b, ready, true).0 else b, decision, now);
    case Prepare(inputsPresent, persist, now) => PrepareKeeps(b, inputsPresent, persist, now);
  }

  /** Every reachable state: the log replays to the row, the row is consistent with its authority
      state, and an approved or packet-ready brief still has the targets it was approved with. */
  lemma {:induction false} ReachableIsConsistent(commands: seq<Command>)
    ensures Consistent(Run(commands))
  {
    if commands != [] {
      ReachableIsConsistent(commands[..|commands| - 1]);
      StepKeeps(Run(commands[..|commands| - 1]), commands[|commands| - 1]);
    }
  }

  // ---------------------------------------------------------------- the shape of every run

  function CountKind(events: seq<Event>, kind: Kind): nat {
    if events == [] then 0
    else CountKind(events[..|events| - 1], kind) + if events[|events| - 1].kind == kind then 1 else 0
  }

  /** An approval that is not the first event after the derivation follows a reopening, which in
      turn follows a rejection. */
  lemma BeforeApproval(events: seq<Event>, j: nat)
    requires LegalLog(events) && j < |events| && events[j].kind == ApproveBrief
    ensures j >= 1
    ensures j == 1 || (j >= 3 && events[j - 2].kind == RejectBrief && events[j - 1].kind == ReopenDraft)
  {
    DerivedFirst(events);
    LegalAt(events, j);
    if j > 1 {
      LegalAt(events, j - 1);
      LegalAt(events, j - 2);
    }
  }

  lemma BetweenApprovals(events: seq<Event>, i: nat, j: nat)
    requires LegalLog(events) && i < j < |events|
    requires events[i].kind == ApproveBrief && events[j].kind == ApproveBrief
    ensures i < j - 2 && events[j - 2].kind == RejectBrief && events[j - 1].kind == ReopenDraft
  {
    BeforeApproval(events, i);
    BeforeApproval(events, j);
  }

  /** Between two approvals there is a rejection and after it a reopening. */
  lemma ApprovalsAreSeparated(commands: seq<Command>, i: nat, j: nat)
    requires i < j < |Run(commands).events|
    requires Run(commands).events[i].kind == ApproveBrief && Run(commands).events[j].kind == ApproveBrief
    ensures i < j - 2
    ensures Run(commands).events[j - 2].kind == RejectBrief && Run(commands).events[j - 1].kind == ReopenDraft
  {
    ReachableIsConsistent(commands);
    BetweenApprovals(Run(commands).events, i, j);
  }

  lemma {:induction false} LogCounts(events: seq<Event>)
    requires LegalLog(events)
    ensures CountKind(events, DeriveDraft) == if events == [] then 0 else 1
    ensures CountKind(events, MarkPacketReady) == if LastState(events) == Some(PacketReady) then 1 else 0
    ensures CountKind(events, RejectBrief) ==
            CountKind(events, ReopenDraft) + if LastState(events) == Some(RejectedAuthority) then 1 else 0
    ensures CountKind(events, ApproveBrief) <=
            CountKind(events, ReopenDraft) + if LastState(events) in {None, Some(DraftBrief)} then 0 else 1
  {
    if events != [] { LogCounts(events[..|events| - 1]); }
  }

  /** Log totals over any run: one derivation, at most one packet-ready mark and that one last,
      one rejection for each reopening but perhaps the last, and no more approvals than
      reopenings plus one. */
  lemma RunTotals(commands: seq<Command>)
    ensures var events := Run(commands).events;
            && CountKind(events, DeriveDraft) == (if events == [] then 0 else 1)
            && (events != [] ==> events[0].kind == DeriveDraft)
            && CountKind(events, MarkPacketReady) <= 1
            && (forall i :: 0 <= i < |events| - 1 ==> events[i].kind != MarkPacketReady)
            && CountKind(events, ApproveBrief) <= CountKind(events, ReopenDraft) + 1
            && CountKind(events, ReopenDraft) <= CountKind(events, RejectBrief) <= CountKind(events, ReopenDraft) + 1
  {
    ReachableIsConsistent(commands);
    LogCounts(Run(commands).events);
    DerivedFirst(Run(commands).events);
  }

  /** When a command moves a reachable brief along: a decision exactly from the states it is allowed
      from, an approval only with targets, and a packet exactly once from an approved brief whose
      inputs are present.  Readiness never blocks a draft, nor missing targets an approved brief. */
  lemma TransitionsApplyIff(commands: seq<Command>, decision: Decision, inputsPresent: bool, persist: bool, now: nat)
    ensures var b := Run(commands);
            && (Step(b, Review(false, true, decision, now)).1 == Done(true) <==>
                  && b.row.Some? && !decision.Unsupported? && b.row.value.authority in AllowedFrom(decision)
                  && (decision.Approve? ==> b.owners != {}))
            && (Step(b, Prepare(inputsPresent, persist, now)).1 == Done(true) <==>
                  b.row.Some? && b.row.value.authority == ApprovedBrief && inputsPresent)
  {
    ReachableIsConsistent(commands);
  }

  /** Packet-ready is absorbing: no command changes anything but packet metadata. */
  lemma PacketReadyIsAbsorbing(b: Brief, c: Command)
    requires Consistent(b) && b.row.Some? && b.row.value.authority == PacketReady
    ensures Step(b, c).0 == b
    ensures Step(b, c).1 != Done(true)
  {
  }

  /** Targets are added only while the brief is a draft, and none is ever removed. */
  lemma TargetsGrowInDraft(b: Brief, c: Command)
    ensures b.owners <= Step(b, c).0.owners
    ensures Step(b, c).0.owners != b.owners ==> b.row.None? || b.row.value.authority == DraftBrief
  {
  }

  /** The log is append-only, grows by at most the derivation and one transition, and a decision
      already in force adds nothing. */
  lemma LogAppends(b: Brief, c: Command)
    ensures b.events <= Step(b, c).0.events
    ensures |Step(b, c).0.events| <= |b.events| + 2
    ensures (c.Review? && !c.viaPackage && !c.decision.Unsupported? && b.row.Some? &&
             b.row.value.authority == TargetState(c.decision)) ==> Step(b, c) == (b, Done(false))
  {
  }

  // ---------------------------------------------------------------- every legal log is reached

  /** The command that makes the move of an event. */
  function CommandFor(kind: Kind): Command {
    match kind
    case ApproveBrief => Review(false, true, Approve, 0)
    case RejectBrief => Review(false, true, Reject, 0)
    case ReopenDraft => Review(false, true, Reopen, 0)
    case MarkPacketReady => Prepare(true, true, 0)
    case _ => Assemble(true, true)
  }

  /** A brief whose log is the given one, with the targets of count / 5 owners. */
  predicate Replays(b: Brief, events: seq<Event>, count: nat) {
    Consistent(b) && b.events == events && count % 5 == 0 && b.owners == Tallies(count / 5)
  }

  /** Adding the blueprints of one more owner to a draft. */
  lemma AuthorOneMore(b: Brief, events: seq<Event>, count: nat)
    requires Replays(b, events, count) && LastState(events) == Some(DraftBrief)
    ensures Replays(Step(b, AuthorTargets(true, true, true, Some(Tally(count / 5)))).0, events, count + 5)
  {
    DerivedFirst(events);
    StepKeeps(b, AuthorTargets(true, true, true, Some(Tally(count / 5))));
    assert events + [] == events;
  }

  /** Authoring on until the count is reached. */
  lemma {:induction false} AuthorUpTo(commands: seq<Command>, events: seq<Event>, count: nat, wanted: nat) returns (more: seq<Command>)
    requires Replays(Run(commands), events, count) && LastState(events) == Some(DraftBrief)
    requires count <= wanted && wanted % 5 == 0
    ensures Replays(Run(more), events, wanted)
    decreases wanted - count
  {
    more := commands;
    if count < wanted {
      var author := AuthorTargets(true, true, true, Some(Tally(count / 5)));
      AuthorOneMore(Run(commands), events, count);
      RunThen(commands, author);
      more := AuthorUpTo(commands + [author], events, count + 5, wanted);
    }
  }

  lemma DecisionAppends(b: Brief, e: Event, decision: Decision)
    requires Consistent(b) && !decision.Unsupported? && e.kind == TransitionKind(decision)
    requires LegalEvent(LastState(b.events), LastCount(b.events), e) && e.targetCount == Some(TargetCount(b.owners))
    ensures DecideStep(b, decision, 0).0.events == b.events + [e] && DecideStep(b, decision, 0).0.owners == b.owners
  {
  }

  lemma PacketAppends(b: Brief, e: Event)
    requires Consistent(b) && e.kind == MarkPacketReady
    requires LegalEvent(LastState(b.events), LastCount(b.events), e) && e.targetCount == Some(TargetCount(b.owners))
    ensures PrepareStep(b, true, true, 0).0.events == b.events + [e] && PrepareStep(b, true, true, 0).0.owners == b.owners
  {
  }

  lemma DerivationAppends(b: Brief, e: Event)
    requires Consistent(b) && e.kind == DeriveDraft && LegalEvent(LastState(b.events), LastCount(b.events), e)
    ensures AssembleStep(b, true, true).0.events == b.events + [e] && AssembleStep(b, true, true).0.owners == {}
  {
    assert b.events == [];
  }

  function CountOf(e: Event): nat {
    if e.targetCount.Some? then e.targetCount.value else 0
  }

  lemma EventAppends(b: Brief, events: seq<Event>, e: Event)
    requires Replays(b, events, CountOf(e)) && LegalEvent(LastState(events), LastCount(events), e)
    ensures Step(b, CommandFor(e.kind)).0.events == events + [e] && Step(b, CommandFor(e.kind)).0.owners == b.owners
  {
    TalliesCount(CountOf(e) / 5);
    match e.kind
    case ApproveBrief => DecisionAppends(b, e, Approve);
    case RejectBrief => DecisionAppends(b, e, Reject);
    case ReopenDraft => DecisionAppends(b, e, Reopen);
    case MarkPacketReady => PacketAppends(b, e);
    case DeriveDraft => DerivationAppends(b, e);
    case SupersedeBrief => assert false;
  }

  /** From a brief with as many targets as the event counts, its command appends exactly that event. */
  lemma CommandAppends(b: Brief, events: seq<Event>, e: Event)
    requires Replays(b, events, CountOf(e)) && LegalLog(events + [e])
    ensures Replays(Step(b, CommandFor(e.kind)).0, events + [e], CountOf(e))
  {
    Appended(events, e);
    StepKeeps(b, CommandFor(e.kind));
    EventAppends(b, events, e);
  }

  lemma RunThen(commands: seq<Command>, c: Command)
    ensures Run(commands + [c]) == Step(Run(commands), c).0
  {
    assert (commands + [c])[..|commands|] == commands;
  }

  /** Targets are authored, if need be, until the next event counts as many. */
  lemma AuthorFor(commands: seq<Command>, front: seq<Event>, last: Event) returns (more: seq<Command>)
    requires Replays(Run(commands), front, LastCount(front)) && LegalLog(front + [last])
    ensures Replays(Run(more), front, CountOf(last))
  {
    Appended(front, last);
    more := commands;
    if last.from == Some(DraftBrief) {
      more := AuthorUpTo(commands, front, LastCount(front), CountOf(last));
    } else if last.kind == DeriveDraft {
      assert front == [];
    }
  }

  lemma {:induction false} LegalLogIsReached(events: seq<Event>) returns (commands: seq<Command>)
    requires LegalLog(events)
    ensures Replays(Run(commands), events, LastCount(events))
  {
    if events == [] {
      commands := [];
    } else {
      var front, last := events[..|events| - 1], events[|events| - 1];
      assert events == front + [last];
      commands := LegalLogIsReached(front);
      commands := AuthorFor(commands, front, last);
      CommandAppends(Run(commands), front, last);
      RunThen(commands, CommandFor(last.kind));
      commands := commands + [CommandFor(last.kind)];
    }
  }

  /** The legal logs are exactly the logs of runs: every event, its states and its recorded count. */
  lemma LegalLogsAreReachable(events: seq<Event>)
    ensures LegalLog(events) <==> exists commands :: Run(commands).events == events
  {
    if LegalLog(events) {
      var commands := LegalLogIsReached(events);
      assert Run(commands).events == events;
    }
    forall commands | Run(commands).events == events ensures LegalLog(events) { ReachableIsConsistent(commands); }
  }

  /** Counts along a legal log are multiples of five and never fall, and the packet-ready mark counts
      what the last approval counted. */
  lemma {:induction false} CountsAlongLog(events: seq<Event>)
    requires LegalLog(events)
    ensures forall i :: 0 < i < |events| ==>
              events[i].targetCount.Some? && events[i].targetCount.value % 5 == 0 && LastCount(events[..i]) <= events[i].targetCount.value
    ensures LastState(events) in {Some(ApprovedBrief), Some(PacketReady)} ==>
              LastApproval(events).Some? && LastApproval(events).value.targetCount == Some(LastCount(events))
  {
    if events != [] {
      var front := events[..|events| - 1];
      CountsAlongLog(front);
      forall i | 0 < i < |events|
        ensures events[i].targetCount.Some? && events[i].targetCount.value % 5 == 0 && LastCount(events[..i]) <= events[i].targetCount.value
      {
        LegalAt(events, i);
      }
    }
  }
}
