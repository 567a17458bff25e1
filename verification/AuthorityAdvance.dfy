/** Advancing the authority manifest after a merge: task statuses, the accepted history and the
    authority version. */
module AuthorityAdvance {
  import opened Wrappers
  import opened Ordering

  datatype Task = Task(taskId: string, issue: Option<int>, status: string, successors: seq<string>, body: string)
  datatype Accepted = Accepted(issue: Option<int>, taskId: string, body: string)
  datatype Manifest = Manifest(tasks: seq<Task>, history: seq<Accepted>, version: string)

  datatype Outcome = TaskNotFound | AmbiguousSuccessor(count: nat) | Advanced(completed: string, next: Option<string>)

  // ---------------------------------------------------------------- finding a task

  predicate Matches(t: Task, issue: Option<int>, taskId: Option<string>) {
    (issue.Some? && t.issue == issue) || (taskId.Some? && t.taskId == taskId.value)
  }

  /** Index of the first matching task, or |tasks|. */
  function FindIndex(tasks: seq<Task>, issue: Option<int>, taskId: Option<string>): (i: nat)
    ensures i <= |tasks|
    ensures i < |tasks| ==> Matches(tasks[i], issue, taskId)
    ensures forall k :: 0 <= k < i ==> !Matches(tasks[k], issue, taskId)
  {
    if tasks == [] || Matches(tasks[0], issue, taskId) then 0 else 1 + FindIndex(tasks[1..], issue, taskId)
  }

  /** Indices of the successors that exist, in the order they are listed. */
  function SuccessorIndices(tasks: seq<Task>, ids: seq<string>): (r: seq<nat>)
    ensures forall k :: 0 <= k < |r| ==> r[k] < |tasks|
  {
    if ids == [] then []
    else
      var i := FindIndex(tasks, None, Some(ids[0]));
      (if i < |tasks| then [i] else []) + SuccessorIndices(tasks, ids[1..])
  }

  // ---------------------------------------------------------------- versions

  predicate IsDigit(c: char) {
    '0' <= c <= '9'
  }

  predicate IsDecimal(s: string) {
    s != "" && forall i :: 0 <= i < |s| ==> IsDigit(s[i])
  }

  function Digit(n: nat): char
    requires n < 10
  {
    ('0' as int + n) as char
  }

  function Decimal(n: nat): string {
    if n < 10 then [Digit(n)] else Decimal(n / 10) + [Digit(n % 10)]
  }

  function DecimalValue(s: string): nat
    requires forall i :: 0 <= i < |s| ==> IsDigit(s[i])
  {
    if s == "" then 0
    else
      assert IsDigit(s[|s| - 1]);
      10 * DecimalValue(s[..|s| - 1]) + (s[|s| - 1] as int - '0' as int)
  }

  /** Position of the last '.', or -1. */
  function LastDot(s: string): (k: int)
    ensures -1 <= k < |s|
    ensures k >= 0 ==> s[k] == '.'
    ensures forall i :: k < i < |s| ==> s[i] != '.'
  {
    if s == "" then -1 else if s[|s| - 1] == '.' then |s| - 1 else LastDot(s[..|s| - 1])
  }

  function BumpVersion(current: string, today: string): string {
    var k := LastDot(current);
    if k >= 0 && current[..k] == today && IsDecimal(current[k + 1..])
    then today + "." + Decimal(DecimalValue(current[k + 1..]) + 1)
    else today + ".1"
  }

  /** An ISO calendar date by shape; dates of this shape compare as strings. */
  predicate IsoDate(s: string) {
    |s| == 10 && forall i :: 0 <= i < 10 ==> if i == 4 || i == 7 then s[i] == '-' else IsDigit(s[i])
  }

  predicate WellFormedVersion(v: string) {
    var k := LastDot(v);
    k >= 0 && IsoDate(v[..k]) && IsDecimal(v[k + 1..])
  }

  function VersionDate(v: string): string
    requires WellFormedVersion(v)
  {
    v[..LastDot(v)]
  }

  function VersionCounter(v: string): nat
    requires WellFormedVersion(v)
  {
    DecimalValue(v[LastDot(v) + 1..])
  }

  /** Versions compare by date, then by counter. */
  datatype Rank = Rank(date: string, counter: nat)

  function RankOf(v: string): Rank
    requires WellFormedVersion(v)
  {
    Rank(VersionDate(v), VersionCounter(v))
  }

  predicate RankLess(a: Rank, b: Rank) {
    if a.date == b.date then a.counter < b.counter else StrLe(a.date, b.date)
  }

  predicate VersionLess(a: string, b: string)
    requires WellFormedVersion(a) && WellFormedVersion(b)
  {
    RankLess(RankOf(a), RankOf(b))
  }

  // ---------------------------------------------------------------- the advance

  predicate IsRecorded(history: seq<Accepted>, taskId: string) {
    exists i :: 0 <= i < |history| && history[i].taskId == taskId
  }

  /** The i-th task complete, then its first successor, if any, in development. */
  function AdvancedTasks(tasks: seq<Task>, i: nat, successors: seq<nat>): seq<Task>
    requires i < |tasks| && forall k :: 0 <= k < |successors| ==> successors[k] < |tasks|
  {
    var completed := tasks[i := tasks[i].(status := "complete")];
    if successors == [] then completed
    else completed[successors[0] := completed[successors[0]].(status := "in_dev")]
  }

  function WithAccepted(history: seq<Accepted>, t: Task): seq<Accepted> {
    if IsRecorded(history, t.taskId) then history else history + [Accepted(t.issue, t.taskId, t.body)]
  }

  function Advance(m: Manifest, issue: Option<int>, taskId: Option<string>, today: string): (Manifest, Outcome) {
    var i := FindIndex(m.tasks, issue, taskId);
    if i == |m.tasks| then (m, TaskNotFound)
    else
      var current := m.tasks[i];
      var successors := SuccessorIndices(m.tasks, current.successors);
      if |successors| > 1 then (m, AmbiguousSuccessor(|successors|))
      else
        (Manifest(AdvancedTasks(m.tasks, i, successors), WithAccepted(m.history, current), BumpVersion(m.version, today)),
         Advanced(current.taskId, if successors == [] then None else Some(m.tasks[successors[0]].taskId)))
  }

  class AuthorityManifest {
    var tasks: seq<Task>
    var history: seq<Accepted>
    var version: string

    function State(): Manifest
      reads this
    {
      Manifest(tasks, history, version)
    }

    /** No task is recorded twice, and every complete task is recorded. */
    predicate Valid()
      reads this
    {
      HistoryValid(State())
    }

    /** The scan of find_task. */
    method FindTask(issue: Option<int>, taskId: Option<string>) returns (i: nat)
      ensures i == FindIndex(tasks, issue, taskId)
    {
      i := 0;
      while i < |tasks|
        invariant i <= |tasks|
        invariant forall k :: 0 <= k < i ==> !Matches(tasks[k], issue, taskId)
      {
        if Matches(tasks[i], issue, taskId) { return; }
        i := i + 1;
      }
    }

    method CompleteTask(i: nat, successors: seq<nat>)
      requires i < |tasks| && |successors| <= 1 && forall k :: 0 <= k < |successors| ==> successors[k] < |tasks|
      modifies this`tasks
      ensures tasks == AdvancedTasks(old(tasks), i, successors)
    {
      tasks := tasks[i := tasks[i].(status := "complete")];
      if |successors| == 1 {
        tasks := tasks[successors[0] := tasks[successors[0]].(status := "in_dev")];
      }
    }

    method Accept(t: Task)
      modifies this`history
      ensures history == WithAccepted(old(history), t)
    {
      if !IsRecorded(history, t.taskId) {
        history := history + [Accepted(t.issue, t.taskId, t.body)];
      }
    }

    method AdvanceAfterMerge(issue: Option<int>, taskId: Option<string>, today: string) returns (outcome: Outcome)
      modifies this
      ensures (State(), outcome) == Advance(old(State()), issue, taskId, today)
      ensures old(history) <= history && (old(Valid()) ==> Valid())
      ensures outcome.Advanced? ==> IsRecorded(history, outcome.completed)
      ensures !outcome.Advanced? ==> State() == old(State())
    {
      AdvancePromises(State(), Command(issue, taskId, today));
      outcome := ApplyAdvance(issue, taskId, today);
    }

    method ApplyAdvance(issue: Option<int>, taskId: Option<string>, today: string) returns (outcome: Outcome)
      modifies this
      ensures (State(), outcome) == Advance(old(State()), issue, taskId, today)
    {
      var i := FindTask(issue, taskId);
      if i == |tasks| { return TaskNotFound; }
      var current := tasks[i];
      var successors := SuccessorIndices(tasks, current.successors);
      if |successors| > 1 { return AmbiguousSuccessor(|successors|); }
      var next := if successors == [] then None else Some(tasks[successors[0]].taskId);
      CompleteTask(i, successors);
      Accept(current);
      version := BumpVersion(version, today);
      outcome := Advanced(current.taskId, next);
    }
  }

  // ---------------------------------------------------------------- decimal and version laws

  lemma {:induction false} DecimalRoundTrip(n: nat)
    ensures IsDecimal(Decimal(n)) && DecimalValue(Decimal(n)) == n
  {
    if n >= 10 {
      DecimalRoundTrip(n / 10);
      assert Decimal(n)[..|Decimal(n)| - 1] == Decimal(n / 10);
    }
  }

  lemma {:induction false} LastDotOf(a: string, b: string)
    requires forall i :: 0 <= i < |b| ==> b[i] != '.'
    ensures LastDot(a + "." + b) == |a|
  {
    var s := a + "." + b;
    assert s[|a|] == '.';
    assert forall i :: |a| < i < |s| ==> s[i] == b[i - |a| - 1];
  }

  lemma VersionParts(date: string, counter: nat)
    requires IsoDate(date)
    ensures var v := date + "." + Decimal(counter);
            WellFormedVersion(v) && VersionDate(v) == date && VersionCounter(v) == counter
  {
    var v := date + "." + Decimal(counter);
    DecimalRoundTrip(counter);
    LastDotOf(date, Decimal(counter));
    assert v[..|date|] == date && v[|date| + 1..] == Decimal(counter);
  }

  lemma BumpSameDay(current: string)
    requires WellFormedVersion(current)
    ensures BumpVersion(current, VersionDate(current)) == VersionDate(current) + "." + Decimal(VersionCounter(current) + 1)
  {
  }

  lemma BumpOtherDay(current: string, today: string)
    requires WellFormedVersion(current) && VersionDate(current) != today
    ensures BumpVersion(current, today) == today + "." + Decimal(1)
  {
    assert Decimal(1) == "1";
    assert today + "." + "1" == today + ".1";
  }

  /** A bump yields a well-formed version of today, and a greater one exactly when the current
      version is dated no later than today. */
  lemma BumpIncreasesIff(current: string, today: string)
    requires WellFormedVersion(current) && IsoDate(today)
    ensures WellFormedVersion(BumpVersion(current, today))
    ensures VersionDate(BumpVersion(current, today)) == today
    ensures VersionLess(current, BumpVersion(current, today)) <==> StrLe(VersionDate(current), today)
  {
    StrTotal(VersionDate(current), today);
    if VersionDate(current) == today {
      BumpSameDay(current);
      VersionParts(today, VersionCounter(current) + 1);
    } else {
      BumpOtherDay(current, today);
      VersionParts(today, 1);
    }
  }

  const LATER := "2026-02-01"
  const EARLIER := "2026-01-31"

  /** A clock behind the version's date takes the version backwards. */
  lemma BumpCanGoBack()
    ensures var current := LATER + "." + Decimal(7);
            && WellFormedVersion(current) && IsoDate(EARLIER)
            && WellFormedVersion(BumpVersion(current, EARLIER))
            && VersionLess(BumpVersion(current, EARLIER), current)
  {
    EarlierDate();
    VersionParts(LATER, 7);
    VersionParts(EARLIER, 1);
    BumpOtherDay(LATER + "." + Decimal(7), EARLIER);
  }

  lemma EarlierDate()
    ensures IsoDate(EARLIER) && IsoDate(LATER) && StrLe(EARLIER, LATER) && EARLIER != LATER
  {
    EarlierFirst();
    assert EARLIER[6] != LATER[6];
  }

  lemma EarlierFirst()
    ensures StrLe(EARLIER, LATER)
  {
    assert EARLIER[6] == '1' && LATER[6] == '2';
    assert EARLIER[..6] == LATER[..6];
    DiffersAt(EARLIER, LATER, 6);
  }

  lemma {:induction false} DiffersAt(a: string, b: string, n: nat)
    requires n < |a| && n < |b| && a[..n] == b[..n] && a[n] < b[n]
    ensures StrLe(a, b)
  {
    if n > 0 {
      assert a[0] == a[..n][0] && b[0] == b[..n][0];
      assert a[1..][..n - 1] == a[..n][1..] && b[1..][..n - 1] == b[..n][1..];
      DiffersAt(a[1..], b[1..], n - 1);
    }
  }

  // ---------------------------------------------------------------- over every run

  datatype Command = Command(issue: Option<int>, taskId: Option<string>, today: string)

  function Run(m: Manifest, commands: seq<Command>): Manifest {
    if commands == [] then m
    else
      var last := commands[|commands| - 1];
      Advance(Run(m, commands[..|commands| - 1]), last.issue, last.taskId, last.today).0
  }

  predicate Advances(m: Manifest, c: Command) {
    Advance(m, c.issue, c.taskId, c.today).1.Advanced?
  }

  predicate DistinctHistory(history: seq<Accepted>) {
    forall i, j :: 0 <= i < j < |history| ==> history[i].taskId != history[j].taskId
  }

  predicate CompleteRecorded(m: Manifest) {
    forall i :: 0 <= i < |m.tasks| && m.tasks[i].status == "complete" ==> IsRecorded(m.history, m.tasks[i].taskId)
  }

  // ---------------------------------------------------------------- what one advance does

  /** The k-th task is the one find_task yields for one of the listed ids. */
  predicate IsSuccessor(tasks: seq<Task>, ids: seq<string>, k: nat)
    requires k < |tasks|
  {
    tasks[k].taskId in ids && forall j :: 0 <= j < k ==> tasks[j].taskId != tasks[k].taskId
  }

  predicate NamesTask(tasks: seq<Task>, id: string) {
    exists k :: 0 <= k < |tasks| && tasks[k].taskId == id
  }

  /** How many of the listed ids name a task; a repeated id counts each time. */
  function ListedTasks(tasks: seq<Task>, ids: seq<string>): nat {
    if ids == [] then 0 else (if NamesTask(tasks, ids[0]) then 1 else 0) + ListedTasks(tasks, ids[1..])
  }

  lemma FirstOfId(tasks: seq<Task>, id: string)
    ensures var i := FindIndex(tasks, None, Some(id));
            && (i < |tasks| <==> NamesTask(tasks, id))
            && (forall k :: 0 <= k < |tasks| ==> (k == i <==> IsSuccessor(tasks, [id], k)))
  {
    var i := FindIndex(tasks, None, Some(id));
    forall k | 0 <= k < i ensures tasks[k].taskId != id {
      assert !Matches(tasks[k], None, Some(id));
    }
  }

  lemma {:induction false} SuccessorsAre(tasks: seq<Task>, ids: seq<string>)
    ensures |SuccessorIndices(tasks, ids)| == ListedTasks(tasks, ids)
    ensures forall k :: 0 <= k < |tasks| ==> (k in SuccessorIndices(tasks, ids) <==> IsSuccessor(tasks, ids, k))
  {
    if ids != [] {
      FirstOfId(tasks, ids[0]);
      SuccessorsAre(tasks, ids[1..]);
      forall k | 0 <= k < |tasks|
        ensures IsSuccessor(tasks, ids, k) <==> IsSuccessor(tasks, [ids[0]], k) || IsSuccessor(tasks, ids[1..], k)
      {
        assert tasks[k].taskId in ids <==> tasks[k].taskId == ids[0] || tasks[k].taskId in ids[1..];
      }
    }
  }

  /** An advance succeeds exactly when some task matches and at most one listed successor of the
      first match names a task. */
  lemma AdvancesIff(m: Manifest, c: Command)
    ensures Advances(m, c) <==>
            var i := FindIndex(m.tasks, c.issue, c.taskId);
            i < |m.tasks| && ListedTasks(m.tasks, m.tasks[i].successors) <= 1
  {
    var i := FindIndex(m.tasks, c.issue, c.taskId);
    if i < |m.tasks| { SuccessorsAre(m.tasks, m.tasks[i].successors); }
  }

  /** What the command reports: no task, too many successors, or the completed task and its one
      successor, if any listed id names a task. */
  lemma Reported(m: Manifest, c: Command)
    ensures var i := FindIndex(m.tasks, c.issue, c.taskId);
            var outcome := Advance(m, c.issue, c.taskId, c.today).1;
            if i == |m.tasks| then outcome == TaskNotFound
            else
              var ids := m.tasks[i].successors;
              if ListedTasks(m.tasks, ids) > 1 then outcome == AmbiguousSuccessor(ListedTasks(m.tasks, ids))
              else
                && outcome.Advanced? && outcome.completed == m.tasks[i].taskId
                && (outcome.next.Some? <==> ListedTasks(m.tasks, ids) == 1)
                && (outcome.next.Some? ==> outcome.next.value in ids && NamesTask(m.tasks, outcome.next.value))
  {
    var i := FindIndex(m.tasks, c.issue, c.taskId);
    if i < |m.tasks| {
      var ids := m.tasks[i].successors;
      SuccessorsAre(m.tasks, ids);
      var found := SuccessorIndices(m.tasks, ids);
      if found != [] { assert found[0] in found && IsSuccessor(m.tasks, ids, found[0]); }
    }
  }

  lemma AdvancedTaskAt(tasks: seq<Task>, i: nat, successors: seq<nat>, k: nat)
    requires i < |tasks| && k < |tasks| && |successors| <= 1 && forall j :: 0 <= j < |successors| ==> successors[j] < |tasks|
    ensures |AdvancedTasks(tasks, i, successors)| == |tasks|
    ensures AdvancedTasks(tasks, i, successors)[k] == tasks[k].(status :=
              if k in successors then "in_dev" else if k == i then "complete" else tasks[k].status)
  {
  }

  lemma TasksAfter(m: Manifest, c: Command)
    requires Advances(m, c)
    ensures var (after, outcome) := Advance(m, c.issue, c.taskId, c.today);
            var i := FindIndex(m.tasks, c.issue, c.taskId);
            && i < |m.tasks| && outcome.completed == m.tasks[i].taskId
            && |SuccessorIndices(m.tasks, m.tasks[i].successors)| <= 1
            && after.tasks == AdvancedTasks(m.tasks, i, SuccessorIndices(m.tasks, m.tasks[i].successors))
  {
  }

  /** Task by task: the successor goes into development, the found task becomes complete unless it
      is its own successor, and every other task stays as it is. */
  lemma AdvanceEffect(m: Manifest, c: Command)
    requires Advances(m, c)
    ensures var (after, outcome) := Advance(m, c.issue, c.taskId, c.today);
            var i := FindIndex(m.tasks, c.issue, c.taskId);
            && i < |m.tasks| == |after.tasks| && outcome.completed == m.tasks[i].taskId
            && forall k :: 0 <= k < |m.tasks| ==>
                 after.tasks[k] == m.tasks[k].(status :=
                   if IsSuccessor(m.tasks, m.tasks[i].successors, k) then "in_dev"
                   else if k == i then "complete" else m.tasks[k].status)
  {
    TasksAfter(m, c);
    var i := FindIndex(m.tasks, c.issue, c.taskId);
    var successors := SuccessorIndices(m.tasks, m.tasks[i].successors);
    SuccessorsAre(m.tasks, m.tasks[i].successors);
    forall k | 0 <= k < |m.tasks|
      ensures AdvancedTasks(m.tasks, i, successors)[k] == m.tasks[k].(status :=
                if IsSuccessor(m.tasks, m.tasks[i].successors, k) then "in_dev" else if k == i then "complete" else m.tasks[k].status)
    {
      AdvancedTaskAt(m.tasks, i, successors, k);
    }
    AdvancedTaskAt(m.tasks, i, successors, i);
  }

  lemma RecordedStays(h: seq<Accepted>, h': seq<Accepted>, taskId: string)
    requires h <= h' && IsRecorded(h, taskId)
    ensures IsRecorded(h', taskId)
  {
    var i :| 0 <= i < |h| && h[i].taskId == taskId;
    assert h'[i].taskId == taskId;
  }

  lemma AdvanceHistory(m: Manifest, c: Command)
    ensures var (after, outcome) := Advance(m, c.issue, c.taskId, c.today);
            && m.history <= after.history
            && (DistinctHistory(m.history) ==> DistinctHistory(after.history))
            && (outcome.Advanced? ==> IsRecorded(after.history, outcome.completed))
  {
    var (after, outcome) := Advance(m, c.issue, c.taskId, c.today);
    if outcome.Advanced? && !IsRecorded(m.history, outcome.completed) {
      assert after.history[|m.history|].taskId == outcome.completed;
    }
  }

  /** Only statuses change: some tasks go into development, and only the completed task can
      become complete. */
  ghost predicate OnlyStatuses(before: seq<Task>, after: seq<Task>, completed: string) {
    && |after| == |before|
    && forall k :: 0 <= k < |before| ==>
         && after[k] == before[k].(status := after[k].status)
         && (after[k].status == before[k].status || after[k].status == "in_dev" ||
             (after[k].status == "complete" && before[k].taskId == completed))
  }

  lemma AdvanceTasks(m: Manifest, c: Command)
    requires Advances(m, c)
    ensures var (after, outcome) := Advance(m, c.issue, c.taskId, c.today);
            OnlyStatuses(m.tasks, after.tasks, outcome.completed)
  {
    AdvanceEffect(m, c);
  }

  lemma CompleteStaysRecorded(m: Manifest, after: Manifest, completed: string)
    requires CompleteRecorded(m) && m.history <= after.history
    requires OnlyStatuses(m.tasks, after.tasks, completed) && IsRecorded(after.history, completed)
    ensures CompleteRecorded(after)
  {
    forall k | 0 <= k < |after.tasks| && after.tasks[k].status == "complete"
      ensures IsRecorded(after.history, after.tasks[k].taskId)
    {
      if m.tasks[k].status == "complete" { RecordedStays(m.history, after.history, m.tasks[k].taskId); }
    }
  }

  lemma RefusedAdvance(m: Manifest, c: Command)
    requires !Advances(m, c)
    ensures Advance(m, c.issue, c.taskId, c.today).0 == m
  {
  }

  lemma AdvanceRecords(m: Manifest, c: Command)
    requires Advances(m, c) && CompleteRecorded(m)
    ensures CompleteRecorded(Advance(m, c.issue, c.taskId, c.today).0)
  {
    AdvanceHistory(m, c);
    AdvanceTasks(m, c);
    var (after, outcome) := Advance(m, c.issue, c.taskId, c.today);
    CompleteStaysRecorded(m, after, outcome.completed);
  }

  /** What one advance keeps: the history only grows and stays duplicate-free, complete tasks stay
      recorded, and a refused advance changes nothing. */
  lemma AdvanceKeeps(m: Manifest, c: Command)
    ensures var after := Advance(m, c.issue, c.taskId, c.today).0;
            && m.history <= after.history
            && (DistinctHistory(m.history) ==> DistinctHistory(after.history))
            && (CompleteRecorded(m) ==> CompleteRecorded(after))
            && (!Advances(m, c) ==> after == m)
  {
    if !Advances(m, c) {
      RefusedAdvance(m, c);
    } else {
      AdvanceHistory(m, c);
      if CompleteRecorded(m) { AdvanceRecords(m, c); }
    }
  }

  lemma {:induction false} RunKeeps(m: Manifest, commands: seq<Command>)
    ensures m.history <= Run(m, commands).history
    ensures DistinctHistory(m.history) ==> DistinctHistory(Run(m, commands).history)
    ensures CompleteRecorded(m) ==> CompleteRecorded(Run(m, commands))
  {
    if commands != [] {
      var front := commands[..|commands| - 1];
      RunKeeps(m, front);
      AdvanceKeeps(Run(m, front), commands[|commands| - 1]);
    }
  }

  predicate HistoryValid(m: Manifest) {
    DistinctHistory(m.history) && CompleteRecorded(m)
  }

  lemma AdvancePromises(m: Manifest, c: Command)
    ensures var (after, outcome) := Advance(m, c.issue, c.taskId, c.today);
            && m.history <= after.history && (HistoryValid(m) ==> HistoryValid(after))
            && (outcome.Advanced? ==> IsRecorded(after.history, outcome.completed))
            && (!outcome.Advanced? ==> after == m)
  {
    AdvanceKeeps(m, c);
    AdvanceHistory(m, c);
  }

  /** The clock never runs backwards over a run, nor behind the version it starts from. */
  predicate ClockAdvances(version: string, commands: seq<Command>)
    requires WellFormedVersion(version)
  {
    && (forall i :: 0 <= i < |commands| ==> IsoDate(commands[i].today) && StrLe(VersionDate(version), commands[i].today))
    && (forall i, j :: 0 <= i < j < |commands| ==> StrLe(commands[i].today, commands[j].today))
  }

  /** One advance under a clock not behind the version: a greater version of that day, or no
      change at all. */
  lemma AdvanceStep(m: Manifest, c: Command)
    requires WellFormedVersion(m.version) && IsoDate(c.today) && StrLe(VersionDate(m.version), c.today)
    ensures var after := Advance(m, c.issue, c.taskId, c.today).0;
            && WellFormedVersion(after.version)
            && StrLe(VersionDate(after.version), c.today)
            && if Advances(m, c) then VersionLess(m.version, after.version) else after == m
  {
    AdvanceKeeps(m, c);
    BumpIncreasesIff(m.version, c.today);
    StrTotal(c.today, c.today);
  }

  lemma {:induction false} RunStaysDated(m: Manifest, commands: seq<Command>, today: string)
    requires WellFormedVersion(m.version) && ClockAdvances(m.version, commands)
    requires StrLe(VersionDate(m.version), today) && forall i :: 0 <= i < |commands| ==> StrLe(commands[i].today, today)
    ensures WellFormedVersion(Run(m, commands).version)
    ensures StrLe(VersionDate(Run(m, commands).version), today)
  {
    if commands != [] {
      var n := |commands| - 1;
      RunStaysDated(m, commands[..n], commands[n].today);
      AdvanceStep(Run(m, commands[..n]), commands[n]);
      StrTransitive(VersionDate(Run(m, commands).version), commands[n].today, today);
    }
  }

  /** The version a run has reached after n commands. */
  ghost function RankAt(m: Manifest, commands: seq<Command>, n: nat): Rank
    requires n <= |commands|
  {
    var v := Run(m, commands[..n]).version;
    if WellFormedVersion(v) then RankOf(v) else Rank("", 0)
  }

  ghost predicate AdvancesAt(m: Manifest, commands: seq<Command>, n: nat)
    requires n < |commands|
  {
    Advances(Run(m, commands[..n]), commands[n])
  }

  lemma VersionAt(m: Manifest, commands: seq<Command>, n: nat)
    requires WellFormedVersion(m.version) && ClockAdvances(m.version, commands) && n <= |commands|
    ensures WellFormedVersion(Run(m, commands[..n]).version)
    ensures n < |commands| ==> StrLe(VersionDate(Run(m, commands[..n]).version), commands[n].today)
  {
    if n < |commands| {
      RunStaysDated(m, commands[..n], commands[n].today);
    } else if n > 0 {
      StrTotal(commands[n - 1].today, commands[n - 1].today);
      RunStaysDated(m, commands[..n], commands[n - 1].today);
    }
  }

  ghost predicate RankStep(a: Rank, b: Rank, moved: bool) {
    if moved then RankLess(a, b) else a == b
  }

  lemma VersionStep(m: Manifest, commands: seq<Command>, n: nat)
    requires WellFormedVersion(m.version) && ClockAdvances(m.version, commands) && n < |commands|
    ensures RankStep(RankAt(m, commands, n), RankAt(m, commands, n + 1), AdvancesAt(m, commands, n))
  {
    VersionAt(m, commands, n);
    AdvanceStep(Run(m, commands[..n]), commands[n]);
    RunStep(m, commands, n);
  }

  lemma RunStep(m: Manifest, commands: seq<Command>, n: nat)
    requires n < |commands|
    ensures Run(m, commands[..n + 1]) ==
            Advance(Run(m, commands[..n]), commands[n].issue, commands[n].taskId, commands[n].today).0
  {
    assert commands[..n + 1][..n] == commands[..n];
  }

  lemma RankLessTransitive(a: Rank, b: Rank, c: Rank)
    requires RankLess(a, b) && RankLess(b, c)
    ensures RankLess(a, c)
  {
    if a.date != b.date && b.date != c.date {
      StrTransitive(a.date, b.date, c.date);
      StrTotal(a.date, b.date);
    }
  }

  ghost predicate Moved(moved: seq<bool>, i: nat, j: nat)
    requires j <= |moved|
  {
    exists n :: i <= n < j && moved[n]
  }

  /** Steps compose: over any stretch the rank grows when some step moved. */
  lemma {:induction false} RanksIncrease(ranks: seq<Rank>, moved: seq<bool>, i: nat, j: nat)
    requires |ranks| == |moved| + 1 && i <= j < |ranks|
    requires forall n :: 0 <= n < |moved| ==> RankStep(ranks[n], ranks[n + 1], moved[n])
    ensures RankStep(ranks[i], ranks[j], Moved(moved, i, j))
    decreases j - i
  {
    if i < j {
      var k := j - 1;
      RanksIncrease(ranks, moved, i, k);
      assert RankStep(ranks[k], ranks[k + 1], moved[k]);
      assert Moved(moved, i, j) <==> Moved(moved, i, k) || moved[k];
      if Moved(moved, i, k) && moved[k] { RankLessTransitive(ranks[i], ranks[k], ranks[j]); }
    }
  }

  lemma {:induction false} NothingMoved<S>(states: seq<S>, moved: seq<bool>, i: nat, j: nat)
    requires |states| == |moved| + 1 && i <= j < |states| && !Moved(moved, i, j)
    requires forall n :: 0 <= n < |moved| ==> !moved[n] ==> states[n + 1] == states[n]
    ensures states[j] == states[i]
    decreases j - i
  {
    if i < j {
      assert !moved[j - 1];
      NothingMoved(states, moved, i, j - 1);
    }
  }

  lemma RefusedStep(m: Manifest, commands: seq<Command>, n: nat)
    requires n < |commands| && !AdvancesAt(m, commands, n)
    ensures Run(m, commands[..n + 1]) == Run(m, commands[..n])
  {
    RunStep(m, commands, n);
    RefusedAdvance(Run(m, commands[..n]), commands[n]);
  }

  lemma StepsOfRun(m: Manifest, commands: seq<Command>, ranks: seq<Rank>, moved: seq<bool>)
    requires WellFormedVersion(m.version) && ClockAdvances(m.version, commands)
    requires |ranks| == |commands| + 1 && forall n :: 0 <= n < |ranks| ==> ranks[n] == RankAt(m, commands, n)
    requires |moved| == |commands| && forall n :: 0 <= n < |moved| ==> moved[n] == AdvancesAt(m, commands, n)
    ensures forall n :: 0 <= n < |moved| ==> RankStep(ranks[n], ranks[n + 1], moved[n])
  {
    forall n | 0 <= n < |moved| ensures RankStep(ranks[n], ranks[n + 1], moved[n]) { VersionStep(m, commands, n); }
  }

  lemma SomeMoved(moved: seq<bool>, i: nat, j: nat, n: nat)
    requires i <= n < j <= |moved| && moved[n]
    ensures Moved(moved, i, j)
  {
  }

  lemma SomeAdvanceRaises(m: Manifest, commands: seq<Command>, i: nat, j: nat)
    requires WellFormedVersion(m.version) && ClockAdvances(m.version, commands)
    requires i <= j <= |commands| && exists n :: i <= n < j && AdvancesAt(m, commands, n)
    ensures RankLess(RankAt(m, commands, i), RankAt(m, commands, j))
  {
    var ranks := seq(|commands| + 1, n requires 0 <= n <= |commands| => RankAt(m, commands, n));
    var moved := seq(|commands|, n requires 0 <= n < |commands| => AdvancesAt(m, commands, n));
    StepsOfRun(m, commands, ranks, moved);
    var n :| i <= n < j && AdvancesAt(m, commands, n);
    SomeMoved(moved, i, j, n);
    RanksIncrease(ranks, moved, i, j);
  }

  lemma NoAdvanceKeeps(m: Manifest, commands: seq<Command>, i: nat, j: nat)
    requires i <= j <= |commands| && forall n :: i <= n < j ==> !AdvancesAt(m, commands, n)
    ensures Run(m, commands[..j]) == Run(m, commands[..i])
  {
    var states := seq(|commands| + 1, n requires 0 <= n <= |commands| => Run(m, commands[..n]));
    var moved := seq(|commands|, n requires 0 <= n < |commands| => AdvancesAt(m, commands, n));
    forall n | 0 <= n < |moved| && !moved[n] ensures states[n + 1] == states[n] { RefusedStep(m, commands, n); }
    NothingMoved(states, moved, i, j);
  }

  /** Versions strictly increase over any run: between two moments of it the version is greater
      when some advance succeeded in between, and otherwise nothing changed at all. */
  lemma VersionsIncrease(m: Manifest, commands: seq<Command>, i: nat, j: nat)
    requires WellFormedVersion(m.version) && ClockAdvances(m.version, commands)
    requires i <= j <= |commands|
    ensures var before, after := Run(m, commands[..i]), Run(m, commands[..j]);
            && WellFormedVersion(before.version) && WellFormedVersion(after.version)
            && if exists n :: i <= n < j && AdvancesAt(m, commands, n)
               then VersionLess(before.version, after.version)
               else after == before
  {
    VersionAt(m, commands, i);
    VersionAt(m, commands, j);
    if exists n :: i <= n < j && AdvancesAt(m, commands, n) {
      SomeAdvanceRaises(m, commands, i, j);
    } else {
      NoAdvanceKeeps(m, commands, i, j);
    }
  }

  // ---------------------------------------------------------------- which task, which history, which version

  ghost predicate FirstWhere(tasks: seq<Task>, test: Task -> bool, i: nat) {
    && i <= |tasks| && (i < |tasks| ==> test(tasks[i]))
    && forall k :: 0 <= k < i ==> !test(tasks[k])
  }

  /** A task is looked for by issue number, by task id, or by both, and then the first that fits
      either is taken; without any of the two none is found. */
  lemma FoundTask(tasks: seq<Task>, issue: int, taskId: string)
    ensures FirstWhere(tasks, (t: Task) => t.issue == Some(issue), FindIndex(tasks, Some(issue), None))
    ensures FirstWhere(tasks, (t: Task) => t.taskId == taskId, FindIndex(tasks, None, Some(taskId)))
    ensures var byIssue, byId := FindIndex(tasks, Some(issue), None), FindIndex(tasks, None, Some(taskId));
            FindIndex(tasks, Some(issue), Some(taskId)) == if byIssue <= byId then byIssue else byId
    ensures FindIndex(tasks, None, None) == |tasks|
  {
    forall k | 0 <= k < FindIndex(tasks, Some(issue), None) ensures tasks[k].issue != Some(issue) {
      assert !Matches(tasks[k], Some(issue), None);
    }
    forall k | 0 <= k < FindIndex(tasks, None, Some(taskId)) ensures tasks[k].taskId != taskId {
      assert !Matches(tasks[k], None, Some(taskId));
    }
  }

  /** The history gets one entry for the completed task, unless it has one for its id; the version is
      bumped. */
  lemma HistoryEffect(m: Manifest, c: Command)
    requires Advances(m, c)
    ensures var after := Advance(m, c.issue, c.taskId, c.today).0;
            var i := FindIndex(m.tasks, c.issue, c.taskId);
            && i < |m.tasks|
            && after.version == BumpVersion(m.version, c.today)
            && after.history ==
               if exists k :: 0 <= k < |m.history| && m.history[k].taskId == m.tasks[i].taskId then m.history
               else m.history + [Accepted(m.tasks[i].issue, m.tasks[i].taskId, m.tasks[i].body)]
  {
  }

  predicate OfDay(version: string, today: string) {
    |today| < |version| && version[..|today| + 1] == today + "."
  }

  /** A version of the day counts up by one; without a number behind the day, or with another day in
      front, the count starts at one. */
  lemma BumpExact(today: string, suffix: string, other: string)
    requires '.' !in suffix && !OfDay(other, today)
    ensures BumpVersion(today + "." + suffix, today) ==
            if IsDecimal(suffix) then today + "." + Decimal(DecimalValue(suffix) + 1) else today + ".1"
    ensures BumpVersion(other, today) == today + ".1"
  {
    SuffixRead(today, suffix);
    BumpRead(today + "." + suffix, today, suffix);
    OtherDay(other, today);
  }

  lemma SuffixRead(today: string, suffix: string)
    requires '.' !in suffix
    ensures var current := today + "." + suffix;
            LastDot(current) == |today| && current[..|today|] == today && current[|today| + 1..] == suffix
  {
    LastDotOf(today, suffix);
  }

  lemma BumpRead(current: string, today: string, suffix: string)
    requires var k := LastDot(current); k >= 0 && current[..k] == today && current[k + 1..] == suffix
    ensures BumpVersion(current, today) ==
            if IsDecimal(suffix) then today + "." + Decimal(DecimalValue(suffix) + 1) else today + ".1"
  {
  }

  lemma OtherDay(version: string, today: string)
    requires !OfDay(version, today)
    ensures var k := LastDot(version); k < 0 || version[..k] != today
  {
    var k := LastDot(version);
    if k == |today| { assert version[..k + 1] == version[..k] + "."; }
  }
}
