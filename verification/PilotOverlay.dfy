/** Pilot overlays on the installed authority: manifest tasks, overlay entries and overlay
    directories, changed by install and remove. */
module PilotOverlay {
  import opened Wrappers
  import opened Ordering

  /** A manifest task; body stands for the fields overlays neither test nor change. */
  datatype Task = Task(taskId: Option<string>, issue: Option<int>, body: string)

  /** An entry of the metadata's pilot_overlays. */
  datatype Entry = Entry(issue: int, taskId: string)

  /** The fixture of an issue: what its summary says, and the names of the artifacts it holds. */
  datatype Summary = Summary(taskId: string, issueNumber: int, body: string, artifacts: seq<string>)

  /** What an overlay directory records of its overlay. */
  datatype Overlay = Overlay(taskId: string, copied: seq<string>)

  /** Sort key of a task: issue number (0 when absent), then task id ("" when absent). */
  function IssueKey(t: Task): int {
    if t.issue.Some? then t.issue.value else 0
  }

  function IdKey(t: Task): string {
    if t.taskId.Some? then t.taskId.value else ""
  }

  predicate TaskLe(a: Task, b: Task) {
    IssueKey(a) < IssueKey(b) || (IssueKey(a) == IssueKey(b) && StrLe(IdKey(a), IdKey(b)))
  }

  lemma TasksArePreordered()
    ensures TotalPreorder(TaskLe)
  {
    StringsAreOrdered();
    forall a, b, c: Task
      ensures (TaskLe(a, b) || TaskLe(b, a)) && (TaskLe(a, b) && TaskLe(b, c) ==> TaskLe(a, c))
    {
      assert Compared(IdKey(a), IdKey(b), IdKey(c));
    }
  }

  /** The installed authority: manifest tasks, the metadata's overlay entries and included artifact
      names, the overlay directories by issue, and the artifact files present. */
  datatype Authority = Authority(
    tasks: seq<Task>, overlays: seq<Entry>, included: seq<string>, dirs: map<int, Overlay>, artifacts: set<string>)

  function OverlayTask(s: Summary): Task {
    Task(Some(s.taskId), Some(s.issueNumber), s.body)
  }

  /** A task survives installing (taskId, issue) when it shares neither with it. */
  predicate TaskApart(taskId: string, issue: int, t: Task) {
    t.taskId != Some(taskId) && t.issue != Some(issue)
  }

  predicate EntryApart(taskId: string, issue: int, e: Entry) {
    e.issue != issue && e.taskId != taskId
  }

  /** remove takes the task id from the overlay directory, where "" counts as absent. */
  predicate TaskKept(recorded: Option<string>, issue: int, t: Task) {
    t.issue != Some(issue) && (recorded.None? || recorded.value == "" || t.taskId != recorded)
  }

  predicate EntryKept(recorded: Option<string>, issue: int, e: Entry) {
    e.issue != issue && (recorded.None? || recorded.value == "" || e.taskId != recorded.value)
  }

  function Recorded(a: Authority, issue: int): Option<string> {
    if issue in a.dirs then Some(a.dirs[issue].taskId) else None
  }

  function Copied(a: Authority, issue: int): seq<string> {
    if issue in a.dirs then a.dirs[issue].copied else []
  }

  /** Append the names the list does not hold yet. */
  function AddMissing(list: seq<string>, names: seq<string>): seq<string> {
    if names == [] then list
    else
      var front := AddMissing(list, names[..|names| - 1]);
      if names[|names| - 1] in front then front else front + [names[|names| - 1]]
  }

  function Installed(a: Authority, issue: int, s: Summary): Authority {
    Authority(
      Sort(TaskLe, Filter(t => TaskApart(s.taskId, issue, t), a.tasks) + [OverlayTask(s)]),
      Filter(e => EntryApart(s.taskId, issue, e), a.overlays) + [Entry(issue, s.taskId)],
      AddMissing(a.included, s.artifacts),
      a.dirs[issue := Overlay(s.taskId, s.artifacts)],
      a.artifacts + Elements(s.artifacts))
  }

  function Removed(a: Authority, issue: int): Authority {
    var recorded := Recorded(a, issue);
    Authority(
      Filter(t => TaskKept(recorded, issue, t), a.tasks),
      Filter(e => EntryKept(recorded, issue, e), a.overlays),
      a.included,
      a.dirs - {issue},
      a.artifacts - Elements(Copied(a, issue)))
  }

  predicate FirstOfIssue(entries: seq<Entry>, issue: int, i: int) {
    0 <= i < |entries| && entries[i].issue == issue && forall k :: 0 <= k < i ==> entries[k].issue != issue
  }

  predicate FirstTask(tasks: seq<Task>, issue: int, i: int) {
    0 <= i < |tasks| && tasks[i].issue == Some(issue) && forall k :: 0 <= k < i ==> tasks[k].issue != Some(issue)
  }

  /** The installed authority as the script rewrites it. */
  class AuthorityInstall {
    var tasks: seq<Task>
    var overlays: seq<Entry>
    var included: seq<string>
    var dirs: map<int, Overlay>
    var artifacts: set<string>

    function State(): Authority
      reads this
    {
      Authority(tasks, overlays, included, dirs, artifacts)
    }

    /** Overlay entries are backed by tasks and directories, and differ from one another. */
    predicate Valid()
      reads this
    {
      Coherent(State())
    }

    method CopyArtifacts(names: seq<string>)
      modifies this`artifacts
      ensures artifacts == old(artifacts) + Elements(names)
    {
      for i := 0 to |names|
        invariant artifacts == old(artifacts) + Elements(names[..i])
      {
        artifacts := artifacts + {names[i]};
        assert names[..i + 1] == names[..i] + [names[i]];
      }
      assert names[..|names|] == names;
    }

    method IncludeArtifacts(names: seq<string>)
      modifies this`included
      ensures included == AddMissing(old(included), names)
    {
      for i := 0 to |names|
        invariant included == AddMissing(old(included), names[..i])
      {
        assert names[..i + 1][..i] == names[..i];
        if names[i] !in included { included := included + [names[i]]; }
      }
      assert names[..|names|] == names;
    }

    method UnlinkArtifacts(names: seq<string>)
      modifies this`artifacts
      ensures artifacts == old(artifacts) - Elements(names)
    {
      for i := 0 to |names|
        invariant artifacts == old(artifacts) - Elements(names[..i])
      {
        if names[i] in artifacts { artifacts := artifacts - {names[i]}; }
        assert names[..i + 1] == names[..i] + [names[i]];
      }
      assert names[..|names|] == names;
    }

    method InstallOverlay(issue: int, summary: Summary)
      modifies this
      ensures State() == Installed(old(State()), issue, summary)
      ensures old(Valid()) && summary.issueNumber == issue ==> Valid()
    {
      if Valid() && summary.issueNumber == issue { InstallKeeps(State(), issue, summary); }
      dirs := dirs - {issue};
      CopyArtifacts(summary.artifacts);
      tasks := Filter(t => TaskApart(summary.taskId, issue, t), tasks);
      tasks := tasks + [OverlayTask(summary)];
      tasks := Sort(TaskLe, tasks);
      overlays := Filter(e => EntryApart(summary.taskId, issue, e), overlays);
      overlays := overlays + [Entry(issue, summary.taskId)];
      IncludeArtifacts(summary.artifacts);
      dirs := dirs[issue := Overlay(summary.taskId, summary.artifacts)];
      assert dirs == old(dirs)[issue := Overlay(summary.taskId, summary.artifacts)];
    }

    method RemoveOverlay(issue: int)
      modifies this
      ensures State() == Removed(old(State()), issue)
      ensures old(Valid()) ==> Valid()
    {
      if Valid() { RemoveKeeps(State(), issue); }
      var recorded := if issue in dirs then Some(dirs[issue].taskId) else None;
      tasks := Filter(t => TaskKept(recorded, issue, t), tasks);
      overlays := Filter(e => EntryKept(recorded, issue, e), overlays);
      UnlinkArtifacts(if issue in dirs then dirs[issue].copied else []);
      dirs := dirs - {issue};
    }

    /** status: the first task and the first overlay entry of the issue. */
    method StatusOverlay(issue: int) returns (task: Option<Task>, entry: Option<Entry>)
      ensures task.None? <==> forall t :: t in tasks ==> t.issue != Some(issue)
      ensures task.Some? ==> exists i :: FirstTask(tasks, issue, i) && tasks[i] == task.value
      ensures entry.None? <==> forall e :: e in overlays ==> e.issue != issue
      ensures entry.Some? ==> exists i :: FirstOfIssue(overlays, issue, i) && overlays[i] == entry.value
    {
      task, entry := None, None;
      for i := 0 to |tasks|
        invariant task.None? ==> forall k :: 0 <= k < i ==> tasks[k].issue != Some(issue)
        invariant task.Some? ==> exists j :: FirstTask(tasks, issue, j) && tasks[j] == task.value
      {
        if task.None? && tasks[i].issue == Some(issue) {
          assert FirstTask(tasks, issue, i);
          task := Some(tasks[i]);
        }
      }
      for i := 0 to |overlays|
        invariant entry.None? ==> forall k :: 0 <= k < i ==> overlays[k].issue != issue
        invariant entry.Some? ==> exists j :: FirstOfIssue(overlays, issue, j) && overlays[j] == entry.value
      {
        if entry.None? && overlays[i].issue == issue {
          assert FirstOfIssue(overlays, issue, i);
          entry := Some(overlays[i]);
        }
      }
    }
  }

  // ---------------------------------------------------------------- over every run

  datatype Command = Install(issue: int, summary: Summary) | Remove(issue: int)

  function Apply(a: Authority, c: Command): Authority {
    match c
    case Install(issue, s) => Installed(a, issue, s)
    case Remove(issue) => Removed(a, issue)
  }

  function Run(a: Authority, commands: seq<Command>): Authority {
    if commands == [] then a
    else Apply(Run(a, commands[..|commands| - 1]), commands[|commands| - 1])
  }

  /** Every overlay entry is backed by a task with the same pair and a directory recording the
      same task id; entries share neither issue nor task id. */
  predicate Backed(a: Authority, e: Entry) {
    && (exists t :: t in a.tasks && t.taskId == Some(e.taskId) && t.issue == Some(e.issue))
    && e.issue in a.dirs && a.dirs[e.issue].taskId == e.taskId
  }

  predicate Coherent(a: Authority) {
    && (forall e :: e in a.overlays ==> Backed(a, e))
    && EntriesDiffer(a.overlays)
  }

  predicate EntriesApart(e: Entry, f: Entry) {
    e.issue != f.issue && e.taskId != f.taskId
  }

  predicate EntriesDiffer(entries: seq<Entry>) {
    forall i, j {:trigger EntriesApart(entries[i], entries[j])} :: 0 <= i < j < |entries| ==> EntriesApart(entries[i], entries[j])
  }

  lemma AppendDiffer(entries: seq<Entry>, last: Entry)
    requires EntriesDiffer(entries)
    requires forall e :: e in entries ==> EntriesApart(e, last)
    ensures EntriesDiffer(entries + [last])
  {
    var longer := entries + [last];
    forall i, j | 0 <= i < j < |longer| ensures EntriesApart(longer[i], longer[j]) {
      if j < |entries| { assert EntriesApart(entries[i], entries[j]); } else { assert entries[i] in entries; }
    }
  }

  lemma FrontDiffers(entries: seq<Entry>)
    requires EntriesDiffer(entries) && entries != []
    ensures EntriesDiffer(entries[..|entries| - 1])
    ensures var front, last := entries[..|entries| - 1], entries[|entries| - 1];
            forall e :: e in front ==> EntriesApart(e, last)
  {
    var n := |entries| - 1;
    var front := entries[..n];
    forall i, j | 0 <= i < j < n ensures EntriesApart(front[i], front[j]) { assert EntriesApart(entries[i], entries[j]); }
    forall e | e in front ensures EntriesApart(e, entries[n]) {
      var k :| 0 <= k < n && front[k] == e;
      assert EntriesApart(entries[k], entries[n]);
    }
  }

  lemma {:induction false} FilterEntriesDiffer(keep: Entry -> bool, entries: seq<Entry>)
    requires EntriesDiffer(entries)
    ensures EntriesDiffer(Filter(keep, entries))
  {
    if entries != [] {
      var n := |entries| - 1;
      FrontDiffers(entries);
      FilterEntriesDiffer(keep, entries[..n]);
      FilterFacts(keep, entries[..n]);
      AppendDiffer(Filter(keep, entries[..n]), entries[n]);
      assert Filter(keep, entries) == Filter(keep, entries[..n]) + (if keep(entries[n]) then [entries[n]] else []);
    }
  }

  lemma InstalledTasks(a: Authority, issue: int, s: Summary, t: Task)
    ensures t in Installed(a, issue, s).tasks <==> t == OverlayTask(s) || (t in a.tasks && TaskApart(s.taskId, issue, t))
  {
    var unsorted := Filter(x => TaskApart(s.taskId, issue, x), a.tasks) + [OverlayTask(s)];
    TasksArePreordered();
    SortSorts(TaskLe, unsorted);
    SameElements(Sort(TaskLe, unsorted), unsorted);
    FilterFacts(x => TaskApart(s.taskId, issue, x), a.tasks);
    assert t in Elements(unsorted) <==> t in Elements(Sort(TaskLe, unsorted));
  }

  lemma OwnEntryBacked(a: Authority, issue: int, s: Summary)
    requires s.issueNumber == issue
    ensures Backed(Installed(a, issue, s), Entry(issue, s.taskId))
  {
    InstalledTasks(a, issue, s, OverlayTask(s));
  }

  lemma OtherEntryBacked(a: Authority, issue: int, s: Summary, e: Entry)
    requires Backed(a, e) && EntryApart(s.taskId, issue, e)
    ensures Backed(Installed(a, issue, s), e)
  {
    var t :| t in a.tasks && t.taskId == Some(e.taskId) && t.issue == Some(e.issue);
    InstalledTasks(a, issue, s, t);
  }

  lemma InstallKeeps(a: Authority, issue: int, s: Summary)
    requires Coherent(a) && s.issueNumber == issue
    ensures Coherent(Installed(a, issue, s))
  {
    var b := Installed(a, issue, s);
    FilterFacts(e => EntryApart(s.taskId, issue, e), a.overlays);
    FilterEntriesDiffer(e => EntryApart(s.taskId, issue, e), a.overlays);
    forall e | e in b.overlays ensures Backed(b, e) {
      if e == Entry(issue, s.taskId) { OwnEntryBacked(a, issue, s); } else { OtherEntryBacked(a, issue, s, e); }
    }
    AppendDiffer(Filter(e => EntryApart(s.taskId, issue, e), a.overlays), Entry(issue, s.taskId));
  }

  lemma BackingKept(a: Authority, issue: int, e: Entry)
    requires Backed(a, e) && EntryKept(Recorded(a, issue), issue, e)
    ensures Backed(Removed(a, issue), e)
  {
    var recorded := Recorded(a, issue);
    var t :| t in a.tasks && t.taskId == Some(e.taskId) && t.issue == Some(e.issue);
    FilterFacts(t => TaskKept(recorded, issue, t), a.tasks);
    assert TaskKept(recorded, issue, t);
    assert t in Removed(a, issue).tasks;
  }

  lemma RemoveKeeps(a: Authority, issue: int)
    requires Coherent(a)
    ensures Coherent(Removed(a, issue))
  {
    var recorded := Recorded(a, issue);
    var keep := e => EntryKept(recorded, issue, e);
    assert Removed(a, issue).overlays == Filter(keep, a.overlays);
    FilterFacts(keep, a.overlays);
    FilterEntriesDiffer(keep, a.overlays);
    forall e | e in Removed(a, issue).overlays ensures Backed(Removed(a, issue), e) {
      BackingKept(a, issue, e);
    }
  }

  /** A fixture names the issue it was written for. */
  predicate FixtureConsistent(c: Command) {
    c.Install? ==> c.summary.issueNumber == c.issue
  }

  /** Over any run of installs and removes the overlay entries stay coherent. */
  lemma {:induction false} RunKeepsCoherent(a: Authority, commands: seq<Command>)
    requires Coherent(a)
    requires forall i :: 0 <= i < |commands| ==> FixtureConsistent(commands[i])
    ensures Coherent(Run(a, commands))
  {
    if commands != [] {
      var front, last := commands[..|commands| - 1], commands[|commands| - 1];
      RunKeepsCoherent(a, front);
      var b := Run(a, front);
      assert FixtureConsistent(last);
      match last
      case Install(issue, s) => InstallKeeps(b, issue, s);
      case Remove(issue) => RemoveKeeps(b, issue);
    }
  }

  /** install keeps coherence exactly when the fixture names the issue it is installed for: the
      entry takes the command's issue number, the task takes the summary's. */
  lemma InstallCoherentIff(a: Authority, issue: int, s: Summary)
    requires Coherent(a)
    ensures Coherent(Installed(a, issue, s)) <==> s.issueNumber == issue
  {
    if s.issueNumber == issue {
      InstallKeeps(a, issue, s);
    } else {
      var b := Installed(a, issue, s);
      assert Entry(issue, s.taskId) == b.overlays[|b.overlays| - 1];
      forall t | t in b.tasks ensures !(t.taskId == Some(s.taskId) && t.issue == Some(issue)) {
        InstalledTasks(a, issue, s, t);
      }
      assert !Backed(b, Entry(issue, s.taskId));
    }
  }

  // ---------------------------------------------------------------- install then remove

  lemma {:induction false} FilterInsert(keep: Task -> bool, s: seq<Task>, x: Task)
    requires !keep(x)
    ensures Filter(keep, Insert(TaskLe, s, x)) == Filter(keep, s)
  {
    if s == [] || TaskLe(s[|s| - 1], x) {
      assert (s + [x])[..|s|] == s;
    } else {
      var front, last := s[..|s| - 1], s[|s| - 1];
      FilterInsert(keep, front, x);
      assert (Insert(TaskLe, front, x) + [last])[..|Insert(TaskLe, front, x)|] == Insert(TaskLe, front, x);
    }
  }

  lemma SortAppended(s: seq<Task>, x: Task)
    ensures Sort(TaskLe, s + [x]) == Insert(TaskLe, Sort(TaskLe, s), x)
  {
    assert (s + [x])[..|s|] == s;
  }

  /** What is left of a task list after installing an overlay and removing it again: the tasks
      that did not conflict with it, sorted. */
  lemma InstallRemoveTasks(a: Authority, issue: int, s: Summary)
    requires s.issueNumber == issue
    ensures var kept := Filter(t => TaskApart(s.taskId, issue, t), a.tasks);
            Removed(Installed(a, issue, s), issue).tasks == Sort(TaskLe, kept)
  {
    var kept := Filter(t => TaskApart(s.taskId, issue, t), a.tasks);
    var b := Installed(a, issue, s);
    var recorded := Recorded(b, issue);
    assert recorded == Some(s.taskId);
    SortAppended(kept, OverlayTask(s));
    FilterInsert(t => TaskKept(recorded, issue, t), Sort(TaskLe, kept), OverlayTask(s));
    KeptAfterInstall(a.tasks, issue, s.taskId);
    FilterAllIff(t => TaskKept(recorded, issue, t), Sort(TaskLe, kept));
  }

  lemma KeptAfterInstall(tasks: seq<Task>, issue: int, taskId: string)
    ensures var kept := Filter(t => TaskApart(taskId, issue, t), tasks);
            forall t :: t in Sort(TaskLe, kept) ==> TaskKept(Some(taskId), issue, t)
  {
    var kept := Filter(t => TaskApart(taskId, issue, t), tasks);
    TasksArePreordered();
    SortSorts(TaskLe, kept);
    SameElements(Sort(TaskLe, kept), kept);
    FilterFacts(t => TaskApart(taskId, issue, t), tasks);
    forall t | t in Sort(TaskLe, kept) ensures TaskKept(Some(taskId), issue, t) { assert t in Elements(Sort(TaskLe, kept)); }
  }

  lemma SortOfKept(tasks: seq<Task>, issue: int, taskId: string)
    ensures Sort(TaskLe, Filter(t => TaskApart(taskId, issue, t), tasks)) == tasks
       <==> Sorted(TaskLe, tasks) && forall t :: t in tasks ==> TaskApart(taskId, issue, t)
  {
    var kept := Filter(t => TaskApart(taskId, issue, t), tasks);
    FilterFacts(t => TaskApart(taskId, issue, t), tasks);
    TasksArePreordered();
    SortSorts(TaskLe, kept);
    SameElements(Sort(TaskLe, kept), kept);
    if Sort(TaskLe, kept) == tasks {
      forall t | t in tasks ensures TaskApart(taskId, issue, t) { assert t in Elements(tasks); }
    } else if forall t :: t in tasks ==> TaskApart(taskId, issue, t) {
      assert forall i :: 0 <= i < |tasks| ==> tasks[i] in tasks;
      assert kept == tasks;
      if Sorted(TaskLe, tasks) { SortOfSorted(TaskLe, tasks); }
    }
  }

  /** Installing and then removing an overlay restores the task list exactly when the list was
      sorted and no task conflicted with the overlay. */
  lemma InstallRemoveRestoresIff(a: Authority, issue: int, s: Summary)
    requires s.issueNumber == issue
    ensures Removed(Installed(a, issue, s), issue).tasks == a.tasks
       <==> Sorted(TaskLe, a.tasks) && forall t :: t in a.tasks ==> TaskApart(s.taskId, issue, t)
  {
    InstallRemoveTasks(a, issue, s);
    SortOfKept(a.tasks, issue, s.taskId);
  }

  /** The overlay's own traces are gone after a remove: no task of the issue, no entry, no directory. */
  lemma RemoveClears(a: Authority, issue: int)
    ensures var b := Removed(a, issue);
            && (forall t :: t in b.tasks ==> t.issue != Some(issue))
            && (forall e :: e in b.overlays ==> e.issue != issue)
            && issue !in b.dirs
  {
    var recorded := Recorded(a, issue);
    FilterFacts(t => TaskKept(recorded, issue, t), a.tasks);
    FilterFacts(e => EntryKept(recorded, issue, e), a.overlays);
  }

  // ---------------------------------------------------------------- files and metadata left behind

  lemma {:induction false} AddMissingIdle(list: seq<string>, names: seq<string>)
    ensures list <= AddMissing(list, names)
    ensures AddMissing(list, names) == list <==> forall name :: name in names ==> name in list
  {
    if names != [] {
      var front, last := names[..|names| - 1], names[|names| - 1];
      AddMissingIdle(list, front);
      assert names == front + [last];
    }
  }

  lemma {:induction false} FilterAllIff<T>(keep: T -> bool, s: seq<T>)
    ensures |Filter(keep, s)| <= |s|
    ensures Filter(keep, s) == s <==> forall x :: x in s ==> keep(x)
  {
    if s != [] {
      var front, last := s[..|s| - 1], s[|s| - 1];
      FilterAllIff(keep, front);
      assert s == front + [last];
      if keep(last) && Filter(keep, s) == s {
        assert Filter(keep, front) == s[..|s| - 1];
      }
    }
  }

  lemma FilterDropsLast<T>(keep: T -> bool, s: seq<T>, x: T)
    requires !keep(x) && forall y :: y in s ==> keep(y)
    ensures Filter(keep, s + [x]) == s
  {
    FilterAllIff(keep, s);
    assert (s + [x])[..|s|] == s;
  }

  lemma EntriesLeft(a: Authority, issue: int, s: Summary)
    ensures Removed(Installed(a, issue, s), issue).overlays == Filter(e => EntryApart(s.taskId, issue, e), a.overlays)
  {
    var apart := e => EntryApart(s.taskId, issue, e);
    var recorded := Recorded(Installed(a, issue, s), issue);
    var keep := e => EntryKept(recorded, issue, e);
    assert recorded == Some(s.taskId);
    FilterFacts(apart, a.overlays);
    FilterDropsLast(keep, Filter(apart, a.overlays), Entry(issue, s.taskId));
  }

  /** Entries, directories and files after installing an overlay and removing it again: conflicting
      entries, an older directory of the issue and artifacts of the same names are lost, and newly
      included artifact names stay listed. */
  lemma InstallRemoveLeaves(a: Authority, issue: int, s: Summary)
    ensures var b := Removed(Installed(a, issue, s), issue);
            && b.overlays == Filter(e => EntryApart(s.taskId, issue, e), a.overlays)
            && b.included == AddMissing(a.included, s.artifacts)
            && b.dirs == a.dirs - {issue}
            && b.artifacts == a.artifacts - Elements(s.artifacts)
  {
    EntriesLeft(a, issue, s);
    assert Copied(Installed(a, issue, s), issue) == s.artifacts;
  }

  lemma NothingDropped<V>(m: map<int, V>, key: int, s: set<string>, drop: set<string>)
    ensures m - {key} == m <==> key !in m
    ensures s - drop == s <==> drop !! s
  {
  }

  /** Installing and removing restores the whole authority exactly when the task list was sorted,
      nothing conflicted, no directory or artifact of the overlay existed, and its artifact names
      were already listed. */
  lemma InstallRemoveRestoresAllIff(a: Authority, issue: int, s: Summary)
    requires s.issueNumber == issue
    ensures Removed(Installed(a, issue, s), issue) == a <==>
      && Sorted(TaskLe, a.tasks) && (forall t :: t in a.tasks ==> TaskApart(s.taskId, issue, t))
      && (forall e :: e in a.overlays ==> EntryApart(s.taskId, issue, e))
      && issue !in a.dirs && Elements(s.artifacts) !! a.artifacts
      && (forall name :: name in s.artifacts ==> name in a.included)
  {
    InstallRemoveRestoresIff(a, issue, s);
    InstallRemoveLeaves(a, issue, s);
    AddMissingIdle(a.included, s.artifacts);
    FilterAllIff(e => EntryApart(s.taskId, issue, e), a.overlays);
    NothingDropped(a.dirs, issue, a.artifacts, Elements(s.artifacts));
  }

  // ---------------------------------------------------------------- inputs where coherence is lost

  const NOTHING := Authority([], [], [], map[], {})
  const MISLABELLED := Summary("task", 2, "", [])

  /** A fixture that names issue 2, installed for issue 1: its entry has no task. */
  lemma MislabelledFixture()
    ensures Coherent(NOTHING) && !Coherent(Installed(NOTHING, 1, MISLABELLED))
    ensures Entry(1, "task") in Installed(NOTHING, 1, MISLABELLED).overlays
  {
    InstallCoherentIff(NOTHING, 1, MISLABELLED);
  }

  const LABELLED := Summary("task", 1, "", ["package.json"])

  /** Installing and removing on an empty authority leaves the artifact's name listed. */
  lemma NamesStayIncluded()
    ensures Removed(Installed(NOTHING, 1, LABELLED), 1) == NOTHING.(included := ["package.json"])
  {
    InstallRemoveLeaves(NOTHING, 1, LABELLED);
    InstallRemoveTasks(NOTHING, 1, LABELLED);
    assert LABELLED.artifacts[..0] == [];
  }

  // ---------------------------------------------------------------- what the commands leave, part by part

  predicate InOrder(x: Task, y: Task) {
    var m, n := if x.issue.None? then 0 else x.issue.value, if y.issue.None? then 0 else y.issue.value;
    var a, b := if x.taskId.None? then "" else x.taskId.value, if y.taskId.None? then "" else y.taskId.value;
    m < n || (m == n && StrLe(a, b))
  }

  /** install: the tasks that share neither task id nor issue with the overlay and the overlay's own
      task, by issue number and then task id; likewise the entries, the new one last; every artifact
      name listed once more at most; directory and artifact files. */
  lemma InstallExact(a: Authority, issue: int, s: Summary)
    ensures var b := Installed(a, issue, s);
            && multiset(b.tasks) == multiset(Filter((t: Task) => t.taskId != Some(s.taskId) && t.issue != Some(issue), a.tasks)
                                             + [Task(Some(s.taskId), Some(s.issueNumber), s.body)])
            && (forall i, j :: 0 <= i < j < |b.tasks| ==> InOrder(b.tasks[i], b.tasks[j]))
            && b.overlays == Filter((e: Entry) => e.issue != issue && e.taskId != s.taskId, a.overlays) + [Entry(issue, s.taskId)]
            && b.dirs == a.dirs[issue := Overlay(s.taskId, s.artifacts)]
            && (forall name :: name in b.artifacts <==> name in a.artifacts || name in s.artifacts)
  {
    SameFilter((t: Task) => TaskApart(s.taskId, issue, t),
               (t: Task) => t.taskId != Some(s.taskId) && t.issue != Some(issue), a.tasks);
    SameFilter((e: Entry) => EntryApart(s.taskId, issue, e), (e: Entry) => e.issue != issue && e.taskId != s.taskId, a.overlays);
    var unsorted := Filter(t => TaskApart(s.taskId, issue, t), a.tasks) + [OverlayTask(s)];
    TasksArePreordered();
    SortSorts(TaskLe, unsorted);
    var tasks := Installed(a, issue, s).tasks;
    forall i, j | 0 <= i < j < |tasks| ensures InOrder(tasks[i], tasks[j]) { assert TaskLe(tasks[i], tasks[j]); }
  }

  lemma {:induction false} SameFilter<T>(f: T -> bool, g: T -> bool, s: seq<T>)
    requires forall x {:trigger f(x)} {:trigger g(x)} :: f(x) == g(x)
    ensures Filter(f, s) == Filter(g, s)
  {
    if s != [] {
      SameFilter(f, g, s[..|s| - 1]);
      assert f(s[|s| - 1]) == g(s[|s| - 1]);
    }
  }

  /** The included names: the old list, and behind it each artifact name it lacks, once. */
  lemma {:induction false} NamesIncluded(list: seq<string>, names: seq<string>)
    ensures list <= AddMissing(list, names)
    ensures forall name :: name in AddMissing(list, names) <==> name in list || name in names
    ensures Distinct(list) ==> Distinct(AddMissing(list, names))
  {
    if names != [] {
      var front, last := names[..|names| - 1], names[|names| - 1];
      NamesIncluded(list, front);
      assert names == front + [last];
    }
  }

  /** remove: every task and entry of the issue goes, and those of the task id the directory records,
      if there is a directory and it records one; the recorded artifacts and the directory go. */
  lemma RemoveExact(a: Authority, issue: int)
    ensures var b := Removed(a, issue);
            var id := if issue in a.dirs then a.dirs[issue].taskId else "";
            && b.tasks == Filter((t: Task) => t.issue != Some(issue) && (id == "" || t.taskId != Some(id)), a.tasks)
            && b.overlays == Filter((e: Entry) => e.issue != issue && (id == "" || e.taskId != id), a.overlays)
            && b.included == a.included && b.dirs == a.dirs - {issue}
            && (forall name :: name in b.artifacts <==>
                  name in a.artifacts && !(issue in a.dirs && name in a.dirs[issue].copied))
  {
    var recorded := Recorded(a, issue);
    var id := if issue in a.dirs then a.dirs[issue].taskId else "";
    SameFilter((t: Task) => TaskKept(recorded, issue, t),
               (t: Task) => t.issue != Some(issue) && (id == "" || t.taskId != Some(id)), a.tasks);
    SameFilter((e: Entry) => EntryKept(recorded, issue, e),
               (e: Entry) => e.issue != issue && (id == "" || e.taskId != id), a.overlays);
  }
}
