/** The document tree as the tool changes it: snapshot and sync-current over one set of files. */
module SyncTool {
  import opened Ordering
  import opened Text
  import opened CurrentBanner
  import opened SyncCurrent
  import opened SyncLaws

  /** sorted(...) of a directory listing. */
  method ListSorted(s: set<Path>) returns (listed: seq<Path>)
    ensures listed == InOrder(PathLe, s)
  {
    PathsAreOrdered();
    listed := [];
    var rest := s;
    while rest != {}
      invariant rest <= s && Elements(listed) == s - rest
      invariant Sorted(PathLe, listed) && Distinct(listed)
      decreases rest
    {
      var p :| p in rest;
      InsertStep(listed, p);
      listed := Insert(PathLe, listed, p);
      rest := rest - {p};
    }
    InOrderUnique(PathLe, s, listed);
  }

  lemma InsertStep(listed: seq<Path>, p: Path)
    requires TotalOrder(PathLe) && Sorted(PathLe, listed) && Distinct(listed) && p !in listed
    ensures var longer := Insert(PathLe, listed, p);
            Sorted(PathLe, longer) && Distinct(longer) && Elements(longer) == Elements(listed) + {p}
  {
    var longer := Insert(PathLe, listed, p);
    InsertSorted(PathLe, listed, p);
    InsertMultiset(PathLe, listed, p);
    assert multiset(longer) == multiset(listed + [p]);
    SameElements(longer, listed + [p]);
    assert Elements(listed + [p]) == Elements(listed) + {p};
    DistinctCardinality(listed + [p]);
    DistinctCardinality(longer);
  }

  class DocTree {
    const read: (Path, string) -> DocRecord
    const banner: Template
    const roots: seq<StageRoot>
    var files: Files

    constructor (read: (Path, string) -> DocRecord, banner: Template, roots: seq<StageRoot>, files: Files)
      ensures this.read == read && this.banner == banner && this.roots == roots && this.files == files
    {
      this.read, this.banner, this.roots, this.files := read, banner, roots, files;
    }

    method ListDocPaths() returns (paths: seq<Path>)
      ensures paths == DocPaths(roots, files)
    {
      var now, roots := files, roots;
      ghost var blocks := seq(|roots|, i requires 0 <= i < |roots| => InOrder(PathLe, DocsUnder(now, roots[i].dir)));
      paths := [];
      for i := 0 to |roots|
        invariant paths == Flatten(blocks[..i])
      {
        var block := ListSorted(DocsUnder(now, roots[i].dir));
        paths := paths + block;
        assert blocks[..i + 1][..i] == blocks[..i];
      }
      assert blocks[..|roots|] == blocks;
    }

    /** The selected records of a freshly built index. */
    method SelectedSources(sel: Selection) returns (sources: seq<DocRecord>)
      requires HonestReader(read)
      ensures sources == SourcesOf(read, roots, files, sel)
      ensures Sources(roots, files, sources)
    {
      AllDocPathsExist(roots, files);
      var paths := ListDocPaths();
      var records := ReadAll(read, files, paths);
      var roots := roots;
      sources := Filter(r => Selected(roots, sel, r), records);
      SourcesAreSources(read, roots, files, sel);
    }

    method Snapshot(sources: seq<DocRecord>) returns (entries: seq<Entry>, targets: nat, collisions: nat, missing: nat, stale: nat)
      requires Sources(roots, files, sources)
      ensures entries == Entries(banner, roots, files, sources)
      ensures Counted(entries, collisions, missing, stale)
      ensures targets == |Managed(roots, files, sources)|
      ensures collisions == 0 <==> CollisionFree(roots, files, sources)
    {
      entries := [];
      collisions, missing, stale := 0, 0, 0;
      var targetToSource: map<Path, Path> := map[];
      for i := 0 to |sources|
        invariant entries == Entries(banner, roots, files, sources)[..i]
        invariant targetToSource.Keys == Managed(roots, files, sources[..i])
        invariant Counted(entries, collisions, missing, stale)
      {
        var target := Target(roots, sources[i]);
        ManagedSoFar(roots, files, sources, i);
        EntryStep(banner, roots, files, sources, i);
        var status := Collision;
        if target !in targetToSource {
          targetToSource := targetToSource[target := sources[i].path];
          status := SyncStatus(banner, roots, files, sources[i]);
        }
        CountedStep(entries, Entry(sources[i].path, target, status), collisions, missing, stale);
        entries := entries + [Entry(sources[i].path, target, status)];
        match status {
          case Collision => collisions := collisions + 1;
          case Missing => missing := missing + 1;
          case Stale => stale := stale + 1;
          case InSync =>
        }
      }
      assert sources[..|sources|] == sources && entries == Entries(banner, roots, files, sources);
      targets := |targetToSource.Keys|;
      CountZero(entries, Collision);
      NoCollisionEntries(banner, roots, files, sources);
    }

    /** Plan and, unless this is a dry run, write the generated copies. */
    method WriteCopies(sources: seq<DocRecord>, dryRun: bool) returns (created: seq<Path>, updated: seq<Path>)
      requires Sources(roots, files, sources) && CollisionFree(roots, files, sources)
      modifies this
      ensures created == Created(roots, old(files), sources)
      ensures updated == Updated(banner, roots, old(files), sources)
      ensures files == if dryRun then old(files) else Written(banner, roots, old(files), sources)
    {
      created, updated := [], [];
      for i := 0 to |sources|
        invariant created == Created(roots, old(files), sources[..i])
        invariant updated == Updated(banner, roots, old(files), sources[..i])
        invariant files == if dryRun then old(files) else Written(banner, roots, old(files), sources[..i])
      {
        var target := Target(roots, sources[i]);
        BeforeWrite(banner, roots, old(files), sources, i);
        assert sources[..i + 1][..i] == sources[..i];
        var rendered := Rendered(banner, files, sources[i]);
        if target !in files {
          created := created + [target];
          if !dryRun { files := files[target := rendered]; }
        } else {
          if Translate(files[target]) != rendered {
            updated := updated + [target];
            if !dryRun { files := files[target := rendered]; }
          }
        }
      }
      assert sources[..|sources|] == sources;
    }

    /** Delete the unmanaged files of one current tree, unless this is a dry run. */
    method PruneTree(sel: Selection, root: StageRoot, managed: set<Path>, dryRun: bool) returns (dropped: seq<Path>)
      modifies this
      ensures dropped == PrunedUnder(old(files), sel, root, managed)
      ensures files == if dryRun then old(files) else old(files) - (set p | p in dropped)
    {
      dropped := [];
      if PruneRoot(sel, root) {
        var listed := ListSorted(CurrentFiles(files, root));
        dropped := Without(listed, managed);
        if !dryRun { files := files - (set p | p in dropped); }
      }
    }

    /** Plan and, unless this is a dry run, delete the unmanaged files of the current trees. */
    method Prune(sel: Selection, managed: set<Path>, dryRun: bool) returns (pruned: seq<Path>)
      requires RootsFit(roots)
      modifies this
      ensures pruned == Pruned(roots, old(files), sel, managed)
      ensures files == if dryRun then old(files) else old(files) - (set p | p in pruned)
    {
      pruned := [];
      for i := 0 to |roots|
        invariant pruned == Pruned(roots[..i], old(files), sel, managed)
        invariant files == if dryRun then old(files) else old(files) - (set p | p in pruned)
      {
        PrunedStep(roots, old(files), sel, managed, i);
        PrunedBefore(roots, old(files), sel, managed, i);
        var dropped := PruneTree(sel, roots[i], managed, dryRun);
        pruned := pruned + dropped;
      }
      assert roots[..|roots|] == roots;
    }

    /** Carry out a plan without collisions. */
    method ApplyPlan(sources: seq<DocRecord>, sel: Selection, managed: set<Path>, dryRun: bool, prune: bool) returns (outcome: Outcome)
      requires RootsFit(roots) && Sources(roots, files, sources) && CollisionFree(roots, files, sources)
      requires managed == Managed(roots, files, sources)
      modifies this
      ensures outcome == Plan(banner, roots, old(files), sel, prune, sources)
      ensures files == if dryRun then old(files) else FilesAfter(banner, roots, old(files), sel, prune, sources)
    {
      var created, updated := WriteCopies(sources, dryRun);
      var pruned: seq<Path> := [];
      if prune {
        PrunedSame(banner, roots, old(files), sel, sources);
        pruned := Prune(sel, managed, dryRun);
      }
      outcome := Synced(created, updated, pruned);
    }

    /** The command.  Its report is the plan computed from the files at the start, in a dry run
        and in a real run alike. */
    method SyncCurrent(sel: Selection, dryRun: bool, prune: bool) returns (outcome: Outcome)
      requires HonestReader(read) && RootsFit(roots)
      modifies this
      ensures var sources := SourcesOf(read, roots, old(files), sel);
              && Sources(roots, old(files), sources)
              && outcome == Plan(banner, roots, old(files), sel, prune, sources)
              && files == if dryRun then old(files) else FilesAfter(banner, roots, old(files), sel, prune, sources)
    {
      var sources := SelectedSources(sel);
      var entries, targets, collisions, missing, stale := Snapshot(sources);
      if collisions > 0 {
        return Refused(entries);
      }
      ManagedFromEntries(banner, roots, files, sources);
      outcome := ApplyPlan(sources, sel, (set e | e in entries :: e.target), dryRun, prune);
    }
  }

  lemma ManagedSoFar(roots: seq<StageRoot>, files: Files, sources: seq<DocRecord>, i: nat)
    requires Sources(roots, files, sources) && i < |sources|
    ensures Target(roots, sources[i]) in Managed(roots, files, sources[..i]) <==> Collides(roots, files, sources, i)
    ensures Managed(roots, files, sources[..i + 1]) == Managed(roots, files, sources[..i]) + {Target(roots, sources[i])}
  {
    var front := sources[..i];
    assert sources[..i + 1][..i] == front;
    ManagedStep(roots, files, sources[..i + 1]);
    if Collides(roots, files, sources, i) {
      var j :| 0 <= j < i && Target(roots, sources[j]) == Target(roots, sources[i]);
      assert Target(roots, front[j]) == Target(roots, sources[i]);
    }
  }

  ghost predicate Counted(entries: seq<Entry>, collisions: nat, missing: nat, stale: nat) {
    collisions == Count(entries, Collision) && missing == Count(entries, Missing) && stale == Count(entries, Stale)
  }

  function Tick(a: Status, b: Status): nat {
    if a == b then 1 else 0
  }

  lemma CountedStep(entries: seq<Entry>, entry: Entry, collisions: nat, missing: nat, stale: nat)
    requires Counted(entries, collisions, missing, stale)
    ensures Counted(entries + [entry], collisions + Tick(entry.status, Collision),
                    missing + Tick(entry.status, Missing), stale + Tick(entry.status, Stale))
  {
    CountStep(entries, entry);
  }

  lemma CountStep(entries: seq<Entry>, entry: Entry)
    ensures forall s :: Count(entries + [entry], s) == Count(entries, s) + if entry.status == s then 1 else 0
  {
    assert (entries + [entry])[..|entries|] == entries;
  }

  lemma {:induction false} CountZero(entries: seq<Entry>, s: Status)
    ensures Count(entries, s) == 0 <==> forall i :: 0 <= i < |entries| ==> entries[i].status != s
  {
    if entries != [] { CountZero(entries[..|entries| - 1], s); }
  }

  lemma NoCollisionEntries(banner: Template, roots: seq<StageRoot>, files: Files, sources: seq<DocRecord>)
    requires Sources(roots, files, sources)
    ensures var entries := Entries(banner, roots, files, sources);
            CollisionFree(roots, files, sources) <==> forall i :: 0 <= i < |entries| ==> entries[i].status != Collision
  {
    var entries := Entries(banner, roots, files, sources);
    forall i | 0 <= i < |sources| ensures entries[i].status == Collision <==> Collides(roots, files, sources, i) {
      assert entries[i] == EntryFor(banner, roots, files, sources, i);
    }
  }

  lemma EntryStep(banner: Template, roots: seq<StageRoot>, files: Files, sources: seq<DocRecord>, i: nat)
    requires Sources(roots, files, sources) && i < |sources|
    ensures Entries(banner, roots, files, sources)[..i + 1] ==
            Entries(banner, roots, files, sources)[..i] + [EntryFor(banner, roots, files, sources, i)]
  {
  }

  /** Until its turn comes, a target and its source are as the sync found them. */
  lemma BeforeWrite(banner: Template, roots: seq<StageRoot>, files: Files, sources: seq<DocRecord>, i: nat)
    requires Sources(roots, files, sources) && CollisionFree(roots, files, sources) && i < |sources|
    ensures var now := Written(banner, roots, files, sources[..i]);
            var t := Target(roots, sources[i]);
            && sources[i].path in now && now[sources[i].path] == files[sources[i].path]
            && (t in now <==> t in files) && (t in files ==> now[t] == files[t])
  {
    var front := sources[..i];
    WrittenKeys(banner, roots, files, front);
    ManagedInCurrent(roots, files, front);
    assert !Collides(roots, files, sources, i);
    forall k | 0 <= k < i ensures Target(roots, front[k]) != Target(roots, sources[i]) { assert front[k] == sources[k]; }
  }

  lemma PrunedStep(roots: seq<StageRoot>, files: Files, sel: Selection, managed: set<Path>, i: nat)
    requires i < |roots|
    ensures Pruned(roots[..i + 1], files, sel, managed) ==
            Pruned(roots[..i], files, sel, managed) + PrunedUnder(files, sel, roots[i], managed)
  {
    var longer, shorter := roots[..i + 1], roots[..i];
    var blocks := seq(i + 1, k requires 0 <= k < i + 1 => PrunedUnder(files, sel, longer[k], managed));
    assert blocks[..i] == seq(i, k requires 0 <= k < i => PrunedUnder(files, sel, shorter[k], managed));
    assert blocks[i] == PrunedUnder(files, sel, roots[i], managed);
  }

  lemma EarlierRootsApart(roots: seq<StageRoot>, files: Files, sel: Selection, managed: set<Path>, i: nat, p: Path)
    requires RootsFit(roots) && i < |roots| && p in CurrentFiles(files, roots[i])
    ensures p !in Pruned(roots[..i], files, sel, managed)
  {
    var earlier := roots[..i];
    var blocks := seq(i, k requires 0 <= k < i => PrunedUnder(files, sel, earlier[k], managed));
    FlattenMember(blocks, p);
    forall k | 0 <= k < i ensures p !in blocks[k] {
      PrunedUnderFacts(files, sel, roots[k], managed, p);
      assert p[..3][..2] == p[..2];
    }
  }

  /** What the earlier roots lost leaves the next current tree as it was. */
  lemma PrunedBefore(roots: seq<StageRoot>, files: Files, sel: Selection, managed: set<Path>, i: nat)
    requires RootsFit(roots) && i < |roots|
    ensures var left := files - (set p | p in Pruned(roots[..i], files, sel, managed));
            PrunedUnder(left, sel, roots[i], managed) == PrunedUnder(files, sel, roots[i], managed)
  {
    var left := files - (set p | p in Pruned(roots[..i], files, sel, managed));
    forall p | p in CurrentFiles(files, roots[i]) ensures p in CurrentFiles(left, roots[i]) {
      EarlierRootsApart(roots, files, sel, managed, i, p);
    }
    assert CurrentFiles(left, roots[i]) == CurrentFiles(files, roots[i]);
  }

  lemma ManagedFromEntries(banner: Template, roots: seq<StageRoot>, files: Files, sources: seq<DocRecord>)
    requires Sources(roots, files, sources)
    ensures (set e | e in Entries(banner, roots, files, sources) :: e.target) == Managed(roots, files, sources)
  {
    var entries := Entries(banner, roots, files, sources);
    forall t ensures t in (set e | e in entries :: e.target) <==> t in Managed(roots, files, sources) {
      if t in Managed(roots, files, sources) {
        var i :| 0 <= i < |sources| && t == Target(roots, sources[i]);
        assert entries[i] in entries && entries[i].target == t;
      }
    }
  }

  /** Pruning the written files and pruning the files of the start list the same paths: what the
      sync created in between is managed. */
  lemma PrunedSame(banner: Template, roots: seq<StageRoot>, files: Files, sel: Selection, sources: seq<DocRecord>)
    requires Sources(roots, files, sources)
    ensures Pruned(roots, Written(banner, roots, files, sources), sel, Managed(roots, files, sources))
         == Pruned(roots, files, sel, Managed(roots, files, sources))
  {
    var managed := Managed(roots, files, sources);
    var written := Written(banner, roots, files, sources);
    WrittenKeys(banner, roots, files, sources);
    PathsAreOrdered();
    forall i | 0 <= i < |roots| ensures PrunedUnder(written, sel, roots[i], managed) == PrunedUnder(files, sel, roots[i], managed) {
      SameUnmanaged(written, files, roots[i], managed);
    }
    assert seq(|roots|, i requires 0 <= i < |roots| => PrunedUnder(written, sel, roots[i], managed))
        == seq(|roots|, i requires 0 <= i < |roots| => PrunedUnder(files, sel, roots[i], managed));
  }

  lemma SameUnmanaged(a: Files, b: Files, root: StageRoot, managed: set<Path>)
    requires TotalOrder(PathLe) && a.Keys == b.Keys + managed
    ensures Without(InOrder(PathLe, CurrentFiles(a, root)), managed)
         == Without(InOrder(PathLe, CurrentFiles(b, root)), managed)
  {
    WithoutInOrder(PathLe, CurrentFiles(a, root), managed);
    WithoutInOrder(PathLe, CurrentFiles(b, root), managed);
    assert CurrentFiles(a, root) - managed == CurrentFiles(b, root) - managed;
  }
}
