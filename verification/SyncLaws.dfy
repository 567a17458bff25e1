/** Non-interference, convergence and exactness of sync-current. */
module SyncLaws {
  import opened Wrappers
  import opened Ordering
  import opened Text
  import opened CurrentBanner
  import opened SyncCurrent

  // ---------------------------------------------------------------- path order

  lemma {:induction false} PathTransitive(a: Path, b: Path, c: Path)
    requires PathLe(a, b) && PathLe(b, c)
    ensures PathLe(a, c)
  {
    if a != [] && b != [] && c != [] {
      if a[0] == b[0] == c[0] {
        PathTransitive(a[1..], b[1..], c[1..]);
      } else if a[0] != b[0] && b[0] != c[0] {
        StrTransitive(a[0], b[0], c[0]);
        StrTotal(a[0], b[0]);
      }
    }
  }

  lemma {:induction false} PathTotal(a: Path, b: Path)
    ensures PathLe(a, b) || PathLe(b, a)
    ensures PathLe(a, b) && PathLe(b, a) ==> a == b
  {
    if a != [] && b != [] {
      StrTotal(a[0], b[0]);
      if a[0] == b[0] {
        PathTotal(a[1..], b[1..]);
        assert a == [a[0]] + a[1..] && b == [b[0]] + b[1..];
      }
    }
  }

  lemma PathsAreOrdered()
    ensures TotalOrder(PathLe)
  {
    forall a, b, c: Path
      ensures (PathLe(a, b) || PathLe(b, a)) && (PathLe(a, b) && PathLe(b, c) ==> PathLe(a, c))
    {
      PathTotal(a, b);
      if PathLe(a, b) && PathLe(b, c) { PathTransitive(a, b, c); }
    }
    forall a, b: Path | PathLe(a, b) && PathLe(b, a) ensures a == b { PathTotal(a, b); }
  }

  lemma {:induction false} FlattenMember<T>(parts: seq<seq<T>>, x: T)
    ensures x in Flatten(parts) <==> exists i :: 0 <= i < |parts| && x in parts[i]
  {
    if parts != [] {
      var n := |parts| - 1;
      FlattenMember(parts[..n], x);
      if x in Flatten(parts[..n]) {
        var i :| 0 <= i < n && x in parts[..n][i];
        assert x in parts[i];
      }
      if i :| 0 <= i < |parts| && x in parts[i] && i < n { assert x in parts[..n][i]; }
    }
  }

  // ---------------------------------------------------------------- the roots

  /** What the laws need of the stage roots: distinct two-component directories, none "current". */
  ghost predicate RootsFit(roots: seq<StageRoot>) {
    && (forall i :: 0 <= i < |roots| ==> |roots[i].dir| == 2 && CURRENT !in roots[i].dir)
    && (forall i, j :: 0 <= i < j < |roots| ==> roots[i].dir != roots[j].dir)
  }

  lemma StageRootsFit()
    ensures RootsFit(STAGE_ROOTS)
  {
    forall i | 0 <= i < |STAGE_ROOTS| ensures |STAGE_ROOTS[i].dir| == 2 && CURRENT !in STAGE_ROOTS[i].dir {}
    forall i, j | 0 <= i < j < |STAGE_ROOTS| ensures STAGE_ROOTS[i].dir != STAGE_ROOTS[j].dir {
    }
  }

  lemma {:induction false} StageDirFacts(roots: seq<StageRoot>, p: Path)
    requires HasStageRoot(roots, p)
    ensures exists i :: 0 <= i < |roots| && StageDir(roots, p) == roots[i].dir
  {
    if !(p == roots[0].dir || Under(p, roots[0].dir)) {
      StageDirFacts(roots[1..], p);
      var i :| 0 <= i < |roots[1..]| && StageDir(roots[1..], p) == roots[1..][i].dir;
      assert roots[i + 1].dir == StageDir(roots, p);
    }
  }

  /** Targets are Markdown files of a current tree. */
  lemma TargetFacts(roots: seq<StageRoot>, r: DocRecord)
    requires HasStageRoot(roots, r.path) && IsMarkdown(r.path)
    ensures InCurrentTree(Target(roots, r)) && IsMarkdown(Target(roots, r))
    ensures exists i :: 0 <= i < |roots| && Under(Target(roots, r), roots[i].dir + [CURRENT])
  {
    var dir, name := StageDir(roots, r.path), r.path[|r.path| - 1];
    var t := Target(roots, r);
    StageDirFacts(roots, r.path);
    assert t[|dir|] == CURRENT && t[|t| - 1] == StableName(name);
    if DatePrefixed(name) {
      assert name[|name| - 3..][0] == '.';
      assert |name| - 3 >= 11;
      assert name[11..][|name| - 14..] == name[|name| - 3..];
    }
    assert t[..|dir| + 1] == dir + [CURRENT];
    var i :| 0 <= i < |roots| && StageDir(roots, r.path) == roots[i].dir;
    assert Under(t, roots[i].dir + [CURRENT]);
  }

  // ---------------------------------------------------------------- non-interference

  /** The two trees hold the same documents outside the current trees. */
  ghost predicate SameSources(files: Files, files': Files) {
    forall p :: !InCurrentTree(p) ==> (p in files <==> p in files') && (p in files ==> files[p] == files'[p])
  }

  lemma DocPathFacts(roots: seq<StageRoot>, files: Files, p: Path)
    ensures p in DocPaths(roots, files) <==> exists i :: 0 <= i < |roots| && p in DocsUnder(files, roots[i].dir)
  {
    var parts := seq(|roots|, i requires 0 <= i < |roots| => InOrder(PathLe, DocsUnder(files, roots[i].dir)));
    FlattenMember(parts, p);
    PathsAreOrdered();
    forall i | 0 <= i < |roots| ensures p in parts[i] <==> p in DocsUnder(files, roots[i].dir) {
      InOrderFacts(PathLe, DocsUnder(files, roots[i].dir));
      assert p in parts[i] <==> p in Elements(parts[i]);
    }
  }

  /** The valid records of a reader carry the path they were read from. */
  ghost predicate HonestReader(read: (Path, string) -> DocRecord) {
    forall p, t {:trigger read(p, t)} :: read(p, t).valid ==> read(p, t).path == p
  }

  ghost function SourcesOf(read: (Path, string) -> DocRecord, roots: seq<StageRoot>, files: Files, sel: Selection): seq<DocRecord> {
    AllDocPathsExist(roots, files);
    Filter(r => Selected(roots, sel, r), ReadAll(read, files, DocPaths(roots, files)))
  }

  lemma AllDocPathsExist(roots: seq<StageRoot>, files: Files)
    ensures forall i :: 0 <= i < |DocPaths(roots, files)| ==>
              DocPaths(roots, files)[i] in files && IsMarkdown(DocPaths(roots, files)[i])
  {
    forall i | 0 <= i < |DocPaths(roots, files)|
      ensures DocPaths(roots, files)[i] in files && IsMarkdown(DocPaths(roots, files)[i])
    {
      DocPathFacts(roots, files, DocPaths(roots, files)[i]);
    }
  }

  /** Selected sources exist, are Markdown and lie outside the current trees. */
  lemma SourcesAreSources(read: (Path, string) -> DocRecord, roots: seq<StageRoot>, files: Files, sel: Selection)
    requires HonestReader(read)
    ensures Sources(roots, files, SourcesOf(read, roots, files, sel))
  {
    AllDocPathsExist(roots, files);
    var paths := DocPaths(roots, files);
    var records := ReadAll(read, files, paths);
    var keep := r => Selected(roots, sel, r);
    var sources := SourcesOf(read, roots, files, sel);
    FilterFacts(keep, records);
    forall i | 0 <= i < |sources|
      ensures && sources[i].path in files && HasStageRoot(roots, sources[i].path)
              && IsMarkdown(sources[i].path) && !InCurrentTree(sources[i].path)
    {
      var r := sources[i];
      assert r in records && Selected(roots, sel, r);
      var k :| 0 <= k < |records| && records[k] == r;
      assert r == read(paths[k], files[paths[k]]);
    }
  }

  /** What the current trees hold has no influence on the sources. */
  lemma SourcesUnaffected(read: (Path, string) -> DocRecord, roots: seq<StageRoot>, files: Files, files': Files, sel: Selection)
    requires SameSources(files, files')
    ensures SourcesOf(read, roots, files, sel) == SourcesOf(read, roots, files', sel)
  {
    forall i | 0 <= i < |roots| ensures DocsUnder(files, roots[i].dir) == DocsUnder(files', roots[i].dir) {}
    assert seq(|roots|, i requires 0 <= i < |roots| => InOrder(PathLe, DocsUnder(files, roots[i].dir)))
        == seq(|roots|, i requires 0 <= i < |roots| => InOrder(PathLe, DocsUnder(files', roots[i].dir)));
    AllDocPathsExist(roots, files);
    var paths := DocPaths(roots, files);
    forall i | 0 <= i < |paths| ensures paths[i] in files' && files[paths[i]] == files'[paths[i]] {
      DocPathFacts(roots, files, paths[i]);
    }
    assert ReadAll(read, files, paths) == ReadAll(read, files', paths);
  }

  lemma {:induction false} WrittenKeys(banner: Template, roots: seq<StageRoot>, files: Files, sources: seq<DocRecord>)
    requires Sources(roots, files, sources)
    ensures Written(banner, roots, files, sources).Keys == files.Keys + Managed(roots, files, sources)
    ensures forall p :: p in files && p !in Managed(roots, files, sources) ==> Written(banner, roots, files, sources)[p] == files[p]
  {
    if sources != [] {
      WrittenKeys(banner, roots, files, sources[..|sources| - 1]);
      ManagedStep(roots, files, sources);
    }
  }

  /** What a sync leaves at the target of a source. */
  function Copied(banner: Template, files: Files, t: Path, r: DocRecord): string
    requires r.path in files
  {
    if HoldsCopy(banner, files, t, r) then files[t] else Rendered(banner, files, r)
  }

  lemma FrontApart(roots: seq<StageRoot>, files: Files, sources: seq<DocRecord>)
    requires Sources(roots, files, sources) && CollisionFree(roots, files, sources) && sources != []
    ensures var n := |sources| - 1;
            && CollisionFree(roots, files, sources[..n])
            && Target(roots, sources[n]) !in Managed(roots, files, sources[..n])
  {
    var n := |sources| - 1;
    var front := sources[..n];
    forall k | 0 <= k < n ensures !Collides(roots, files, front, k) { assert !Collides(roots, files, sources, k); }
    assert !Collides(roots, files, sources, n);
    forall k | 0 <= k < n ensures Target(roots, front[k]) != Target(roots, sources[n]) { assert front[k] == sources[k]; }
  }

  lemma MemberManaged(roots: seq<StageRoot>, files: Files, sources: seq<DocRecord>, i: nat)
    requires Sources(roots, files, sources) && i < |sources|
    ensures Target(roots, sources[i]) in Managed(roots, files, sources)
  {
  }

  lemma LastWritten(banner: Template, roots: seq<StageRoot>, files: Files, sources: seq<DocRecord>)
    requires Sources(roots, files, sources) && CollisionFree(roots, files, sources) && sources != []
    ensures var r := sources[|sources| - 1];
            var t := Target(roots, r);
            t in Written(banner, roots, files, sources) && Written(banner, roots, files, sources)[t] == Copied(banner, files, t, r)
  {
    FrontApart(roots, files, sources);
    WrittenKeys(banner, roots, files, sources[..|sources| - 1]);
  }

  lemma EarlierWritten(banner: Template, roots: seq<StageRoot>, files: Files, sources: seq<DocRecord>, t: Path)
    requires Sources(roots, files, sources) && sources != [] && t != Target(roots, sources[|sources| - 1])
    requires t in Written(banner, roots, files, sources[..|sources| - 1])
    ensures t in Written(banner, roots, files, sources)
    ensures Written(banner, roots, files, sources)[t] == Written(banner, roots, files, sources[..|sources| - 1])[t]
  {
  }

  /** Each target ends up holding its own source's copy: distinct targets do not clobber each other. */
  lemma {:induction false} WrittenTarget(banner: Template, roots: seq<StageRoot>, files: Files, sources: seq<DocRecord>, i: nat)
    requires Sources(roots, files, sources) && CollisionFree(roots, files, sources) && i < |sources|
    ensures var t := Target(roots, sources[i]);
            t in Written(banner, roots, files, sources) &&
            Written(banner, roots, files, sources)[t] == Copied(banner, files, t, sources[i])
  {
    var n := |sources| - 1;
    if i == n {
      LastWritten(banner, roots, files, sources);
    } else {
      var front := sources[..n];
      assert front[i] == sources[i];
      FrontApart(roots, files, sources);
      MemberManaged(roots, files, front, i);
      WrittenTarget(banner, roots, files, front, i);
      EarlierWritten(banner, roots, files, sources, Target(roots, front[i]));
    }
  }

  lemma ManagedStep(roots: seq<StageRoot>, files: Files, sources: seq<DocRecord>)
    requires Sources(roots, files, sources) && sources != []
    ensures var n := |sources| - 1;
            Managed(roots, files, sources) == Managed(roots, files, sources[..n]) + {Target(roots, sources[n])}
  {
    var n := |sources| - 1;
    forall t ensures t in Managed(roots, files, sources) <==> t in Managed(roots, files, sources[..n]) + {Target(roots, sources[n])} {
      if t in Managed(roots, files, sources[..n]) {
        var i :| 0 <= i < n && t == Target(roots, sources[..n][i]);
        assert t == Target(roots, sources[i]);
      }
      if t in Managed(roots, files, sources) {
        var i :| 0 <= i < |sources| && t == Target(roots, sources[i]);
        if i < n { assert sources[..n][i] == sources[i]; }
      }
    }
  }

  lemma ManagedInCurrent(roots: seq<StageRoot>, files: Files, sources: seq<DocRecord>)
    requires Sources(roots, files, sources)
    ensures forall t :: t in Managed(roots, files, sources) ==> InCurrentTree(t)
  {
    forall t | t in Managed(roots, files, sources) ensures InCurrentTree(t) {
      var i :| 0 <= i < |sources| && t == Target(roots, sources[i]);
      TargetFacts(roots, sources[i]);
    }
  }

  // ---------------------------------------------------------------- pruning

  lemma PrunedFacts(roots: seq<StageRoot>, files: Files, sel: Selection, managed: set<Path>, p: Path)
    ensures p in Pruned(roots, files, sel, managed) <==>
            p !in managed && exists i :: 0 <= i < |roots| && PruneRoot(sel, roots[i]) && p in CurrentFiles(files, roots[i])
    ensures p in Pruned(roots, files, sel, managed) ==> InCurrentTree(p)
  {
    var parts := seq(|roots|, i requires 0 <= i < |roots| => PrunedUnder(files, sel, roots[i], managed));
    FlattenMember(parts, p);
    forall i | 0 <= i < |roots|
      ensures p in parts[i] <==> PruneRoot(sel, roots[i]) && p !in managed && p in CurrentFiles(files, roots[i])
    {
      PrunedUnderFacts(files, sel, roots[i], managed, p);
    }
    if p in Pruned(roots, files, sel, managed) {
      var i :| 0 <= i < |roots| && p in parts[i];
      PrunedUnderFacts(files, sel, roots[i], managed, p);
    }
  }

  lemma PrunedUnderFacts(files: Files, sel: Selection, root: StageRoot, managed: set<Path>, p: Path)
    ensures p in PrunedUnder(files, sel, root, managed) <==>
            PruneRoot(sel, root) && p !in managed && p in CurrentFiles(files, root)
    ensures p in PrunedUnder(files, sel, root, managed) ==> InCurrentTree(p)
  {
    PathsAreOrdered();
    WithoutInOrder(PathLe, CurrentFiles(files, root), managed);
    InOrderFacts(PathLe, CurrentFiles(files, root) - managed);
    var left := InOrder(PathLe, CurrentFiles(files, root) - managed);
    assert p in left <==> p in Elements(left);
    if p in CurrentFiles(files, root) {
      assert p[..|root.dir| + 1][|root.dir|] == CURRENT;
      assert p[|root.dir|] == CURRENT;
    }
  }

  // ---------------------------------------------------------------- the main results

  /** A sync never touches a source document. */
  lemma SyncLeavesSources(banner: Template, roots: seq<StageRoot>, files: Files, sel: Selection, prune: bool, sources: seq<DocRecord>)
    requires Sources(roots, files, sources)
    ensures SameSources(files, FilesAfter(banner, roots, files, sel, prune, sources))
  {
    var plan := Plan(banner, roots, files, sel, prune, sources);
    WrittenKeys(banner, roots, files, sources);
    ManagedInCurrent(roots, files, sources);
    if plan.Synced? {
      forall p | p in plan.pruned ensures InCurrentTree(p) {
        PrunedFacts(roots, files, sel, Managed(roots, files, sources), p);
      }
    }
  }

  lemma TargetsAfter(banner: Template, roots: seq<StageRoot>, files: Files, sel: Selection, prune: bool, sources: seq<DocRecord>, i: nat)
    requires Sources(roots, files, sources) && CollisionFree(roots, files, sources) && i < |sources|
    ensures var after := FilesAfter(banner, roots, files, sel, prune, sources);
            var t := Target(roots, sources[i]);
            t in after && after[t] == Copied(banner, files, t, sources[i])
  {
    var t := Target(roots, sources[i]);
    WrittenTarget(banner, roots, files, sources, i);
    assert t in Managed(roots, files, sources);
    PrunedFacts(roots, files, sel, Managed(roots, files, sources), t);
  }

  /** A stored copy, or a text read back as one, parses as its source exactly for a safe path. */
  lemma StoredCopyReads(banner: Template, path: string, text: string, stored: string)
    requires Fits(banner) && path != ""
    requires var copy := RenderCopy(banner, path, Translate(text)); stored == copy || Translate(stored) == copy
    ensures ParseBanner(banner, Translate(stored)) == Parsed(Some(path), Translate(text)) <==> BannerSafe(banner, path)
  {
    var copy := RenderCopy(banner, path, Translate(text));
    TranslateClean(text);
    TranslateKeeps(Translate(text));
    CopyReadsBack(banner, path, Translate(text));
    if Translate(stored) == copy {
      TranslateClean(stored);
      TranslateKeeps(copy);
    }
  }

  lemma {:induction false} SourceTextNonEmpty(p: Path)
    requires IsMarkdown(p)
    ensures PathText(p) != ""
  {
    if |p| == 1 {
      assert |p[0]| >= 3;
    }
  }

  /** Convergence: after a collision-free real sync the same selection sees the same sources, and
      each is in sync exactly when its path can be carried by the banner; it is never missing. */
  lemma Converges(read: (Path, string) -> DocRecord, banner: Template, roots: seq<StageRoot>, files: Files, sel: Selection, prune: bool)
    requires HonestReader(read) && Fits(banner)
    requires Sources(roots, files, SourcesOf(read, roots, files, sel))
    requires CollisionFree(roots, files, SourcesOf(read, roots, files, sel))
    ensures var sources := SourcesOf(read, roots, files, sel);
            var after := FilesAfter(banner, roots, files, sel, prune, sources);
            && SourcesOf(read, roots, after, sel) == sources
            && Sources(roots, after, sources)
            && (forall i :: 0 <= i < |sources| ==>
                  Entries(banner, roots, after, sources)[i].status ==
                  if BannerSafe(banner, PathText(sources[i].path)) then InSync else Stale)
  {
    var sources := SourcesOf(read, roots, files, sel);
    var after := FilesAfter(banner, roots, files, sel, prune, sources);
    SyncLeavesSources(banner, roots, files, sel, prune, sources);
    SourcesUnaffected(read, roots, files, after, sel);
    SourcesAreSources(read, roots, after, sel);
    forall i | 0 <= i < |sources|
      ensures Entries(banner, roots, after, sources)[i].status ==
              if BannerSafe(banner, PathText(sources[i].path)) then InSync else Stale
    {
      assert !Collides(roots, files, sources, i);
      assert !Collides(roots, after, sources, i);
      TargetsAfter(banner, roots, files, sel, prune, sources, i);
      SourceTextNonEmpty(sources[i].path);
      StoredCopyReads(banner, PathText(sources[i].path), files[sources[i].path], after[Target(roots, sources[i])]);
    }
  }

  /** Every target holds the copy of its source, as written or as read. */
  ghost predicate UpToDate(banner: Template, roots: seq<StageRoot>, files: Files, sources: seq<DocRecord>)
    requires Sources(roots, files, sources)
  {
    forall i :: 0 <= i < |sources| ==>
      var t := Target(roots, sources[i]);
      t in files && (files[t] == Rendered(banner, files, sources[i]) || HoldsCopy(banner, files, t, sources[i]))
  }

  predicate PathReturns(r: DocRecord) {
    '\r' in PathText(r.path)
  }

  /** Targets of sources whose path holds a carriage return, in order. */
  ghost function Rewrites(roots: seq<StageRoot>, files: Files, sources: seq<DocRecord>): seq<Path>
    requires Sources(roots, files, sources)
  {
    if sources == [] then []
    else
      var n := |sources| - 1;
      Rewrites(roots, files, sources[..n]) + if PathReturns(sources[n]) then [Target(roots, sources[n])] else []
  }

  /** A copy is read back as stored exactly when its path holds no carriage return. */
  lemma CopyReadsAsStoredIff(banner: Template, path: string, text: string)
    requires Fits(banner)
    ensures var copy := RenderCopy(banner, path, Translate(text)); Translate(copy) == copy <==> '\r' !in path
  {
    var copy := RenderCopy(banner, path, Translate(text));
    ReadsAsStoredIff(copy);
    if '\r' !in path {
      CopyTranslated(banner, path, Translate(text));
      TranslateClean(text);
      TranslateKeeps(Translate(text));
    } else {
      PathWithinCopy(banner, path, Translate(text));
    }
  }

  lemma PathWithinCopy(banner: Template, path: string, text: string)
    ensures forall c :: c in path ==> c in RenderCopy(banner, path, text)
  {
    var copy := RenderCopy(banner, path, text);
    var n := |banner.prefix| + 1 + |banner.open|;
    forall c | c in path ensures c in copy {
      var k :| 0 <= k < |path| && path[k] == c;
      assert copy[n + k] == c;
    }
  }

  lemma HeldIff(banner: Template, files: Files, t: Path, r: DocRecord)
    requires Fits(banner) && r.path in files && t in files
    requires files[t] == Rendered(banner, files, r) || HoldsCopy(banner, files, t, r)
    ensures HoldsCopy(banner, files, t, r) <==> !PathReturns(r)
  {
    var copy := Rendered(banner, files, r);
    CopyReadsAsStoredIff(banner, PathText(r.path), files[r.path]);
    if HoldsCopy(banner, files, t, r) {
      TranslateClean(files[t]);
      TranslateKeeps(copy);
    }
  }

  lemma {:induction false} UpToDateIsIdle(banner: Template, roots: seq<StageRoot>, files: Files, sources: seq<DocRecord>)
    requires Fits(banner) && Sources(roots, files, sources) && UpToDate(banner, roots, files, sources)
    ensures Created(roots, files, sources) == [] && Updated(banner, roots, files, sources) == Rewrites(roots, files, sources)
    ensures Written(banner, roots, files, sources) == files
  {
    if sources != [] {
      UpToDateParts(banner, roots, files, sources);
      UpToDateIsIdle(banner, roots, files, sources[..|sources| - 1]);
    }
  }

  lemma UpToDateParts(banner: Template, roots: seq<StageRoot>, files: Files, sources: seq<DocRecord>)
    requires Fits(banner) && Sources(roots, files, sources) && UpToDate(banner, roots, files, sources) && sources != []
    ensures var n := |sources| - 1;
            var t := Target(roots, sources[n]);
            && UpToDate(banner, roots, files, sources[..n])
            && t in files && (HoldsCopy(banner, files, t, sources[n]) <==> !PathReturns(sources[n]))
            && (!HoldsCopy(banner, files, t, sources[n]) ==> files[t] == Rendered(banner, files, sources[n]))
  {
    var n := |sources| - 1;
    assert forall i :: 0 <= i < n ==> sources[..n][i] == sources[i];
    HeldIff(banner, files, Target(roots, sources[n]), sources[n]);
  }

  lemma AfterIsUpToDate(banner: Template, roots: seq<StageRoot>, files: Files, sel: Selection, prune: bool, sources: seq<DocRecord>)
    requires Sources(roots, files, sources) && CollisionFree(roots, files, sources)
    ensures var after := FilesAfter(banner, roots, files, sel, prune, sources);
            Sources(roots, after, sources) && CollisionFree(roots, after, sources) && UpToDate(banner, roots, after, sources)
  {
    var after := FilesAfter(banner, roots, files, sel, prune, sources);
    SyncLeavesSources(banner, roots, files, sel, prune, sources);
    forall i | 0 <= i < |sources| ensures !Collides(roots, after, sources, i) {
      assert !Collides(roots, files, sources, i);
    }
    forall i | 0 <= i < |sources|
      ensures var t := Target(roots, sources[i]);
              t in after && (after[t] == Rendered(banner, after, sources[i]) || HoldsCopy(banner, after, t, sources[i]))
    {
      TargetsAfter(banner, roots, files, sel, prune, sources, i);
      assert Rendered(banner, after, sources[i]) == Rendered(banner, files, sources[i]);
    }
  }

  /** A second sync of the same sources creates and prunes nothing, leaves every file as it is, and
      reports as updated exactly the targets of sources whose path holds a carriage return: those
      are rewritten every time. */
  lemma SecondSync(banner: Template, roots: seq<StageRoot>, files: Files, sel: Selection, prune: bool, sources: seq<DocRecord>)
    requires Fits(banner) && Sources(roots, files, sources) && CollisionFree(roots, files, sources)
    ensures var after := FilesAfter(banner, roots, files, sel, prune, sources);
            && Sources(roots, after, sources)
            && Plan(banner, roots, after, sel, prune, sources) == Synced([], Rewrites(roots, files, sources), [])
            && FilesAfter(banner, roots, after, sel, prune, sources) == after
  {
    AfterIsUpToDate(banner, roots, files, sel, prune, sources);
    if prune { NothingToPrune(banner, roots, files, sel, sources); }
    SyncOfUpToDate(banner, roots, FilesAfter(banner, roots, files, sel, prune, sources), sel, prune, sources);
    SameRewrites(roots, files, FilesAfter(banner, roots, files, sel, prune, sources), sources);
  }

  lemma SyncOfUpToDate(banner: Template, roots: seq<StageRoot>, files: Files, sel: Selection, prune: bool, sources: seq<DocRecord>)
    requires Fits(banner) && Sources(roots, files, sources) && CollisionFree(roots, files, sources) && UpToDate(banner, roots, files, sources)
    requires prune ==> Pruned(roots, files, sel, Managed(roots, files, sources)) == []
    ensures Plan(banner, roots, files, sel, prune, sources) == Synced([], Rewrites(roots, files, sources), [])
    ensures FilesAfter(banner, roots, files, sel, prune, sources) == files
  {
    UpToDateIsIdle(banner, roots, files, sources);
    assert files - (set p: Path | p in []) == files;
  }

  lemma {:induction false} SameRewrites(roots: seq<StageRoot>, files: Files, files': Files, sources: seq<DocRecord>)
    requires Sources(roots, files, sources) && Sources(roots, files', sources)
    ensures Rewrites(roots, files, sources) == Rewrites(roots, files', sources)
    ensures Rewrites(roots, files, sources) == [] <==> forall i :: 0 <= i < |sources| ==> !PathReturns(sources[i])
  {
    if sources != [] {
      var n := |sources| - 1;
      SameRewrites(roots, files, files', sources[..n]);
      assert forall i :: 0 <= i < n ==> sources[..n][i] == sources[i];
    }
  }

  /** So a second sync does nothing at all exactly when no source path holds a carriage return. */
  lemma SecondSyncIdleIff(banner: Template, roots: seq<StageRoot>, files: Files, sel: Selection, prune: bool, sources: seq<DocRecord>)
    requires Fits(banner) && Sources(roots, files, sources) && CollisionFree(roots, files, sources)
    ensures var after := FilesAfter(banner, roots, files, sel, prune, sources);
            && Sources(roots, after, sources)
            && (Plan(banner, roots, after, sel, prune, sources) == Synced([], [], []) <==>
                  forall i :: 0 <= i < |sources| ==> !PathReturns(sources[i]))
  {
    SecondSync(banner, roots, files, sel, prune, sources);
    SameRewrites(roots, files, files, sources);
  }

  lemma NothingToPrune(banner: Template, roots: seq<StageRoot>, files: Files, sel: Selection, sources: seq<DocRecord>)
    requires Sources(roots, files, sources) && CollisionFree(roots, files, sources)
    ensures var after := FilesAfter(banner, roots, files, sel, true, sources);
            Pruned(roots, after, sel, Managed(roots, files, sources)) == []
  {
    var after := FilesAfter(banner, roots, files, sel, true, sources);
    var managed := Managed(roots, files, sources);
    WrittenKeys(banner, roots, files, sources);
    forall p ensures p !in Pruned(roots, after, sel, managed) {
      PrunedFacts(roots, after, sel, managed, p);
      PrunedFacts(roots, files, sel, managed, p);
      forall i | 0 <= i < |roots| && p !in managed ensures p in CurrentFiles(after, roots[i]) ==> !PruneRoot(sel, roots[i]) {
        assert p in CurrentFiles(after, roots[i]) ==> p in CurrentFiles(files, roots[i]);
      }
    }
    NonEmptyHasMember(Pruned(roots, after, sel, managed));
  }

  lemma NonEmptyHasMember<T>(s: seq<T>)
    ensures s != [] ==> exists x :: x in s
  {
    if s != [] { assert s[0] in s; }
  }

  /** An unfiltered prune leaves exactly the managed files in the current trees. */
  lemma PruneIsExact(banner: Template, roots: seq<StageRoot>, files: Files, sources: seq<DocRecord>)
    requires Sources(roots, files, sources) && CollisionFree(roots, files, sources)
    ensures var after := FilesAfter(banner, roots, files, Selection(None, None), true, sources);
            forall p :: p in Managed(roots, files, sources) <==> exists i :: 0 <= i < |roots| && p in CurrentFiles(after, roots[i])
  {
    var sel := Selection(None, None);
    var after := FilesAfter(banner, roots, files, sel, true, sources);
    var managed := Managed(roots, files, sources);
    WrittenKeys(banner, roots, files, sources);
    forall p ensures p in managed <==> exists i :: 0 <= i < |roots| && p in CurrentFiles(after, roots[i]) {
      PrunedFacts(roots, files, sel, managed, p);
      if p in managed {
        var k :| 0 <= k < |sources| && p == Target(roots, sources[k]);
        TargetFacts(roots, sources[k]);
        TargetsAfter(banner, roots, files, sel, true, sources, k);
        var i :| 0 <= i < |roots| && Under(p, roots[i].dir + [CURRENT]);
        assert p in CurrentFiles(after, roots[i]);
      } else {
        forall i | 0 <= i < |roots| ensures p !in CurrentFiles(after, roots[i]) {
          assert p in CurrentFiles(after, roots[i]) ==> p in CurrentFiles(files, roots[i]);
        }
      }
    }
  }

  lemma {:induction false} PlannedMember(banner: Template, roots: seq<StageRoot>, files: Files, sources: seq<DocRecord>, i: nat)
    requires Sources(roots, files, sources) && i < |sources|
    ensures var t := Target(roots, sources[i]);
            && (t !in files ==> t in Created(roots, files, sources))
            && (t in files && !HoldsCopy(banner, files, t, sources[i]) ==> t in Updated(banner, roots, files, sources))
  {
    if i < |sources| - 1 { PlannedMember(banner, roots, files, sources[..|sources| - 1], i); }
  }

  /** What the snapshot calls missing is planned as a create; what it calls stale, for a path the
      banner can carry, is planned as an update. */
  lemma SnapshotPredictsPlan(banner: Template, roots: seq<StageRoot>, files: Files, sources: seq<DocRecord>, i: nat)
    requires Fits(banner) && Sources(roots, files, sources) && i < |sources|
    ensures var status := SyncStatus(banner, roots, files, sources[i]);
            var t := Target(roots, sources[i]);
            && (status == Missing ==> t in Created(roots, files, sources))
            && (status == Stale && BannerSafe(banner, PathText(sources[i].path)) ==> t in Updated(banner, roots, files, sources))
  {
    PlannedMember(banner, roots, files, sources, i);
    var t := Target(roots, sources[i]);
    SourceTextNonEmpty(sources[i].path);
    if HoldsCopy(banner, files, t, sources[i]) {
      StoredCopyReads(banner, PathText(sources[i].path), files[sources[i].path], files[t]);
    }
  }

  /** Only a source's own target is planned. */
  lemma {:induction false} PlannedOnly(banner: Template, roots: seq<StageRoot>, files: Files, sources: seq<DocRecord>, t: Path)
    requires Sources(roots, files, sources)
    ensures t in Created(roots, files, sources) ==> t !in files
    ensures t in Updated(banner, roots, files, sources) ==>
      exists k :: 0 <= k < |sources| && Target(roots, sources[k]) == t && t in files && !HoldsCopy(banner, files, t, sources[k])
  {
    if sources != [] {
      var n := |sources| - 1;
      PlannedOnly(banner, roots, files, sources[..n], t);
      if t in Updated(banner, roots, files, sources[..n]) {
        var k :| 0 <= k < n && Target(roots, sources[..n][k]) == t && t in files && !HoldsCopy(banner, files, t, sources[..n][k]);
        assert sources[k] == sources[..n][k];
      }
    }
  }

  /** Without collisions the snapshot and the plan agree, for every path: a record is a planned
      create exactly when it is missing, and a planned update exactly when its target exists and
      is not read back as the rendered copy. */
  lemma PlannedIff(banner: Template, roots: seq<StageRoot>, files: Files, sources: seq<DocRecord>, i: nat)
    requires Sources(roots, files, sources) && CollisionFree(roots, files, sources) && i < |sources|
    ensures var status := SyncStatus(banner, roots, files, sources[i]);
            var t := Target(roots, sources[i]);
            && (t in Created(roots, files, sources) <==> status == Missing)
            && (t in Updated(banner, roots, files, sources) <==> status != Missing && Translate(files[t]) != Rendered(banner, files, sources[i]))
  {
    var t := Target(roots, sources[i]);
    PlannedMember(banner, roots, files, sources, i);
    PlannedOnly(banner, roots, files, sources, t);
    forall k | 0 <= k < |sources| && Target(roots, sources[k]) == t ensures k == i {
      assert !Collides(roots, files, sources, k) && !Collides(roots, files, sources, i);
    }
  }
}
