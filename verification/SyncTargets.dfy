/** Where sync-current puts the copy of a source, and when two sources want the same place. */
module SyncTargets {
  import opened Wrappers
  import opened Ordering
  import opened Text
  import opened CurrentBanner
  import opened SyncCurrent
  import opened SyncLaws

  predicate Numeral(s: string, n: nat) {
    |s| == n && forall i :: 0 <= i < |s| ==> '0' <= s[i] <= '9'
  }

  predicate Dated(name: string, year: string, month: string, day: string, rest: string) {
    Numeral(year, 4) && Numeral(month, 2) && Numeral(day, 2) && name == year + "-" + month + "-" + day + "-" + rest
  }

  /** The stem of a file name: what follows a date in front of it, and otherwise the name itself. */
  ghost predicate HasStem(name: string, stem: string) {
    || (exists year, month, day :: Dated(name, year, month, day, stem))
    || (stem == name && forall year, month, day, rest :: !Dated(name, year, month, day, rest))
  }

  /** The first listed stage root at or above the path. */
  predicate FirstRoot(roots: seq<StageRoot>, p: Path, i: nat) {
    i < |roots| && roots[i].dir <= p && forall j :: 0 <= j < i ==> !(roots[j].dir <= p)
  }

  lemma DateAndRest(year: string, month: string, day: string, rest: string)
    requires Numeral(year, 4) && Numeral(month, 2) && Numeral(day, 2)
    ensures var name := year + "-" + month + "-" + day + "-" + rest;
            && |name| >= 11 && name[11..] == rest
            && forall i :: 0 <= i < 11 ==> if i == 4 || i == 7 || i == 10 then name[i] == '-' else '0' <= name[i] <= '9'
  {
  }

  lemma DateInFront(name: string)
    requires |name| >= 11
    requires forall i :: 0 <= i < 11 ==> if i == 4 || i == 7 || i == 10 then name[i] == '-' else '0' <= name[i] <= '9'
    ensures Dated(name, name[..4], name[5..7], name[8..10], name[11..])
  {
    assert name[4] == '-' && name[7] == '-' && name[10] == '-';
    assert name == name[..4] + "-" + name[5..7] + "-" + name[8..10] + "-" + name[11..];
  }

  lemma StemIff(name: string, stem: string)
    ensures HasStem(name, stem) <==> StableName(name) == stem
  {
    forall year, month, day, rest | Dated(name, year, month, day, rest)
      ensures DatePrefixed(name) && name[11..] == rest
    {
      DateAndRest(year, month, day, rest);
    }
    if DatePrefixed(name) { DateInFront(name); }
  }

  lemma {:induction false} RootIff(roots: seq<StageRoot>, p: Path, i: nat)
    requires FirstRoot(roots, p, i)
    ensures HasStageRoot(roots, p) && StageDir(roots, p) == roots[i].dir
  {
    assert p == roots[i].dir || Under(p, roots[i].dir);
    if i > 0 {
      assert !(roots[0].dir <= p);
      assert roots[1..][i - 1] == roots[i];
      RootIff(roots[1..], p, i - 1);
    }
  }

  lemma SomeRoot(roots: seq<StageRoot>, p: Path) returns (i: nat)
    requires HasStageRoot(roots, p)
    ensures FirstRoot(roots, p, i)
  {
    i := 0;
    while !(roots[i].dir <= p)
      invariant i < |roots| && forall j :: 0 <= j < i ==> !(roots[j].dir <= p)
      invariant exists j :: i <= j < |roots| && (p == roots[j].dir || Under(p, roots[j].dir))
      decreases |roots| - i
    {
      i := i + 1;
    }
  }

  /** The target of a source: the current tree of its first stage root, its category, its stem. */
  lemma TargetOf(roots: seq<StageRoot>, r: DocRecord, folder: Path, name: string, stem: string, i: nat)
    requires r.path == folder + [name] && HasStem(name, stem) && FirstRoot(roots, r.path, i)
    ensures HasStageRoot(roots, r.path)
    ensures Target(roots, r) == roots[i].dir + ["current", r.category, stem]
  {
    StemIff(name, stem);
    RootIff(roots, r.path, i);
  }

  /** Every path of the scanned directories has such a place. */
  lemma EveryPathPlaced(roots: seq<StageRoot>, p: Path) returns (folder: Path, name: string, stem: string, i: nat)
    requires HasStageRoot(roots, p) && p != []
    ensures p == folder + [name] && HasStem(name, stem) && FirstRoot(roots, p, i)
  {
    folder, name := p[..|p| - 1], p[|p| - 1];
    stem := StableName(name);
    StemIff(name, stem);
    i := SomeRoot(roots, p);
  }

  /** Two sources want one target exactly when stage root, category and stem agree. */
  lemma TargetsMeetIff(roots: seq<StageRoot>, r: DocRecord, s: DocRecord, folder: Path, name: string, stem: string,
      folder': Path, name': string, stem': string, i: nat, j: nat)
    requires RootsFit(roots)
    requires r.path == folder + [name] && HasStem(name, stem) && FirstRoot(roots, r.path, i)
    requires s.path == folder' + [name'] && HasStem(name', stem') && FirstRoot(roots, s.path, j)
    ensures HasStageRoot(roots, r.path) && HasStageRoot(roots, s.path)
    ensures Target(roots, r) == Target(roots, s) <==> i == j && r.category == s.category && stem == stem'
  {
    TargetOf(roots, r, folder, name, stem, i);
    TargetOf(roots, s, folder', name', stem', j);
    SameTail(roots[i].dir, roots[j].dir, ["current", r.category, stem], ["current", s.category, stem']);
    if i < j { assert roots[i].dir != roots[j].dir; } else if j < i { assert roots[j].dir != roots[i].dir; }
  }

  lemma SameTail(dir: Path, dir': Path, tail: Path, tail': Path)
    requires |dir| == |dir'|
    ensures dir + tail == dir' + tail' <==> dir == dir' && tail == tail'
  {
    if dir + tail == dir' + tail' {
      assert dir == (dir + tail)[..|dir|] && tail == (dir + tail)[|dir|..];
    }
  }

  /** Two editions of one document, told apart by their dates alone, are never synced: with both
      among the sources the command refuses and changes nothing. */
  lemma EditionsRefused(banner: Template, roots: seq<StageRoot>, files: Files, sel: Selection, prune: bool, sources: seq<DocRecord>,
      i: nat, j: nat, root: nat, folder: Path, name: string, folder': Path, name': string, stem: string)
    requires Sources(roots, files, sources) && i < j < |sources|
    requires sources[i].path == folder + [name] && HasStem(name, stem) && FirstRoot(roots, sources[i].path, root)
    requires sources[j].path == folder' + [name'] && HasStem(name', stem) && FirstRoot(roots, sources[j].path, root)
    requires sources[i].category == sources[j].category
    ensures Plan(banner, roots, files, sel, prune, sources).Refused?
    ensures FilesAfter(banner, roots, files, sel, prune, sources) == files
  {
    TargetOf(roots, sources[i], folder, name, stem, root);
    TargetOf(roots, sources[j], folder', name', stem, root);
    assert Collides(roots, files, sources, j);
  }

  const BUILD_ROOTS: seq<StageRoot> := [StageRoot(["docs", "4_Build"], "build")]
  const LOOP := "component-realization-loop.md"
  const DATE := "2026-05-27-"

  lemma LoopIsDated()
    ensures HasStem(DATE + LOOP, LOOP)
  {
    assert Numeral("2026", 4) && Numeral("05", 2) && Numeral("27", 2);
    assert DATE == "2026" + "-" + "05" + "-" + "27" + "-";
    assert Dated(DATE + LOOP, "2026", "05", "27", LOOP);
  }

  /** A dated source of the build stage: its copy drops the date. */
  lemma DatedSource(r: DocRecord)
    requires r.path == ["docs", "4_Build"] + [DATE + LOOP] && r.category == "overview"
    ensures HasStageRoot(BUILD_ROOTS, r.path)
    ensures Target(BUILD_ROOTS, r) == ["docs", "4_Build"] + ["current", "overview", LOOP]
  {
    LoopIsDated();
    assert BUILD_ROOTS[0].dir == ["docs", "4_Build"];
    TargetOf(BUILD_ROOTS, r, ["docs", "4_Build"], DATE + LOOP, LOOP, 0);
  }

  // ---------------------------------------------------------------- status, order and pruning, told directly

  /** A target that holds a copy of some text under some path: in sync exactly when both are the
      source's own, stale otherwise. */
  lemma CopyStatusIff(banner: Template, roots: seq<StageRoot>, files: Files, r: DocRecord, path: string, text: string)
    requires CurrentBanner.Fits(banner) && r.path in files && HasStageRoot(roots, r.path) && r.path != []
    requires BannerSafe(banner, path)
    requires var t := Target(roots, r); t in files && files[t] == RenderCopy(banner, path, text)
    ensures SyncStatus(banner, roots, files, r) ==
            if path == PathText(r.path) && Translate(text) == Translate(files[r.path]) then InSync else Stale
  {
    CopyReadsBack(banner, path, text);
  }

  /** A target that is no copy at all is stale. */
  lemma ForeignFileIsStale(banner: Template, roots: seq<StageRoot>, files: Files, r: DocRecord)
    requires r.path in files && HasStageRoot(roots, r.path) && r.path != []
    requires var t := Target(roots, r);
             t in files && (!(banner.prefix <= Translate(files[t])) || !Contains(Translate(files[t]), banner.marker))
    ensures SyncStatus(banner, roots, files, r) == Stale
  {
    NoCopy(banner, Translate(files[Target(roots, r)]));
  }

  lemma SameFirst(x: string, p: Path, q: Path)
    ensures PathLe([x] + p, [x] + q) <==> PathLe(p, q)
  {
    assert ([x] + p)[1..] == p && ([x] + q)[1..] == q;
  }

  lemma {:induction false} SameFolder(folder: Path, p: Path, q: Path)
    ensures PathLe(folder + p, folder + q) <==> PathLe(p, q)
  {
    if folder == [] {
      assert folder + p == p && folder + q == q;
    } else {
      SameFolder(folder[1..], p, q);
      SameFirst(folder[0], folder[1..] + p, folder[1..] + q);
      HeadTail(folder, p);
      HeadTail(folder, q);
    }
  }

  /** Paths are listed by the first component in which they differ; a path precedes what lies below. */
  lemma PathsByName(folder: Path, a: string, b: string, rest: Path, rest': Path)
    requires a != b && StrLe(a, b)
    ensures PathLe(folder + ([a] + rest), folder + ([b] + rest'))
    ensures PathLe(folder, folder + rest)
  {
    SameFolder(folder, [a] + rest, [b] + rest');
    SameFolder(folder, [], rest);
    assert folder + [] == folder;
  }

  /** A Markdown file below the current tree of a directory. */
  predicate CurrentMarkdown(dir: Path, p: Path) {
    dir + ["current"] < p && |p[|p| - 1]| >= 3 && p[|p| - 1][|p[|p| - 1]| - 3..] == ".md"
  }

  lemma InTree(files: Files, sel: Selection, root: StageRoot, p: Path)
    ensures PruneRoot(sel, root) && p in CurrentFiles(files, root) <==>
            p in files && sel.stage in {None, Some(root.stage)} && CurrentMarkdown(root.dir, p)
  {
    assert Under(p, root.dir + [CURRENT]) <==> root.dir + ["current"] < p;
  }

  /** What a prune takes: the unmanaged Markdown files below the current tree of a stage root whose
      stage is the one asked for, if one is. */
  lemma PrunedIff(roots: seq<StageRoot>, files: Files, sel: Selection, managed: set<Path>, p: Path)
    ensures p in Pruned(roots, files, sel, managed) <==>
            && p in files && p !in managed
            && exists i :: 0 <= i < |roots| && sel.stage in {None, Some(roots[i].stage)} &&
                           CurrentMarkdown(roots[i].dir, p)
  {
    PrunedFacts(roots, files, sel, managed, p);
    forall i | 0 <= i < |roots|
      ensures PruneRoot(sel, roots[i]) && p in CurrentFiles(files, roots[i]) <==>
              p in files && sel.stage in {None, Some(roots[i].stage)} && CurrentMarkdown(roots[i].dir, p)
    {
      InTree(files, sel, roots[i], p);
    }
  }

  lemma SourcesSplit(roots: seq<StageRoot>, files: Files, front: seq<DocRecord>, back: seq<DocRecord>)
    requires Sources(roots, files, front + back)
    ensures Sources(roots, files, front) && Sources(roots, files, back)
  {
    forall i | 0 <= i < |front|
      ensures && front[i].path in files && HasStageRoot(roots, front[i].path)
              && IsMarkdown(front[i].path) && !InCurrentTree(front[i].path)
    {
      assert (front + back)[i] == front[i];
    }
    forall i | 0 <= i < |back|
      ensures && back[i].path in files && HasStageRoot(roots, back[i].path)
              && IsMarkdown(back[i].path) && !InCurrentTree(back[i].path)
    {
      assert (front + back)[|front| + i] == back[i];
    }
  }

  lemma LastBehind(front: seq<DocRecord>, back: seq<DocRecord>)
    requires back != []
    ensures var n := |back| - 1;
            (front + back)[..|front + back| - 1] == front + back[..n] && (front + back)[|front + back| - 1] == back[n]
  {
  }

  lemma {:induction false} CreatedInOrder(roots: seq<StageRoot>, files: Files, front: seq<DocRecord>, back: seq<DocRecord>)
    requires Sources(roots, files, front + back) && Sources(roots, files, front) && Sources(roots, files, back)
    ensures Created(roots, files, front + back) == Created(roots, files, front) + Created(roots, files, back)
    decreases |back|
  {
    if back == [] {
      assert front + back == front;
    } else {
      LastBehind(front, back);
      SourcesSplit(roots, files, front + back[..|back| - 1], [back[|back| - 1]]);
      CreatedInOrder(roots, files, front, back[..|back| - 1]);
    }
  }

  lemma {:induction false} UpdatedInOrder(banner: Template, roots: seq<StageRoot>, files: Files, front: seq<DocRecord>, back: seq<DocRecord>)
    requires Sources(roots, files, front + back) && Sources(roots, files, front) && Sources(roots, files, back)
    ensures Updated(banner, roots, files, front + back) == Updated(banner, roots, files, front) + Updated(banner, roots, files, back)
    decreases |back|
  {
    if back == [] {
      assert front + back == front;
    } else {
      LastBehind(front, back);
      SourcesSplit(roots, files, front + back[..|back| - 1], [back[|back| - 1]]);
      UpdatedInOrder(banner, roots, files, front, back[..|back| - 1]);
    }
  }

  /** Creates and updates are reported in the order of the sources, each from its own. */
  lemma ReportFollowsSources(banner: Template, roots: seq<StageRoot>, files: Files, front: seq<DocRecord>, back: seq<DocRecord>)
    requires Sources(roots, files, front + back)
    ensures Sources(roots, files, front) && Sources(roots, files, back)
    ensures Created(roots, files, front + back) == Created(roots, files, front) + Created(roots, files, back)
    ensures Updated(banner, roots, files, front + back) == Updated(banner, roots, files, front) + Updated(banner, roots, files, back)
    ensures |back| == 1 ==> Created(roots, files, back) == if Target(roots, back[0]) in files then [] else [Target(roots, back[0])]
  {
    SourcesSplit(roots, files, front, back);
    CreatedInOrder(roots, files, front, back);
    UpdatedInOrder(banner, roots, files, front, back);
  }

  /** A path as text: its components with slashes between them. */
  lemma {:induction false} PathAsText(folder: Path, name: string)
    ensures PathText([name]) == name
    ensures folder != [] ==> PathText(folder + [name]) == PathText(folder) + "/" + name
  {
    if |folder| == 1 {
      assert (folder + [name])[1..] == [name];
    } else if folder != [] {
      PathAsText(folder[1..], name);
      assert (folder + [name])[1..] == folder[1..] + [name];
      JoinedBehind(folder[0], PathText(folder[1..]), name);
    }
  }

  lemma JoinedBehind(first: string, rest: string, name: string)
    ensures first + "/" + (rest + "/" + name) == first + "/" + rest + "/" + name
  {
  }
}
