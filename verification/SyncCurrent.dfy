/** sync-current: keep the generated current trees equal to the canonical active sources. */
module SyncCurrent {
  import opened Wrappers
  import opened Ordering
  import opened Text
  import opened CurrentBanner

  /** A repository-relative path as its components; its text joins them with slashes. */
  type Path = seq<string>

  /** Stored texts; reading one translates its line ends. */
  type Files = map<Path, string>

  function PathText(p: Path): string {
    Join("/", p)
  }

  /** Path comparison: component by component. */
  predicate PathLe(a: Path, b: Path) {
    if a == [] then true
    else if b == [] then false
    else if a[0] != b[0] then StrLe(a[0], b[0])
    else PathLe(a[1..], b[1..])
  }

  datatype StageRoot = StageRoot(dir: Path, stage: string)

  const CURRENT := "current"

  /** The scanned directories, which are also the keys of the current taxonomy. */
  const STAGE_ROOTS := [
    StageRoot(["docs", "1_Vision"], "vision"),
    StageRoot(["docs", "2_Design"], "design"),
    StageRoot(["docs", "3_Plan"], "plan"),
    StageRoot(["docs", "4_Build"], "build"),
    StageRoot(["docs", "5_Test"], "test"),
    StageRoot(["docs", "6_Deploy"], "deploy"),
    StageRoot(["docs", "7_Monitor"], "operate"),
    StageRoot(["docs", "terminology"], "reference")]

  /** What the index knows of a document; category is the total function resolve_current_category. */
  datatype DocRecord = DocRecord(
    path: Path, valid: bool, canonical: bool, status: string, stage: string, docId: string, category: string)

  datatype Selection = Selection(stage: Option<string>, docId: Option<string>)

  predicate Under(p: Path, dir: Path) {
    |p| > |dir| && p[..|dir|] == dir
  }

  predicate IsMarkdown(p: Path) {
    p != [] && EndsWith(p[|p| - 1], ".md")
  }

  predicate InCurrentTree(p: Path) {
    CURRENT in p
  }

  predicate HasStageRoot(roots: seq<StageRoot>, p: Path) {
    exists i :: 0 <= i < |roots| && (p == roots[i].dir || Under(p, roots[i].dir))
  }

  /** Directory of the first stage root the path falls under. */
  function StageDir(roots: seq<StageRoot>, p: Path): Path
    requires HasStageRoot(roots, p)
  {
    if p == roots[0].dir || Under(p, roots[0].dir) then roots[0].dir else StageDir(roots[1..], p)
  }

  predicate Digit(c: char) {
    '0' <= c <= '9'
  }

  predicate DatePrefixed(name: string) {
    |name| >= 11 &&
    (forall i :: 0 <= i < 11 ==> if i in {4, 7, 10} then name[i] == '-' else Digit(name[i]))
  }

  function StableName(name: string): string {
    if DatePrefixed(name) then name[11..] else name
  }

  function Target(roots: seq<StageRoot>, r: DocRecord): Path
    requires HasStageRoot(roots, r.path) && r.path != []
  {
    StageDir(roots, r.path) + [CURRENT, r.category, StableName(r.path[|r.path| - 1])]
  }

  predicate Asked(wanted: Option<string>, actual: string) {
    wanted.None? || wanted.value == "" || wanted.value == actual
  }

  predicate Selected(roots: seq<StageRoot>, sel: Selection, r: DocRecord) {
    && r.valid && r.canonical && r.status == "active"
    && Asked(sel.stage, r.stage) && Asked(sel.docId, r.docId)
    && !InCurrentTree(r.path) && HasStageRoot(roots, r.path)
  }

  // ---------------------------------------------------------------- the index

  ghost function Flatten<T>(parts: seq<seq<T>>): seq<T> {
    if parts == [] then [] else Flatten(parts[..|parts| - 1]) + parts[|parts| - 1]
  }

  function DocsUnder(files: Files, dir: Path): set<Path> {
    set p | p in files && Under(p, dir) && IsMarkdown(p) && !InCurrentTree(p)
  }

  ghost function DocPaths(roots: seq<StageRoot>, files: Files): seq<Path> {
    Flatten(seq(|roots|, i requires 0 <= i < |roots| => InOrder(PathLe, DocsUnder(files, roots[i].dir))))
  }

  function ReadAll(read: (Path, string) -> DocRecord, files: Files, paths: seq<Path>): seq<DocRecord>
    requires forall i :: 0 <= i < |paths| ==> paths[i] in files
  {
    seq(|paths|, i requires 0 <= i < |paths| => read(paths[i], files[paths[i]]))
  }

  // ---------------------------------------------------------------- snapshot

  datatype Status = Missing | Stale | InSync | Collision
  datatype Entry = Entry(source: Path, target: Path, status: Status)

  function SyncStatus(banner: Template, roots: seq<StageRoot>, files: Files, r: DocRecord): Status
    requires r.path in files && HasStageRoot(roots, r.path) && r.path != []
  {
    var target := Target(roots, r);
    if target !in files then Missing
    else
      var parsed := ParseBanner(banner, Translate(files[target]));
      if parsed.source != Some(PathText(r.path)) || parsed.remainder != Translate(files[r.path]) then Stale else InSync
  }

  ghost predicate Sources(roots: seq<StageRoot>, files: Files, sources: seq<DocRecord>) {
    forall i :: 0 <= i < |sources| ==>
      && sources[i].path in files && HasStageRoot(roots, sources[i].path)
      && IsMarkdown(sources[i].path) && !InCurrentTree(sources[i].path)
  }

  ghost predicate Collides(roots: seq<StageRoot>, files: Files, sources: seq<DocRecord>, i: nat)
    requires Sources(roots, files, sources) && i < |sources|
  {
    exists j :: 0 <= j < i && Target(roots, sources[j]) == Target(roots, sources[i])
  }

  ghost function EntryFor(banner: Template, roots: seq<StageRoot>, files: Files, sources: seq<DocRecord>, i: nat): Entry
    requires Sources(roots, files, sources) && i < |sources|
  {
    Entry(sources[i].path, Target(roots, sources[i]),
          if Collides(roots, files, sources, i) then Collision
          else SyncStatus(banner, roots, files, sources[i]))
  }

  ghost function Entries(banner: Template, roots: seq<StageRoot>, files: Files, sources: seq<DocRecord>): seq<Entry>
    requires Sources(roots, files, sources)
  {
    seq(|sources|, i requires 0 <= i < |sources| => EntryFor(banner, roots, files, sources, i))
  }

  ghost predicate CollisionFree(roots: seq<StageRoot>, files: Files, sources: seq<DocRecord>)
    requires Sources(roots, files, sources)
  {
    forall i :: 0 <= i < |sources| ==> !Collides(roots, files, sources, i)
  }

  function Count(entries: seq<Entry>, s: Status): nat {
    if entries == [] then 0
    else Count(entries[..|entries| - 1], s) + if entries[|entries| - 1].status == s then 1 else 0
  }

  // ---------------------------------------------------------------- plan of a sync

  function Rendered(banner: Template, files: Files, r: DocRecord): string
    requires r.path in files
  {
    RenderCopy(banner, PathText(r.path), Translate(files[r.path]))
  }

  /** The target exists and is read back as the rendered copy. */
  predicate HoldsCopy(banner: Template, files: Files, t: Path, r: DocRecord)
    requires r.path in files
  {
    t in files && Translate(files[t]) == Rendered(banner, files, r)
  }

  ghost function Created(roots: seq<StageRoot>, files: Files, sources: seq<DocRecord>): seq<Path>
    requires Sources(roots, files, sources)
  {
    if sources == [] then []
    else
      var n := |sources| - 1;
      var t := Target(roots, sources[n]);
      Created(roots, files, sources[..n]) + if t !in files then [t] else []
  }

  ghost function Updated(banner: Template, roots: seq<StageRoot>, files: Files, sources: seq<DocRecord>): seq<Path>
    requires Sources(roots, files, sources)
  {
    if sources == [] then []
    else
      var n := |sources| - 1;
      var t := Target(roots, sources[n]);
      Updated(banner, roots, files, sources[..n]) +
      if t in files && !HoldsCopy(banner, files, t, sources[n]) then [t] else []
  }

  /** The files once every target holds the generated copy of its source; a target that is read back
      as its copy already is not written. */
  ghost function Written(banner: Template, roots: seq<StageRoot>, files: Files, sources: seq<DocRecord>): Files
    requires Sources(roots, files, sources)
  {
    if sources == [] then files
    else
      var n := |sources| - 1;
      var t, before := Target(roots, sources[n]), Written(banner, roots, files, sources[..n]);
      Put(before, t, HoldsCopy(banner, files, t, sources[n]), Rendered(banner, files, sources[n]))
  }

  function Put(files: Files, t: Path, held: bool, copy: string): Files {
    if held then files else files[t := copy]
  }

  ghost function Managed(roots: seq<StageRoot>, files: Files, sources: seq<DocRecord>): set<Path>
    requires Sources(roots, files, sources)
  {
    set i | 0 <= i < |sources| :: Target(roots, sources[i])
  }

  predicate PruneRoot(sel: Selection, root: StageRoot) {
    sel.stage.None? || sel.stage.value == root.stage
  }

  function CurrentFiles(files: Files, root: StageRoot): set<Path> {
    set p | p in files && Under(p, root.dir + [CURRENT]) && IsMarkdown(p)
  }

  ghost function PrunedUnder(files: Files, sel: Selection, root: StageRoot, managed: set<Path>): seq<Path> {
    if PruneRoot(sel, root) then Without(InOrder(PathLe, CurrentFiles(files, root)), managed) else []
  }

  ghost function Pruned(roots: seq<StageRoot>, files: Files, sel: Selection, managed: set<Path>): seq<Path> {
    Flatten(seq(|roots|, i requires 0 <= i < |roots| => PrunedUnder(files, sel, roots[i], managed)))
  }

  datatype Outcome =
    | Refused(entries: seq<Entry>)
    | Synced(created: seq<Path>, updated: seq<Path>, pruned: seq<Path>)

  /** The report of a sync, as planned from the files at its start. */
  ghost function Plan(banner: Template, roots: seq<StageRoot>, files: Files, sel: Selection, prune: bool, sources: seq<DocRecord>): Outcome
    requires Sources(roots, files, sources)
  {
    if !CollisionFree(roots, files, sources) then Refused(Entries(banner, roots, files, sources))
    else Synced(
      Created(roots, files, sources),
      Updated(banner, roots, files, sources),
      if prune then Pruned(roots, files, sel, Managed(roots, files, sources)) else [])
  }

  /** The files a real sync leaves. */
  ghost function FilesAfter(banner: Template, roots: seq<StageRoot>, files: Files, sel: Selection, prune: bool, sources: seq<DocRecord>): Files
    requires Sources(roots, files, sources)
  {
    var plan := Plan(banner, roots, files, sel, prune, sources);
    if plan.Refused? then files
    else Written(banner, roots, files, sources) - (set p | p in plan.pruned)
  }
}
