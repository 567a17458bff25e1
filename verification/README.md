# Verified model of the delivery authority core

This project models the parts of the repository that decide things, and proves what they keep:

- **Delivery scheduler** (`Delivery*.dfy`, `PlanProgress.dfy`, `ProgressLaws.dfy`): the five activity sets of the
  delivery projection over a dependency graph, the runs that complete members of the next set, and the progress service
  beside it.
- **Governed documents** (`DocHeader*.dfy`, `SetHeaderLaws.dfy`, `DocBodyLaws.dfy`, `CurrentBanner.dfy`, `Sync*.dfy`,
  `HeaderReader.dfy`): the header parser, printer and rewrite command, the generated-copy banner, and `sync-current` as a
  program over a map from path to text.
- **Coder-brief lifecycle** (`Brief*.dfy`): assemble, author targets, review and prepare packet on one brief row, its
  realization targets and its event log.
- **Component-spec pipeline** (`Spec*.dfy`, `MaterializedDelivery.dfy`): Markdown tables to seed, seed to store, store to
  checker, and on to the scheduler.
- **Manifest edits and text codecs** (`PilotOverlay.dfy`, `AuthorityAdvance.dfy`, `DbText.dfy`).

`Wrappers.dfy`, `Ordering.dfy` and `Text.dfy` hold optional values, sorting and string handling shared by all;
`PlanModel.dfy` and `SpecModel.dfy` hold the store's entities. Code that updates state is modelled by classes whose
methods are proved against specification functions; the laws are lemmas about those functions. SQL views and queries are
sets and maps.

## Where the code does less than one might expect

Each of these is proved twice: at an input, and as the exact condition under which the expected property does hold.

- **Skipped predecessors.** Completed predecessors count in whichever plan they are. No run of next-set completions gets
  past one that is skipped, superseded or otherwise neither completed nor waiting in the plan
  (`DeliveryConfluence.SkippedBlocksForGood`, `StuckPredecessor`); what such runs can complete is exactly the
  completable set (`CompletedBySomeRunIff`, `ExhaustedRun`). An operator can still complete an activity under way
  directly, which is no such run.
- **Reconcile withdraws the plan.** Reconciling progress writes an authority state that the projection does not accept,
  so a reconcile before the last completion leaves the plan unfinished (`PlanProgress.ReconcileStops`,
  `FinishesIffNoEarlyReconcile`). The completion command reconciles each time unless told not to, and so finishes only
  plans with at most one incomplete activity (`DefaultFinishesIff`).
- **Unverified completions.** The projection offers successors of a completion that lacks a required verification; the
  progress service does not (`PlanProgress.UnverifiedParts`, `FirstRankIsNextIff`).
- **Banner paths.** The marker that ends the banner can be completed by the ` -->` behind the source path, so it is not
  enough that the path lacks the marker (`CurrentBanner.MarkerFreePathCanBeUnsafe`, `BannerRoundTrip`). Sources with
  such a path stay stale after a sync (`SyncLaws.Converges`). A carriage return in the path is written as it is and read
  as a newline, so that source stays stale too and every sync rewrites its copy (`CurrentBanner.ReturnInPath`,
  `SyncLaws.SecondSyncIdleIff`).
- **Header values.** A carriage return in a value given to `set-header` cuts its header line in two when the file is
  read: the record is lost or changed (`DocHeaderLaws.ReturnInTitle`, `HeaderReadsBackIff`, `RecordReadsBackIff`).
- **Header kinds.** `set-header` finds a recorded value by normalised key but the list and boolean treatment by exact
  spelling, so a miscased list field is stored as text and changes kind when rewritten
  (`DocHeaderLaws.MiscasedListChangesKind`, `RewriteKeepsRecord`).
- **Bodies.** A rewrite drops a trailing newline of the body each time, turns other line boundaries into newlines, and
  takes header text into the body when header values contain such boundaries (`DocBodyLaws.FinalNewlineIsLost`,
  `HeaderValueLeaks`, `BodyAfterRewrite`).
- **Overlay issue numbers.** Install files the entry under the command's issue number and the task under the fixture's;
  entries stay backed by tasks exactly when the two agree (`PilotOverlay.MislabelledFixture`, `InstallCoherentIff`).
- **Overlay leftovers.** Remove does not take artifact names off the included list (`PilotOverlay.NamesStayIncluded`,
  `InstallRemoveRestoresAllIff`).
- **Version order.** A bump on a day before the version's own date goes backwards (`AuthorityAdvance.BumpCanGoBack`,
  `BumpIncreasesIff`).
- **Renamed plans.** The materializer clears the plan of the seed's name, but the upsert overwrites the row of the
  seed's package and context. If that row had another name it keeps its old activities; a second run clears them
  (`SpecStoreLaws.RenameLeavesGap`, `CleanAfterIff`, `SecondRunHealsIff`).
- **Dependency pairs.** The checker compares texts `a->b`, so a clean report can stand for other dependencies than the
  spec's when keys contain `->` (`SpecDependencies.ArrowKeysMislead`, `CleanMeansDependenciesIff`).

## Assumptions

- Every lifecycle command is atomic and acts on one brief; derivation readiness, schema validation, packet inputs and
  the clock are inputs of a step. A nullable timestamp starts as NULL.
- Upserts follow the conflict keys of the migrations; rows are named by their unique keys. The four element types used
  by the materializer are registered; registered realization types are a parameter.
- The database collation is code-point order, as in Python's string order. Reading a text file turns every carriage
  return, alone or before a newline, into a newline; writing leaves them as they are.
- Lower-casing and digit tests cover ASCII. White space and line boundaries are those of `str.isspace` and
  `str.splitlines`, as listed in `Text.dfy`.
- The category of a document (`resolve_current_category`), the slug of a component name and `int()` of a sequence cell
  are given functions. Whether a header validates is given to the index reader (`HeaderReader.Verdicts`).

## Model

| member | source | states |
|---|---|---|
| `DeliveryScheduler.CanFinishIff` | scripts/runtime/materialize_project_delivery_projection_surface.py:166-178 | Some run of next-set completions finishes a plan if and only if the plan is finishable: nothing is left, or the plan is execution-ready, all that is left is planned or ready, it waits only for completed activities or for each other, and it has no dependency cycle. |
| `DeliveryScheduler.NoDeadlock` | scripts/runtime/materialize_project_delivery_projection_surface.py:35-49 | In a finishable plan the next set is empty exactly when nothing is incomplete (the finite-DAG argument). |
| `DeliveryScheduler.EveryRunFinishes` | scripts/runtime/materialize_project_delivery_projection_surface.py:166-178 | From a finishable plan every run, whatever it picks, can go on until it has taken exactly as many steps as there were incomplete activities. |
| `DeliveryScheduler.FinishableStep` | scripts/runtime/materialize_project_delivery_projection_surface.py:166-178 | Completing any next activity neither makes nor breaks finishability. |
| `DeliveryScheduler.RunIsLinearExtension` | scripts/runtime/materialize_project_delivery_projection_surface.py:66-69 | In any run each predecessor of a completed activity was completed at the start or earlier; no activity is completed twice. |
| `DeliveryScheduler.RunInvariants` | scripts/runtime/materialize_project_delivery_projection_surface.py:138-146 | Over any run the completed set grows by exactly the run, closure under predecessors is kept, and the blocked set only shrinks. |
| `DeliveryScheduler.Classification` | scripts/runtime/materialize_project_delivery_projection_surface.py:89-200 | The current, completed, blocked and next sets are disjoint, unblocked waiting activities are exactly the eligible ones of a ready plan, the fallback blocking reason is never reported, and next is empty only if nothing is eligible or the plan is not ready. |
| `DeliveryScheduler.NextIsEarliest` | scripts/runtime/materialize_project_delivery_projection_surface.py:166-178 | A next activity precedes or ties with every unblocked waiting one, and those that tie with it are next too. |
| `DeliveryPlacement.SetsFromRows` | scripts/runtime/materialize_project_delivery_projection_surface.py:74-200 | Told from stored state, plan authority and predecessor rows: active activities are current, completed ones completed, blocked ones and unstartable planned or ready ones blocked, startable ones of the least sequence next, and open is all but completed, skipped and superseded. |
| `DeliveryPlacement.PlacedOnce` | scripts/runtime/materialize_project_delivery_projection_surface.py:74-200 | Every activity of a plan is in exactly one of current, completed, blocked, next, startable but later, or in a state no filter tests for (skipped, superseded, in progress, deferred, cancelled). |
| `DeliveryPlacement.ReasonFromRows` | scripts/runtime/materialize_project_delivery_projection_surface.py:127-134 | The blocking reason: the plan's authority first, then the blocked state, then an incomplete predecessor. |
| `DeliveryPlacement.RunChangesStates` | packages/paa-core/src/paa_core/application/operator_command_adapters.py:251-258 | A run sets its activities to completed and changes no other cell. |
| `DeliveryConfluence.CompletedBySomeRunIff` | scripts/runtime/materialize_project_delivery_projection_surface.py:166-178 | An activity is completed by some run exactly when the plan is execution-ready and the activity is completable: in the least set of waiting activities whose predecessors are completed, in whichever plan, or in the set. |
| `DeliveryConfluence.ExhaustedRun` | scripts/runtime/materialize_project_delivery_projection_surface.py:166-178 | Confluence: every run that cannot go on has completed exactly the completable activities, whatever it chose. |
| `DeliveryConfluence.FinishableIff` | scripts/runtime/materialize_project_delivery_projection_surface.py:166-178 | A plan is finishable exactly when nothing is incomplete, or it is execution-ready and every incomplete activity is completable. |
| `DeliveryConfluence.StuckPredecessor` | scripts/runtime/materialize_project_delivery_projection_surface.py:35-49 | No run of next-set completions completes a successor of an activity that is neither completed nor waiting in the plan. |
| `DeliveryConfluence.ForeignPredecessorsCount` | scripts/runtime/materialize_project_delivery_projection_surface.py:138-146 | A waiting activity of a ready plan is blocked exactly when some predecessor, of any plan, is not completed. |
| `DeliveryConfluence.SkippedBlocksForGood` | scripts/runtime/materialize_project_delivery_projection_surface.py:35-49 | An approved acyclic plan that no run finishes, because one activity was skipped. |
| `PlanProgress.NextAgrees` | packages/paa-core/src/paa_core/services/implementation_plan_progress/default.py:300-329 | With an execution-ready plan, nothing under way, every completion verified and no predecessor in another plan, the service's next activity is none, one or ambiguous as the projection's next set has no, one or several members. |
| `PlanProgress.FirstRankIsNextIff` | packages/paa-core/src/paa_core/services/implementation_plan_progress/default.py:282-329 | The service's earliest executable activities are the projection's next set if and only if every predecessor of a next activity is a verified completion of the same plan, every executable activity under way comes after some next one, and nothing is executable when the plan is not execution-ready. |
| `PlanProgress.UnverifiedParts` | packages/paa-core/src/paa_core/services/implementation_plan_progress/default.py:282-329 | An approved plan whose one completion lacks its required verification: the projection offers the successor as next, the service has nothing to execute. |
| `ProgressLaws.ClassFromRows` | packages/paa-core/src/paa_core/services/implementation_plan_progress/default.py:282-298 | The four classes, told from stored state and missing verification. |
| `ProgressLaws.ExecutableFromRows` | packages/paa-core/src/paa_core/services/implementation_plan_progress/default.py:300-322 | Executable activities are the remaining ones whose every predecessor is a verified completion of the same plan. |
| `ProgressLaws.SummaryFromCounts` | packages/paa-core/src/paa_core/services/implementation_plan_progress/default.py:331-374 | Which of the six authority states is summarised, by the counts of the classes alone; the classes count every activity once. |
| `ProgressLaws.SubstantialIff` | packages/paa-core/src/paa_core/services/implementation_plan_progress/default.py:331-355 | Among partly realized plans those completed to three quarters count as substantial. |
| `ProgressLaws.ReconcileWrites` | packages/paa-core/src/paa_core/producer/implementation_plan_progress.py:48-65 | A reconcile stores that summary and changes nothing else. |
| `PlanProgress.FinishesIffNoEarlyReconcile` | packages/paa-core/src/paa_core/producer/implementation_plan_progress.py:48-65 | A finishable plan is finished by a schedule of worker turns and reconciles exactly when as many turns come before the first reconcile as activities were incomplete. |
| `PlanProgress.DefaultFinishesIff` | packages/paa-core/src/paa_core/application/operator_command_adapters.py:251-278 | When every completion is followed by a reconcile at once, as the command does by default, some schedule finishes a finishable plan exactly when at most one activity was incomplete. |
| `PlanProgress.ReconcileEndsCompletions` | packages/paa-core/src/paa_core/producer/implementation_plan_progress.py:48-65 | No completion ever follows a reconcile. |
| `PlanProgress.SummaryNeverReady` | packages/paa-core/src/paa_core/services/implementation_plan_progress/default.py:357-374 | No summarised authority state is execution-ready to the projection. |
| `PlanProgress.ReconcileStops` | packages/paa-core/src/paa_core/producer/implementation_plan_progress.py:48-65 | One planned activity: a turn finishes the plan, a turn behind a reconcile finds nothing. |
| `DeliveryScheduler.CountsMeetIff` | scripts/runtime/materialize_project_delivery_projection_surface.py:35-49 | Equal predecessor counts mean that every predecessor is completed. |
| `DocHeader.ParseHeader` | scripts/docs/paa_docs.py:280-325 | The pass over header lines with a set of seen keys computes the record of the declarative parser, including refusal of a malformed header. |
| `DocHeader.SetHeader` | scripts/docs/paa_docs.py:1233-1258 | The rewrite command writes the text of the specification function: kept values, explicit values, kept body or its default. |
| `DocHeaderLaws.ParseOfRendered` | scripts/docs/paa_docs.py:267-347 | Parsing a rendered header as it is read back, before any body, gives exactly the governed fields with every one-line value (no newline, no carriage return) stripped and normalised. |
| `DocHeaderLaws.HeaderReadsBackIff` | scripts/docs/paa_docs.py:267-285 | The header of a rendered document reads back line by line exactly when every value is free of newlines and carriage returns. |
| `DocHeaderLaws.RecordReadsBackIff` | scripts/docs/paa_docs.py:267-347 | Among values whose line ends are not merely at the edges, the record of a rendered document holds what was written exactly when no value has a newline or carriage return. |
| `DocHeaderLaws.ReturnInTitle` | scripts/docs/paa_docs.py:267-347 | A title with a carriage return: the stored header is malformed when read and the document has no record. |
| `DocHeaderLaws.Reparse` | scripts/docs/paa_docs.py:330-347 | Writing a parsed value out and normalising it again gives it back exactly when its kind is the field's (comma lists included). |
| `DocHeaderLaws.RecordIsParsed` | scripts/docs/paa_docs.py:280-347 | Every value any document parses to is trimmed one-line text, a flag, or clean list items. |
| `DocHeaderLaws.RecordAfterRewrite` | scripts/docs/paa_docs.py:1233-1258 | After any set-header with one-line values the record holds the governed fields and nothing else, each with the value the rewrite chose. |
| `SetHeaderLaws.FieldsAfterRewrite` | scripts/docs/paa_docs.py:1233-1256 | After any set-header, with any explicit options and over any document: a field given explicitly or not recorded before holds the given value, read back; any other keeps its recorded value, exactly when that is of the field's kind. |
| `SetHeaderLaws.FileAfterRewrite` | scripts/docs/paa_docs.py:1233-1258 | The file set-header leaves, line by line: governed fields in order, each with the value given or the recorded one spelled out, a blank line, and the old body, else the body given, else the title as a heading. |
| `SetHeaderLaws.RecordFromLines` | scripts/docs/paa_docs.py:280-325 | For every document: the record exists exactly when the header, up to the first blank or 40th line, begins with a governed key and has a colon in every line; of lines with one key the first counts, of spellings of one entry the last. |
| `SetHeaderLaws.LineRead` | scripts/docs/paa_docs.py:304-315 | A header line is cut at its first colon, key and value trimmed. |
| `SetHeaderLaws.SpellingsMeetIff` | scripts/docs/paa_docs.py:334-347 | Two key spellings name one entry exactly when they agree up to case and hyphen for underscore. |
| `SetHeaderLaws.EntryName` | scripts/docs/paa_docs.py:334-347 | The entry's name is the spelling without capitals and hyphens. |
| `SetHeaderLaws.ValueRead` | scripts/docs/paa_docs.py:334-347 | The flag is the word true in any case; plain values stay as they are. |
| `SetHeaderLaws.ListRead` | scripts/docs/paa_docs.py:330-331 | A list holds the trimmed non-blank parts between commas, in order. |
| `SetHeaderLaws.HeaderlessBody` | scripts/docs/paa_docs.py:917-926 | A document that does not begin with a governed key is body from its first character on. |
| `DocHeaderLaws.RewriteKeepsRecord` | scripts/docs/paa_docs.py:1240-1256 | Without explicit options a governed field of the record survives exactly when the record holds the field's own kind of value. |
| `DocHeaderLaws.RewriteReachesFixpoint` | scripts/docs/paa_docs.py:1233-1258 | A second set-header without explicit options parses to the identical record, from any document and any first rewrite with one-line values. |
| `DocHeaderLaws.MiscasedListChangesKind` | scripts/docs/paa_docs.py:1240-1256 | A document that spells Keywords in lower case: set-header without options turns its text into a list. |
| `DocBodyLaws.BodyAfterRewrite` | scripts/docs/paa_docs.py:917-926 | For every header and every body: re-reading gives the header rows that leak followed by the body's rows; if nothing leaks a newline-only body loses its leading newlines and at most one trailing one; the body is unchanged exactly when nothing leaks and it has no other line boundary and neither starts nor ends with a newline. |
| `DocBodyLaws.BodyBehindHeader` | scripts/docs/paa_docs.py:917-926 | The reader skips as many splitlines rows as the header has file lines (a carriage return ends one), so every further row of the header becomes body. |
| `Text.ReadLinesAreStoredLines` | scripts/docs/paa_docs.py:267-277 | The lines of a stored text are those of the text as read, for readline and for splitlines. |
| `DocBodyLaws.LeakedCount` | scripts/docs/paa_docs.py:917-926 | One-line values leak exactly one row for each other line boundary in them. |
| `DocBodyLaws.OneExtraRowIsHarmless` | scripts/docs/paa_docs.py:917-926 | One extra row in the header lines leaks only the blank line; text can leak from the second extra row on. |
| `DocBodyLaws.RewriteErodesBody` | scripts/docs/paa_docs.py:1257-1258 | For any values given: a further set-header drops one trailing newline of a kept body if nothing leaks from the rewritten header; otherwise the body grows by two characters or more. |
| `DocBodyLaws.BreakFreeValuesDoNotLeak` | scripts/docs/paa_docs.py:912-926 | Values without line boundaries never leak. |
| `DocBodyLaws.HeaderValueLeaks` | scripts/docs/paa_docs.py:917-926 | A title with two vertical tabs: its last part and the blank line come back in front of the body. |
| `DocBodyLaws.FinalNewlineIsLost` | scripts/docs/paa_docs.py:917-926 | Behind a header that leaks nothing, a body that ends in a newline comes back without it. |
| `DocHeaderLaws.GovernedSchemaFits` | scripts/docs/paa_docs.py:83-108 | The governed field order has distinct normalised keys and fits the header line limit, so the laws apply to it. |
| `CurrentBanner.BannerRoundTrip` | scripts/docs/paa_docs.py:513-535 | Reading and parsing the stored copy returns the path and the text as read for every text, if and only if the path is non-empty, trimmed, free of newlines and carriage returns and, followed by the comment close, free of the marker. |
| `CurrentBanner.CopyReadsBack` | scripts/docs/paa_docs.py:513-535 | The same for one given text and a non-empty path. |
| `CurrentBanner.ReturnInPath` | scripts/docs/paa_docs.py:513-535 | A file name with a carriage return: no stored copy of it is read back as its own. |
| `CurrentBanner.MarkerFreePathCanBeUnsafe` | scripts/docs/paa_docs.py:523-526 | A path without the marker in it can still be unsafe: the comment close completes the marker. |
| `CurrentBanner.CurrentBannerFits` | scripts/docs/paa_docs.py:26-32 | The tool's own banner meets what the parser relies on. |
| `CurrentBanner.NoCopy` | scripts/docs/paa_docs.py:520-526 | A text that does not begin with the banner, or lacks the marker, has no source and is its own remainder. |
| `CurrentBanner.RemainderRead` | scripts/docs/paa_docs.py:527-532 | Behind the first marker at most two newlines are dropped. |
| `CurrentBanner.SourceOfLines` | scripts/docs/paa_docs.py:533-535 | The source is the trimmed path of the first line that is a source comment. |
| `SyncTool.DocTree.SyncCurrent` | scripts/docs/paa_docs.py:1133-1185 | The command reports the plan computed from the files at its start, in a dry run and in a real run alike; a dry run and a collision change nothing, a real run leaves exactly the planned files. Files are read with carriage returns translated and written as they are. |
| `SyncTool.DocTree.Snapshot` | scripts/docs/paa_docs.py:577-627 | The one-pass snapshot computes each record's status and the collision, missing and stale counts; no collision is counted exactly when targets are distinct. |
| `SyncTool.DocTree.WriteCopies` | scripts/docs/paa_docs.py:1149-1161 | Creates and updates are exactly the planned ones and each target receives its own source's copy. |
| `SyncTool.DocTree.Prune` | scripts/docs/paa_docs.py:1163-1176 | Deletes exactly the unmanaged Markdown files of the selected current trees, in order, or none in a dry run. |
| `SyncTool.PrunedSame` | scripts/docs/paa_docs.py:1163-1176 | Listing before or after the writes prunes the same paths, so a dry run predicts the real one. |
| `SyncLaws.Converges` | scripts/docs/paa_docs.py:577-627 | After a collision-free real sync the same selection sees the same sources, none missing, and each in sync exactly when its path is safe for the banner. |
| `SyncLaws.SecondSync` | scripts/docs/paa_docs.py:1149-1176 | A second sync creates and prunes nothing and leaves every file as it is; it reports as updated exactly the targets of sources whose path holds a carriage return. |
| `SyncLaws.SecondSyncIdleIff` | scripts/docs/paa_docs.py:1149-1176 | A second sync reports nothing at all exactly when no source path holds a carriage return. |
| `SyncLaws.SyncLeavesSources` | scripts/docs/paa_docs.py:383-391 | No sync touches a document outside the current trees. |
| `SyncLaws.SourcesUnaffected` | scripts/docs/paa_docs.py:394-415 | What the current trees hold has no influence on the selected sources. |
| `SyncLaws.WrittenTarget` | scripts/docs/paa_docs.py:1149-1161 | With distinct targets each target ends up holding its own source's copy. |
| `SyncLaws.TargetFacts` | scripts/docs/paa_docs.py:499-510 | Every target is a Markdown file of a current tree, so it is never a source. |
| `SyncTargets.TargetOf` | scripts/docs/paa_docs.py:499-510 | A source's target: the current tree of the first listed stage root above it, its category, and its file name without a date in front. |
| `SyncTargets.EveryPathPlaced` | scripts/docs/paa_docs.py:499-510 | Every path of the scanned directories has such a root and stem. |
| `SyncTargets.TargetsMeetIff` | scripts/docs/paa_docs.py:499-510 | Two sources want one target exactly when stage root, category and name behind the date agree. |
| `SyncTargets.EditionsRefused` | scripts/docs/paa_docs.py:1133-1148 | Two selected editions of one document that differ only in the date make the sync refuse and change nothing. |
| `SyncTargets.DatedSource` | scripts/docs/paa_docs.py:499-510 | The dated component-realization-loop document of the build stage is copied under its undated name. |
| `SyncTargets.CopyStatusIff` | scripts/docs/paa_docs.py:538-554 | A target holding a copy of any text under any safe path is in sync exactly when both are the source's own, and stale otherwise. |
| `SyncTargets.ForeignFileIsStale` | scripts/docs/paa_docs.py:538-554 | A target that is no copy at all is stale. |
| `SyncTargets.PrunedIff` | scripts/docs/paa_docs.py:1163-1176 | A prune takes exactly the unmanaged Markdown files below the current trees of the stage asked for, or of every stage. |
| `SyncTargets.PathsByName` | scripts/docs/paa_docs.py:383-391 | Listed paths are ordered by the first component in which they differ, a directory before what it holds. |
| `SyncTargets.ReportFollowsSources` | scripts/docs/paa_docs.py:1149-1161 | Creates and updates are reported in the order of the sources, each from its own. |
| `SyncTargets.PathAsText` | scripts/docs/paa_docs.py:201-206 | A path in a banner is its components with slashes between them. |
| `SyncLaws.StageRootsFit` | scripts/docs/paa_docs.py:15-25 | The scanned directories are distinct two-component paths outside the current trees, as the sync laws assume. |
| `SyncLaws.PruneIsExact` | scripts/docs/paa_docs.py:1163-1176 | After an unfiltered prune the Markdown files of the current trees are exactly the managed paths. |
| `SyncLaws.PlannedIff` | scripts/docs/paa_docs.py:538-554 | Without collisions, for every path: a record is a planned create exactly when it is missing, and a planned update exactly when its target exists and is not read back as the rendered copy. |
| `SyncLaws.SnapshotPredictsPlan` | scripts/docs/paa_docs.py:538-554 | A missing record is a planned create; a stale one whose path the banner can carry is a planned update, whatever its text. |
| `HeaderReader.RenderedIsSelectedIff` | scripts/docs/paa_docs.py:394-415 | A document with a rendered header is a sync source exactly when it validates, its Canonical value reads true, its Status is active, its stage and id are those asked for, and it lies under a stage root outside the current trees. |
| `HeaderReader.HeaderlessIsNoSource` | scripts/docs/paa_docs.py:280-325 | A document without a readable header is no valid record and never a source. |
| `HeaderReader.ConvergesOverHeaders` | scripts/docs/paa_docs.py:577-627 | Convergence with records read from the documents' own headers, the tool's banner and the scanned directories; only the validation verdict and the category are given. |
| `BriefLifecycle.BriefStore.AssembleCoderBrief` | packages/paa-core/src/paa_core/producer/coder_brief_assembler.py:617-660 | The command has the effect of its step on row, log and targets; it refuses a brief past draft. A consistent brief stays consistent. |
| `BriefLifecycle.BriefStore.AuthorBriefTargets` | packages/paa-core/src/paa_core/producer/brief_target_author.py:262-300 | The command has the effect of its step: assemble, then add the blueprint targets of one owner. A consistent brief stays consistent. |
| `BriefTargets.UpsertTargets` | packages/paa-core/src/paa_core/producer/brief_target_author.py:342-380 | The upsert loop adds exactly the five rows of the owner to those of the owners before. |
| `BriefTargets.CountIsRows` | packages/paa-core/src/paa_core/producer/brief_target_author.py:81-243 | The target rows of a set of owners are five for each of them, shared by none. |
| `BriefLifecycle.BriefStore.ReviewCoderBrief` | packages/paa-core/src/paa_core/producer/brief_reviewer.py:294-365 | The command has the effect of its step, including the no-op on a decision already in force. A consistent brief stays consistent. |
| `BriefLifecycle.BriefStore.PrepareArchitectPacket` | packages/paa-core/src/paa_core/producer/architect_packet_preparer.py:485-570 | The command has the effect of its step: packet-ready transition, or metadata refresh. A consistent brief stays consistent. |
| `BriefEffects.AssembleEffect` | packages/paa-core/src/paa_core/producer/coder_brief_assembler.py:617-665 | Assembling succeeds exactly when the package is ready and the brief absent or a draft; stored, it leaves a draft row with its timestamps kept, the targets unchanged and the derivation logged; otherwise nothing changes. |
| `BriefEffects.TrialsLeaveNoTrace` | packages/paa-core/src/paa_core/producer/coder_brief_assembler.py:655-662 | Leaving out the assemblies that are not stored, a run reaches the same state. |
| `BriefEffects.DerivedOnce` | packages/paa-core/src/paa_core/producer/coder_brief_assembler.py:579-612 | A stored assembly leaves exactly one derivation in the log. |
| `BriefEffects.AuthorEffect` | packages/paa-core/src/paa_core/producer/brief_target_author.py:262-300 | Authoring adds the owner's targets to a stored assembly; without the owner's surfaces the assembly stays; without readiness, storing or a bound plan nothing happens. |
| `BriefEffects.DecisionEffect` | packages/paa-core/src/paa_core/producer/brief_reviewer.py:232-365 | An allowed decision changes authority state, status and approval time only and logs itself with the target count; any other changes nothing. |
| `BriefEffects.ReviewByPackage` | packages/paa-core/src/paa_core/producer/brief_reviewer.py:94-106 | A review by package is an assembly followed by the review, unless the assembly fails. |
| `BriefEffects.PacketEffect` | packages/paa-core/src/paa_core/producer/architect_packet_preparer.py:485-570 | An approved brief whose inputs are present becomes packet-ready, persisted or not, keeping its approval time; a packet-ready one is only reported again. |
| `BriefLifecycle.ReachableIsConsistent` | packages/paa-core/src/paa_core/producer/brief_reviewer.py:232-291 | In every reachable state the log replays from one derivation to the row's authority state; status is the image of that state; readiness is execution-ready exactly when packet-ready; approval time is null in draft and set when approved; targets have grown since the last event only in draft; an approved or packet-ready brief has the positive target count recorded at its last approval. |
| `BriefLifecycle.LegalLogsAreReachable` | packages/paa-core/src/paa_core/producer/brief_reviewer.py:16-32 | A log is the log of some run if and only if it is legal: every event starts where the last one ended, makes an allowed move and records a target count its predecessors allow, always a multiple of five. |
| `BriefLifecycle.CountsAlongLog` | packages/paa-core/src/paa_core/producer/brief_reviewer.py:232-249 | Recorded target counts are multiples of five and never fall along a legal log, and the packet-ready mark counts what the last approval counted. |
| `BriefLifecycle.ApprovalsAreSeparated` | packages/paa-core/src/paa_core/producer/brief_reviewer.py:22-26 | Two approvals are always separated by a rejection and after it a reopening. |
| `BriefLifecycle.RunTotals` | packages/paa-core/src/paa_core/producer/architect_packet_preparer.py:419-458 | Over any run: one derivation and it is first, at most one packet-ready mark and it is last, approvals at most reopenings plus one, rejections and reopenings within one. |
| `BriefLifecycle.TransitionsApplyIff` | packages/paa-core/src/paa_core/producer/brief_reviewer.py:159-193 | In a reachable state a decision applies exactly from the states it is allowed from, an approval only with targets; a packet is prepared exactly from an approved brief whose inputs are present. Readiness never blocks a draft. |
| `BriefLifecycle.PacketReadyIsAbsorbing` | packages/paa-core/src/paa_core/producer/brief_reviewer.py:22-26 | No command changes a packet-ready brief. |
| `BriefLifecycle.TargetsGrowInDraft` | packages/paa-core/src/paa_core/producer/brief_target_author.py:287-294 | Targets are never removed and are added only while the brief is a draft. |
| `BriefLifecycle.LogAppends` | packages/paa-core/src/paa_core/producer/coder_brief_assembler.py:579-607 | The log is append-only, and a decision already in force adds no event. |
| `SpecTables.ScanSections` | packages/paa-core/src/paa_core/governance/component_spec_materialization.py:165-184 | The index loop computes the declarative scan and ends on every input, because its index strictly increases. |
| `SpecTables.ParseMarkdownTable` | packages/paa-core/src/paa_core/governance/component_spec_materialization.py:114-139 | The table loop computes the table of the lines it gathers, or the first error. |
| `SpecTableLaws.RowRoundTrip` | packages/paa-core/src/paa_core/governance/component_spec_materialization.py:142-147 | A rendered row splits back into its cells. |
| `SpecTableLaws.ScanRoundTrip` | packages/paa-core/src/paa_core/governance/component_spec_materialization.py:165-184 | Scanning the text of canonical sections with arbitrary non-heading prose yields exactly each section's headers and rows. |
| `SpecTableLaws.RowMapAt` | packages/paa-core/src/paa_core/governance/component_spec_materialization.py:138-138 | With distinct headers a row maps each header to the cell under it. |
| `SpecTextLaws.HeadingIff` | packages/paa-core/src/paa_core/governance/component_spec_materialization.py:103-103 | A heading is any line of four characters or more that starts with two signs and white space. |
| `SpecTextLaws.HeadingRead` | packages/paa-core/src/paa_core/governance/component_spec_materialization.py:103-103 | The heading's title is its text, trimmed. |
| `SpecTextLaws.BlankHeading` | packages/paa-core/src/paa_core/governance/component_spec_materialization.py:103-103 | A heading of white space alone is titled by its last character. |
| `SpecTextLaws.TableLineIff` | packages/paa-core/src/paa_core/governance/component_spec_materialization.py:114-128 | A line belongs to a table when its first character that is no white space is a pipe. |
| `SpecTextLaws.BlanksSkipped` | packages/paa-core/src/paa_core/governance/component_spec_materialization.py:173-180 | Any number of blank lines may stand between a heading and its table. |
| `SpecTextLaws.WrittenRowRead` | packages/paa-core/src/paa_core/governance/component_spec_materialization.py:142-147 | Cells written with ticks and blanks around their text read as the text. |
| `SpecTextLaws.RowReadsIff` | packages/paa-core/src/paa_core/governance/component_spec_materialization.py:142-147 | A line is refused as a row exactly when, trimmed, it does not begin and end with a pipe. |
| `SpecTextLaws.TableReadsIff` | packages/paa-core/src/paa_core/governance/component_spec_materialization.py:114-139 | A table is read exactly when it has two lines or more, all rows of the width of the first; each later line yields its own row. |
| `SpecSeed.ExtractComponentSpec` | packages/paa-core/src/paa_core/governance/component_spec_materialization.py:165-366 | Extraction succeeds exactly when the scan does, every section and column is there, the identity and plan tables have one row with canonical vocabulary, every reference resolves, and numbers and flags read; the seed is the one the tables stand for. |
| `SpecSeed.ScanFills` | packages/paa-core/src/paa_core/governance/component_spec_materialization.py:114-139 | Every row of a scanned table has a cell under every header, so no column lookup fails. |
| `SpecSeedLaws.SpecRoundTrip` | packages/paa-core/src/paa_core/governance/component_spec_materialization.py:165-366 | Scanning and extracting a document that writes a seed gives that seed back, and is refused exactly when a reference inside the seed dangles, a word is outside the vocabulary, a sequence is no number or a flag is neither true nor false. |
| `SpecStore.SpecDatabase.MaterializeComponentSpec` | packages/paa-core/src/paa_core/producer/component_spec_materializer.py:202-362 | Succeeds exactly under a condition on the starting store, then makes exactly the seed's rows; on every path other components and plans are untouched and the store stays valid; the anchor and collision guards fire before plan truth is cleared. |
| `SpecStore.SpecDatabase.ClearPlanActivityTruth` | packages/paa-core/src/paa_core/producer/component_spec_materializer.py:140-145 | Removes exactly the activities and dependencies of the plan of that name. |
| `SpecStore.SpecDatabase.UpsertActivities` | packages/paa-core/src/paa_core/producer/component_spec_materializer.py:323-349 | Upserts in order up to the first seed without realization, with unknown kind or out-of-range sequence. |
| `SpecStore.RealizationsPresentIff` | packages/paa-core/src/paa_core/producer/component_spec_materializer.py:266-273 | The realization lookups all succeed exactly when each key was stored before or some seed of it has a registered type. |
| `SpecStoreLaws.CleanAfterIff` | packages/paa-core/src/paa_core/producer/component_spec_materializer.py:202-362 | After a materialization the checker finds no gap if and only if the start was tidy and no plan row that outlives the clearing held an activity or dependency outside the spec. |
| `SpecStoreLaws.MaterializeThenCheck` | packages/paa-core/src/paa_core/producer/component_spec_materializer.py:223-231 | From a tidy store whose plan row is absent or already this plan's, the checker reports no gap, whatever stale activities the plan had. |
| `SpecStoreLaws.RenameKeepsStaleActivities` | packages/paa-core/src/paa_core/producer/component_spec_materializer.py:223-228 | A run that renames the plan of the seed's context keeps its old activities, and the checker reports any the spec does not list. |
| `SpecStoreLaws.SecondRun` | packages/paa-core/src/paa_core/producer/component_spec_materializer.py:202-362 | A second materialization succeeds, changes no key set, leaves exactly the spec's activities and dependencies, and changes neither unless the first run renamed the plan. |
| `SpecStoreLaws.SecondRunHealsIff` | packages/paa-core/src/paa_core/producer/component_spec_materializer.py:223-231 | Two runs in a row are checked clean exactly when the start was tidy and no other plan naming the component holds stale rows. |
| `MaterializedDelivery.FreshPlanCanFinishIff` | scripts/runtime/materialize_project_delivery_projection_surface.py:35-49 | A freshly materialized plan can be finished by next-set completions exactly when the seed has no activities, or its plan status is approved and its dependency table has no cycle; a run stops exactly when it has as many steps as there are activity keys. |
| `MaterializedDelivery.FreshPlanHoldsSeed` | packages/paa-core/src/paa_core/producer/component_spec_materializer.py:323-362 | The projection of a fresh plan has exactly the seed's activities, all planned and with their sequences, and exactly its dependencies. |
| `SpecStoreLaws.RenameLeavesGap` | packages/paa-core/src/paa_core/producer/component_spec_materializer.py:223-228 | A plan old renamed to new by its spec: the run succeeds and the checker reports a gap. |
| `SpecRowLaws.StoredActivities` | packages/paa-core/src/paa_core/producer/component_spec_materializer.py:323-349 | After a run every activity seed that no later one overrides is stored under its key, planned, with its own sequence and the kind its word stands for. |
| `SpecRowLaws.DistinctStand` | packages/paa-core/src/paa_core/producer/component_spec_materializer.py:323-349 | With distinct activity keys no seed is overridden. |
| `SpecRowLaws.StoredElements` | packages/paa-core/src/paa_core/producer/component_spec_materializer.py:202-240 | A run adds exactly the elements its seeds stand for, with the type of their word. |
| `SpecRowLaws.StoredRealizations` | packages/paa-core/src/paa_core/producer/component_spec_materializer.py:237-262 | A realization of a registered type is stored under its key at an element of the component with its element name. |
| `SpecRowLaws.SucceedsIff` | packages/paa-core/src/paa_core/producer/component_spec_materializer.py:202-362 | A run succeeds exactly when the package has an anchor plan, the context's row is free, no other plan has the name, and every element, realization, activity, dependency and the plan state can be stored: known words, 32-bit sequences, a matching realization, hard dependencies between different activities. |
| `MaterializedDelivery.FreshNextSet` | scripts/runtime/materialize_project_delivery_projection_surface.py:150-179 | For an approved spec the fresh plan's next set is exactly the activities that depend on nothing and have the least sequence among those. |
| `SpecDependencies.CleanMeansDependenciesIff` | packages/paa-core/src/paa_core/governance/component_spec_model_consistency.py:160-198 | Every valid store that passes the check holds exactly the spec's predecessor and successor keys if and only if no listed dependency shares its text with another pair of the spec's activity keys (or the spec cannot pass at all). |
| `SpecDependencies.PassableIff` | packages/paa-core/src/paa_core/governance/component_spec_model_consistency.py:160-198 | Some valid store passes the check exactly when the spec repeats no key and every dependency text is that of two different activity keys of the spec (and there is an element if there is a realization). |
| `SpecDependencies.ArrowFreeKeysAreUnambiguous` | packages/paa-core/src/paa_core/governance/component_spec_model_consistency.py:171-198 | With activity keys free of an arrow a clean report means exactly the spec's dependencies. |
| `SpecDependencies.ArrowKeysMislead` | packages/paa-core/src/paa_core/governance/component_spec_model_consistency.py:93-140 | A spec that lists a before b->c and a store that holds a->b before c: the checker reports no gap. |
| `SpecConsistency.EvaluateConsistency` | packages/paa-core/src/paa_core/governance/component_spec_model_consistency.py:160-198 | The gap list, built test by test, is the count gaps followed by the key gaps; it is empty exactly when every count and every sorted key list agrees. |
| `SpecConsistency.NoGapsIff` | packages/paa-core/src/paa_core/governance/component_spec_model_consistency.py:171-198 | No gap is reported exactly when one component has the name, the plan exists, and each spec key list is duplicate-free and equal as a set to the model's. |
| `SpecConsistency.CountGapsImplyKeyGaps` | packages/paa-core/src/paa_core/governance/component_spec_model_consistency.py:171-198 | Every count gap of a kind comes with the key gap of that kind. |
| `SpecConsistency.AnyGapIsDecisive` | scripts/automation/run_delivery_architect_component_spec_proof.py:308-322 | Any spec/model gap makes the verdict cannot-prove, whatever the other stages report. |
| `SpecConsistency.VerdictIsWorst` | scripts/automation/run_delivery_architect_component_spec_proof.py:308-322 | The verdict over several stages is that of the worst gap, in whatever order they come. |
| `SpecConsistency.VerdictOnOne` | scripts/automation/run_delivery_architect_component_spec_proof.py:308-322 | The verdict on a single gap. |
| `SpecConsistency.WorstReport` | packages/paa-core/src/paa_core/governance/component_spec_model_consistency.py:160-198 | The ten gaps by name and in order, when every test fails. |
| `PilotOverlay.AuthorityInstall.InstallOverlay` | scripts/runtime/install_pilot_authority_overlay.py:401-460 | Install has the effect of its specification on tasks, overlay entries, included names, directories and artifact files; coherence is kept when the fixture names the issue. |
| `PilotOverlay.AuthorityInstall.RemoveOverlay` | scripts/runtime/install_pilot_authority_overlay.py:473-513 | Remove has the effect of its specification, unlinks the artifacts the directory records, and keeps coherence. |
| `PilotOverlay.AuthorityInstall.StatusOverlay` | scripts/runtime/install_pilot_authority_overlay.py:516-530 | Status gives the first task and the first overlay entry of the issue, if there are any. |
| `PilotOverlay.RunKeepsCoherent` | scripts/runtime/install_pilot_authority_overlay.py:401-505 | Over any run of installs and removes overlay entries differ in issue and in task id, and each has a task with the same pair and a directory recording its task id. |
| `PilotOverlay.InstallCoherentIff` | scripts/runtime/install_pilot_authority_overlay.py:401-441 | An install keeps that coherence exactly when the fixture names the issue it is installed for. |
| `PilotOverlay.InstallRemoveRestoresIff` | scripts/runtime/install_pilot_authority_overlay.py:411-505 | Install then remove restores the task list exactly when it was sorted and no task conflicted with the overlay. |
| `PilotOverlay.InstallRemoveRestoresAllIff` | scripts/runtime/install_pilot_authority_overlay.py:401-505 | Install then remove restores the whole authority exactly when the list was sorted, nothing conflicted, no directory or artifact of the overlay existed and its artifact names were already listed. |
| `PilotOverlay.InstallRemoveLeaves` | scripts/runtime/install_pilot_authority_overlay.py:401-505 | What install and remove leave of entries, included names, directories and artifacts. |
| `PilotOverlay.MislabelledFixture` | scripts/runtime/install_pilot_authority_overlay.py:401-441 | A fixture that names issue 2, installed for issue 1: its entry has no task. |
| `PilotOverlay.NamesStayIncluded` | scripts/runtime/install_pilot_authority_overlay.py:447-451 | Installing and removing on an empty authority leaves the artifact's name listed. |
| `PilotOverlay.InstallRemoveTasks` | scripts/runtime/install_pilot_authority_overlay.py:411-505 | What install and remove leave is the non-conflicting tasks, sorted. |
| `PilotOverlay.RemoveClears` | scripts/runtime/install_pilot_authority_overlay.py:473-505 | After a remove no task of the issue, no entry and no directory is left. |
| `PilotOverlay.InstallExact` | scripts/runtime/install_pilot_authority_overlay.py:401-451 | What an install leaves: the tasks sharing neither task id nor issue and the overlay's own, by issue number and then task id; likewise the entries; the directory; the artifact files. |
| `PilotOverlay.NamesIncluded` | scripts/runtime/install_pilot_authority_overlay.py:447-451 | Included names: the old list, and behind it each artifact name it lacks, once. |
| `PilotOverlay.RemoveExact` | scripts/runtime/install_pilot_authority_overlay.py:473-505 | What a remove leaves: tasks and entries of other issues, without those of the recorded task id if the directory records one; recorded artifacts and the directory are gone. |
| `AuthorityAdvance.AuthorityManifest.AdvanceAfterMerge` | packages/paa-core/src/paa_core/producer/authority_acceptance.py:238-269 | The command has the effect of its specification: complete the task, start its one successor, record it once, bump the version; or change nothing. The history only grows and stays free of repeats, and complete tasks stay recorded. |
| `AuthorityAdvance.AuthorityManifest.FindTask` | packages/paa-core/src/paa_core/producer/authority_resolution.py:11-23 | The scan finds the first task matching the issue number or the task id. |
| `AuthorityAdvance.BumpIncreasesIff` | packages/paa-core/src/paa_core/producer/authority_queries.py:22-28 | A bump yields a well-formed version of today, and a greater one exactly when the current version is dated no later than today. |
| `AuthorityAdvance.BumpCanGoBack` | packages/paa-core/src/paa_core/producer/authority_queries.py:22-28 | A clock one day behind the version takes it backwards. |
| `AuthorityAdvance.DecimalRoundTrip` | packages/paa-core/src/paa_core/producer/authority_queries.py:22-28 | Printing a counter in decimal and reading it back gives the counter. |
| `AuthorityAdvance.RunKeeps` | packages/paa-core/src/paa_core/producer/authority_acceptance.py:257-265 | Over any run the history only grows, stays free of repeated task ids, and keeps every complete task recorded if it began so. |
| `AuthorityAdvance.VersionsIncrease` | packages/paa-core/src/paa_core/producer/authority_acceptance.py:238-269 | Under a clock that never runs back, between two moments of a run the version has grown if some advance succeeded, and otherwise nothing has changed. |
| `AuthorityAdvance.AdvancesIff` | packages/paa-core/src/paa_core/producer/authority_acceptance.py:240-250 | An advance succeeds exactly when some task matches and at most one listed successor of the first match names a task. |
| `AuthorityAdvance.AdvanceEffect` | packages/paa-core/src/paa_core/producer/authority_acceptance.py:252-255 | Task by task: the successor goes into development, the found task becomes complete unless it is its own successor, every other task stays as it is. |
| `AuthorityAdvance.SuccessorsAre` | packages/paa-core/src/paa_core/producer/authority_acceptance.py:241-242 | The successor lookups find exactly the first task of each listed id that names one, once per listing. |
| `AuthorityAdvance.FoundTask` | packages/paa-core/src/paa_core/producer/authority_resolution.py:11-23 | By issue number, by task id, or by both, when the first task fitting either is taken; by neither none is found. |
| `AuthorityAdvance.Reported` | packages/paa-core/src/paa_core/producer/authority_acceptance.py:238-275 | The report: no task, the number of successors if several, or the completed task and its one successor. |
| `AuthorityAdvance.HistoryEffect` | packages/paa-core/src/paa_core/producer/authority_acceptance.py:257-267 | The history gets one entry for the completed task unless it has one, and the version is bumped. |
| `AuthorityAdvance.BumpExact` | packages/paa-core/src/paa_core/producer/authority_queries.py:22-28 | A version of the day counts up by one; without a number behind the day, or with another day, it starts at one. |
| `DbText.QueryRows` | packages/paa-core/src/paa_core/db.py:186-198 | The line loop returns the rows of the joined text. |
| `DbText.RowsRoundTrip` | packages/paa-core/src/paa_core/db.py:132-137 | Rows come back as their stringified cells exactly when no cell holds a tab or line break and no row is all blank. |
| `DbText.FetchedIsReadIff` | packages/paa-core/src/paa_core/db.py:132-137 | What was fetched is what is read, value by value with NULL as the empty text, exactly when no value holds a tab or line break and every row has a value that is not blank. |
| `DbText.NullReadsAsEmpty` | packages/paa-core/src/paa_core/db.py:132-137 | NULL and the empty string are not told apart. |
| `DbText.LiteralRoundTrip` | packages/paa-core/src/paa_core/db.py:113-116 | Scanning a rendered literal recovers the string and the text behind it, exactly when that text does not start with a quote. |
| `DbText.LiteralInjective` | packages/paa-core/src/paa_core/db.py:113-116 | Different values never render to the same SQL text. |

## Left out

- Header validation (dates, vocabularies, required fields), index-level checks and the lint commands: per-field tests
  without state; sync only needs the resulting verdict.
- The `path` and `header_status` entries of a record, which the parser adds and the rewrite never reads.
- Files that are symbolic links or directories named `*.md`, file encodings and I/O failures during a sync.
- A prune restricted by stage or document id: its deletions are specified, exactness is stated for the unfiltered run.
- Packet and brief JSON, review documents, schema validation and role lookups: field copying around the modelled steps.
- Interleavings inside one lifecycle command: the code checks and then updates without a guard in the update.
- Titles, descriptions, JSON definitions, artifact targets and element or realization ids of the spec rows, and the
  verification surfaces beyond their flag check: written and never read back by the checker or the projection.
- Which element `LIMIT 1` picks when a component has one key under two types: any of them, in the model.
- ExtractComponentSpec: which of several extraction errors is raised first; the model checks all columns before any row.
- MaterializeComponentSpec: takes the project and design package as found; the errors for missing ones are not modelled.
- InstallOverlay: does not model the contents of the artifacts it normalises and copies, the fixture summary it rewrites
  or the database traceability sync; a task's other fields are one opaque body.
- RemoveOverlay: artifacts are names in one directory, so a recorded path outside it is not modelled.
- FinishesIffNoEarlyReconcile: the progress metadata and bundle texts the service builds are not modelled, and
  verification surfaces appear only as the set of activities that lack a required one.
- AdvanceAfterMerge: publishing, the published-at time and the printed result are not modelled.
- Ordering inside the JSON arrays of the projection and its constant summary columns.
- Command-line wiring, rendering, routing, queues, GitHub and worktree services.
