# Verification of the frame graph optimizer and its companions

This Dafny project models the parts of the dxmt9 repository that are algorithms
over unbounded state, and proves what they promise for every input, every run or
every reachable state.

The modules, in reading order:

* `Options`, `Sequences`, `Bits` - optional values, permutations, concatenations and
  packed rows of flags.
* `FrameGraphs`, `Coalescing`, `Provenance`, `Execution`, `Fixpoint` - frame graphs,
  one merge of pass coalescing, what merges keep, what running a frame means, and the
  theorems about the fixpoint. `SubmissionOrder`, `LockFences` and `MergedFlags` say
  exactly when submission order, boundaries and pass flags survive; `UnattachedDraws`
  is a built frame where order does not.
* `CoalesceDiagnostics`, `CoalesceCounts` - the statistics and the diagnostics tracker,
  and what a run counts as a function of its graph; `PassCoalesce` - the imperative pass
  as the reference tool writes it; `GraphQueries`, `PassCoalesceCached` - the production
  form with its reachability cache and summaries. Both are proved to compute the same
  graph, `Fixpoint.Coalesced`, and the same counters, `CoalesceCounts.Tallied`.
* `Hazards`, `FrameBuilder`, `ReplayPlans` - where the graphs come from and where they
  go: dependency edges from access logs, the builder over a command stream, and the
  replay plan of a graph. Together they prove the hypotheses of the theorems above for
  every built frame. `BuiltPasses`, `BuiltEdges` and `RecordedAccesses` say what a built
  frame is in terms of the commands of its stream, up to the order of its replay.
* `MutationIdentity`, `Composition`, `ObserverHistory`, `ObserverRuns`,
  `CompositionObserver` - the mutation composition ledger, its runs as lists of calls, and
  the laws its report audit relies on.
* `MaterializationLedger`, `OcclusionCounter`, `QueryEnds` - lock-free counters and the
  query end marker, as interleaved atomic steps of any number of threads.
* `QueryUploads`, `InitializerProgress` - the upload ring, its runs, and the half of a
  query's progress it supplies.
* `StateTables`, `FlatStates`, `DrawBatchStates`, `DrawBatching` - draw-state tables,
  flat sets, the batch rule with its diagnosis, and the folding of draws into batches.
* `SourceMasking`, `AttachmentHistory` - the comment and literal masker, and the binary
  attachment history.

## How the running of a frame is modelled

A machine gives a draw any effect on a state of any type, and gives every other command
an effect that may also depend on the commands of the same pass before it. `Run`
replays the passes in order and skips dead ones. The hypothesis of the meaning theorem
is that two passes commute when no dependency path joins them. Assuming it of every
pair without an edge would ask too much: the builder draws edges from the most recent
write only, so two conflicting passes may be joined by a path of several edges and by
no single one. `Hazards` proves that these edges are enough, so for built frames the
hypothesis becomes: passes commute when their recorded accesses do not conflict.

## What the proofs turned up

* Submission order of draws inside a merged pass (R-BACK-34.3) is not kept for every
  stream: `UnattachedDraws` builds a legal frame, two of whose draws have no attachment,
  and the optimized frame draws them out of order. `SubmissionOrder` gives the exact
  condition, per merge and for the whole run: the merges must move any two passes that
  draw and end together past each other an even number of times. It suffices that
  draw-only render passes are joined by paths to the later ones on their targets, which
  `FrameBuilder` proves of every built graph whose render passes have an attachment the
  resolver knows.
* R-BACK-34.1 speaks of passes in between that have no dependency edge to the pair, and
  R-BACK-34.2 of a cost comparison. The code compares no cost, and it also merges
  across passes that depend on the pair, or feed it, in one direction only. The model
  follows the code.
* The merged pass inherits only the first pass's flags, so query, lock and marker flags
  of later ones are lost exactly when the first lacks them (`MergedFlags`). Dead-pass
  elimination reads these flags.
* A render pass that holds a lock is to force a flush boundary (R-BACK-32.4, R-BACK-34.5),
  but coalescing looks at the pass kind only. `LockFences` shows a lock crossed, and the
  exact condition for any pass: it is a boundary of the optimized frame if and only if no
  merge of the run covers it. Only the refinement tool sets the flag; the builder does not.
* The builder sets the readback bit on the node of the handle as named, while the read
  is recorded on the node it resolves to (`FrameBuilder.ReadbackMarksRecordedNode`).
* A frame from which the builder skipped a command whose payload is missing can never be
  replayed as planned (`ReplayPlans.StreamReplayable`).
* Settling a mutation to pending breaks the conservation the audit checks, and nothing
  else does (`ObserverHistory.SettleConserves`).
* The retained-bytes counter is exact just as long as no release is clamped and no
  addition wraps (`MaterializationLedger.ExactIffLossless`). A snapshot can show more
  than the peak exactly when the counter is above the peak as it begins, which happens
  inside a retain.
* The alpha-test diagnosis ignores cut state sets: `AlphaTestOnly` then names a pair that
  does not batch (`DrawBatchStates.CutSetsMisnamed`). And a pair that differs in stream
  frequencies only is diagnosed `Unknown` though it does not batch
  (`DrawBatchStates.FrequencyUnnamed`). Both conditions are exact in
  `DrawBatchStates.ClassifyIncompatibility`.
* Closing a window again after new records counts its discard chains again; the count is
  then exact only if it was zero (`CompositionObserver.Observer.Close`).
* `StateValueTable::clear` drops the change flags, so they cover changes since the last
  clear or flag reset only.

## Model

| member | source | states |
|---|---|---|
| `FrameGraphs.SearchReaches` | tools/reference_passcoalesce.cpp:54-80 | the depth-first search answers true exactly when a dependency path exists, on any graph: cycles, self-edges and edges out of range included |
| `Coalescing.AfterNeverFeedsBefore` | tools/reference_passcoalesce.cpp:195-211 | a pass sent after the pair never reaches a pass sent before it |
| `Coalescing.MergeOrderPermutation` | tools/reference_passcoalesce.cpp:410-438 | the new order lists every old pass exactly once |
| `Coalescing.MergeOrderLinear` | tools/reference_passcoalesce.cpp:410-438 | with forward edges, no pass in the new order precedes one that reaches it |
| `Provenance.PathImage` | tools/reference_passcoalesce.cpp:485-519 | a path of old edges maps to a path of remapped edges, unless both ends were merged into one pass |
| `Provenance.MergeForward` | tools/reference_passcoalesce.cpp:485-519 | after a merge every remapped edge still runs forward |
| `Provenance.MergeEdge` | tools/reference_passcoalesce.cpp:495-519 | between two passes of a merged graph there is an edge on a resource exactly when they differ and old passes behind them had an edge on that resource |
| `Provenance.MergeEdgesInside` | tools/reference_passcoalesce.cpp:495-519 | every edge of a merged graph joins two different passes of it, and none is there twice |
| `Provenance.RemapEdgesInOrder` | tools/reference_passcoalesce.cpp:495-519 | rebuilt edges stand in the order in which the old edges first give them |
| `Provenance.MergeDescends` | tools/reference_passcoalesce.cpp:354-524 | one merge folds and reorders and does nothing else: rows, kinds, targets, paths, edges with their resources, fences and access logs of the result all come from the old passes, and a merged pass keeps the first one's flags, state profile and load/store policy |
| `Provenance.DescendsTransitive` | tools/reference_passcoalesce.cpp:579-595 | that relation composes, so it speaks of any number of merges |
| `Execution.LinearOrdersAgree` | specs/d3d9-renderer/requirements.md:533-541 | any two orders of the same passes that reverse no path run to the same state, when passes joined by no path commute |
| `Execution.DescendantRunsAlike` | tools/reference_passcoalesce.cpp:392-519 | a folded and reordered graph runs to the same state as the original, from every state and for every machine |
| `Fixpoint.MergeShrinks` | tools/reference_passcoalesce.cpp:410-438 | each merge removes exactly one pass |
| `Fixpoint.CoalescedIsFixpoint` | tools/reference_passcoalesce.cpp:579-595 | the result holds no mergeable pair, optimizing it again changes nothing, and it is smaller exactly when something was mergeable |
| `Fixpoint.NothingLeftToMerge` | tools/reference_passcoalesce.cpp:224-326 | in terms of paths alone: between two live render passes of the result on equal targets, the second of draws only, stands a pass that is dead, broken, no render pass, or both fed by the pair and feeding it |
| `Fixpoint.Origins` | tools/reference_passcoalesce.cpp:579-595 | the old passes behind each pass of the result; the whole run is one descent from the input graph to it |
| `Fixpoint.CoalescedDescends` | tools/reference_passcoalesce.cpp:579-595 | and the result is again a graph the optimizer accepts |
| `Fixpoint.CoalescedRunsAlike` | tools/reference_passcoalesce.cpp:579-595 | meaning: the optimized frame runs as the original for every machine whose unjoined passes commute |
| `Fixpoint.CoalescedKeepsPaths` | tools/reference_passcoalesce.cpp:485-519 | passes joined by a path end in one pass or in two, in order, still joined by a path |
| `Fixpoint.CoalescedEdges` | tools/reference_passcoalesce.cpp:495-519 | over the whole run, two passes of the result have an edge on a resource exactly when old passes behind them had one |
| `Fixpoint.CoalescedKeepsFences` | specs/d3d9-renderer/requirements.md:555-557 | a pass that is not a render pass is never merged, and every other pass stays on its side of it; for render passes that hold a lock see the fence rows below |
| `LockFences.MergeKeepsFence` | tools/reference_passcoalesce.cpp:410-438 | one merge leaves any pass alone with every other pass on its side exactly when it is neither one of the pair nor between them |
| `LockFences.FenceIffNeverCovered` | specs/d3d9-renderer/requirements.md:555-557 | over the whole run, any pass is a boundary of the optimized frame, alone with every other pass on its side, exactly when no merge covers the pass that holds it |
| `LockFences.LocksFencedIffNeverCovered` | src/dxmt9/framegraph/fg_dag.hpp:142-142 | so the render passes that hold a lock are the boundaries their flag calls for exactly when no merge covers one |
| `LockFences.NonRenderIsFence` | specs/d3d9-renderer/requirements.md:555-557 | a pass that is not a render pass is never covered, so it always is a boundary |
| `LockFences.LockCrossed` | src/dxmt9/framegraph/fg_dag.hpp:142-142 | a graph with complete hazards whose merge carries a pass on one target across a lock to the other side: the lock pass is no boundary of the result |
| `Fixpoint.CoalescedPacked` | tools/reference_passcoalesce.cpp:440-483 | after any merge the ranges are valid and tile the draw and command arrays in pass order |
| `Fixpoint.CoalescedConserves` | tools/reference_passcoalesce.cpp:392-408 | draws and commands each owned once are permuted: none lost, added or owned twice |
| `Fixpoint.CoalescedKeepsSubmissionOrder` | specs/d3d9-renderer/requirements.md:544-548 | when every draw-only render pass is joined by a path to the later ones on its targets, a merged pass lists its old passes in submission order |
| `SubmissionOrder.MergeInverts` | tools/reference_passcoalesce.cpp:410-438 | one merge puts a later pass before an earlier one exactly when the classification moves them past each other: the earlier is the first of the pair and the later goes before, the later is the second of the pair and the earlier goes after, or the earlier goes after and the later before |
| `SubmissionOrder.MergeInvertsByPaths` | tools/reference_passcoalesce.cpp:195-211 | the same in terms of paths alone: a pass between the pair goes before it exactly when it feeds the pair, else after it, and nothing else moves |
| `SubmissionOrder.InvertedIffCrossedOddly` | tools/reference_passcoalesce.cpp:579-595 | over the whole run, two passes end up inverted exactly when the merges moved them past each other an odd number of times |
| `SubmissionOrder.DrawsInOrderIffCrossedEvenly` | specs/d3d9-renderer/requirements.md:544-548 | draws inside merged passes keep submission order exactly when every two passes that draw and end in one pass crossed an even number of times |
| `SubmissionOrder.JoinedDrawsInOrder` | specs/d3d9-renderer/requirements.md:544-548 | joining draw-only passes to the later ones on their targets is enough for that |
| `UnattachedDraws.UnattachedDrawsOutOfOrder` | specs/d3d9-renderer/requirements.md:544-548 | attachments are needed for that: a stream of six commands, two of them draws without any attachment, is built into a frame with complete hazards whose optimized form draws record 3 before record 1 inside one pass |
| `UnattachedDraws.UnattachedCrossOnce` | specs/d3d9-renderer/requirements.md:544-548 | in that built frame the two draws without an attachment cross exactly once, so the exact condition fails |
| `MergedFlags.MergeLosesFlags` | tools/reference_passcoalesce.cpp:450-465 | one merge keeps all flags of the pair exactly when the second pass has none the first has not |
| `MergedFlags.CoalescedFlags` | tools/reference_passcoalesce.cpp:450-465 | a pass of the optimized frame has everything but its ranges from its first old pass; no flag of the others is lost exactly when they have none it has not |
| `MergedFlags.OcclusionQueryLost` | src/dxmt9/framegraph/fg_optimizer/dce.cpp:162-167 | two passes of which the second holds an occlusion query become one that no longer says so, though dead-pass elimination reads that flag |
| `PassCoalesce.ClassifyIntervening` | tools/reference_passcoalesce.cpp:195-211 | the four reachability queries give the classification by paths |
| `PassCoalesce.ScanWindow` | tools/reference_passcoalesce.cpp:271-352 | accepts exactly the windows whose passes are all movable, with the movers in order; names the one reason it stopped, and has counted exactly what the specification counts |
| `PassCoalesce.BuildOrder` | tools/reference_passcoalesce.cpp:410-438 | the emitted source list is the merge order with the marker standing for the pair |
| `PassCoalesce.MaterializePasses` | tools/reference_passcoalesce.cpp:440-483 | the rebuilt passes, arrays and index map are those of the grouped order |
| `PassCoalesce.RemapDependencies` | tools/reference_passcoalesce.cpp:495-519 | an edge between two new passes is there on a resource exactly when an old edge on that resource leads from a pass behind the one to a pass behind the other; without self-edges or repeats, in order |
| `PassCoalesce.RemapAccessLogs` | tools/reference_passcoalesce.cpp:485-494 | the access logs name the new passes |
| `PassCoalesce.ApplyMerge` | tools/reference_passcoalesce.cpp:521-524 | the mutated graph is the merge of the pair |
| `PassCoalesce.CoalesceOnce` | tools/reference_passcoalesce.cpp:215-575 | merges the first mergeable pair of the ascending scan, or finds that there is none; counters and tracker end as one sweep up to that pair leaves them |
| `PassCoalesce.RunPassCoalesce` | tools/reference_passcoalesce.cpp:579-595 | the graph becomes the fixpoint whatever statistics are kept and the guard never cuts the loop; every counter ends at the value the specification of the run gives it, and balanced counters stay balanced |
| `CoalesceDiagnostics.ReturnDiagnosticTracker.BeginCandidate` | tools/reference_passcoalesce.cpp:109-137 | a window counts once: new exactly when no window seen before spells its identities and it starts on a source pass |
| `CoalesceDiagnostics.ReturnDiagnosticTracker.Rebuild` | tools/reference_passcoalesce.cpp:139-158 | identities follow the order list, the merged pass takes the next one |
| `CoalesceDiagnostics.RebuiltIsFresh` | tools/reference_passcoalesce.cpp:139-158 | after a rebuild identities are still distinct, passes have kept theirs, and no window over the merged pass was ever seen |
| `CoalesceDiagnostics.OptimizerStats.CountMerged` | tools/reference_passcoalesce.cpp:540-570 | the whole new counters: the merged bucket, what the scan saw, the maximum of the distances, the seed's distances |
| `CoalesceDiagnostics.OptimizerStats.CountRejected` | tools/reference_passcoalesce.cpp:327-351 | the whole new counters: what the scan saw, the one bucket it names, and the cycle count of seeded pairs |
| `CoalesceCounts.WindowCountsMeaning` | tools/reference_passcoalesce.cpp:279-351 | the counts of a window: no reason exactly when every pass in it moves, else the first that cannot move names the one reason; every counted pass was then classified |
| `CoalesceCounts.WindowCountsExactly` | tools/reference_passcoalesce.cpp:285-326 | each counter of a collecting scan is the number of passes it gets as far as that have the property counted; a scan that does not collect counts nothing |
| `CoalesceCounts.PairCountersExactly` | tools/reference_passcoalesce.cpp:232-352 | what meeting a pair adds to every candidate, bucket and seed counter, from the graph alone: which check fails, and why its window stops |
| `CoalesceCounts.PairNotesExactly` | tools/reference_passcoalesce.cpp:327-351 | what it adds to the counters of the passes between |
| `CoalesceCounts.PairSeedsExactly` | tools/reference_passcoalesce.cpp:556-569 | what a seeded merge adds: its distance, and the passes between by whether they carry commands and feed the pair |
| `CoalesceCounts.PairSound` | tools/reference_passcoalesce.cpp:224-573 | meeting any pair keeps the counters balanced and the tracker sound; candidates grow exactly with the windows seen, merges exactly when the pair merges |
| `CoalesceCounts.TalliedSound` | tools/reference_passcoalesce.cpp:579-595 | over a whole run every return candidate ends in exactly one bucket, one is counted per distinct window, and one merge per pass lost |
| `GraphQueries.Queries.constructor` | src/dxmt9/framegraph/fg_optimizer/passcoalesce.cpp:87-110 | the cache is enabled exactly within its bounds, and its adjacency arrays then list each pass's in-range successors, in edge order |
| `GraphQueries.Queries.AnswerReaches` | src/dxmt9/framegraph/fg_optimizer/passcoalesce.cpp:112-134 | the cached bit rows answer exactly reachability, filled lazily |
| `PassCoalesceCached.Summarize` | src/dxmt9/framegraph/fg_optimizer/passcoalesce.cpp:279-291 | summaries and running boundary counts describe every pass |
| `PassCoalesceCached.HardSkips` | src/dxmt9/framegraph/fg_optimizer/passcoalesce.cpp:338-341 | the skip by boundary counts rejects only pairs that cannot merge |
| `PassCoalesceCached.ScreenPairCached` | src/dxmt9/framegraph/fg_optimizer/passcoalesce.cpp:311-341 | the checks from summaries, with the early skip, decide mergeability and leave every counter as the plain checks leave it |
| `PassCoalesceCached.SkipCountsNothing` | src/dxmt9/framegraph/fg_optimizer/passcoalesce.cpp:338-341 | the early skip loses no count: without diagnostics and without the seed, rejecting a window changes no counter |
| `PassCoalesceCached.ScanWindowCached` | src/dxmt9/framegraph/fg_optimizer/passcoalesce.cpp:342-395 | the window scan from summaries and the cache gives the answer and the counts of the plain scan |
| `PassCoalesceCached.CoalesceOnceCached` | src/dxmt9/framegraph/fg_optimizer/passcoalesce.cpp:276-292 | the cached step merges the pair the plain step merges, with the same counters and tracker |
| `PassCoalesceCached.RunPassCoalesceCached` | src/dxmt9/framegraph/fg_optimizer/passcoalesce.cpp:648-669 | the production pass computes the very fixpoint of the reference pass, and every counter ends at the value the reference gives it, as the refinement tool demands |
| `Hazards.AddEdgeOnce` | src/dxmt9/framegraph/fg_builder.cpp:232-244 | adds the edge unless it is a self-edge or already there |
| `Hazards.AddDependencyEdges` | src/dxmt9/framegraph/fg_builder.cpp:255-286 | appends exactly the RAW, WAW and WAR edges of the new access |
| `Hazards.LogOrderedAppend` | specs/d3d9-renderer/requirements.md:321-335 | although edges are drawn from the newest write only, every conflicting pair of accesses in a log is joined by a path |
| `BuiltEdges.HazardEdgesExactly` | src/dxmt9/framegraph/fg_builder.cpp:255-286 | one access adds exactly the edges from earlier accesses it conflicts with across no later write, on its own resource |
| `BuiltEdges.BuiltEdgesExactly` | specs/d3d9-renderer/requirements.md:321-335 | every built frame joins two passes on a resource exactly when its log has an access of each, the later depending on the earlier with no write between; never to itself, never twice |
| `Hazards.LogsCoverMeaning` | specs/d3d9-renderer/requirements.md:321-335 | so passes that conflict nowhere in the logs and commute satisfy the hypothesis of the meaning theorem |
| `Hazards.CoalescedHazards` | specs/d3d9-renderer/requirements.md:321-335 | the optimized graph is again a complete hazard model of its remapped logs |
| `Hazards.CoalescedFrameRunsAlike` | tools/reference_passcoalesce.cpp:579-595 | the meaning theorem, from access logs instead of edges |
| `FrameBuilder.BuiltConsistent` | src/dxmt9/framegraph/fg_builder.cpp:99-133 | every built graph has forward edges, packed ranges, ordered logs and distinct resource nodes, and each render pass has written its targets |
| `BuiltPasses.PassIsItsCommands` | src/dxmt9/framegraph/fg_builder.cpp:290-403 | each pass of a built frame holds commands in stream order, has the kind and targets of its first, else only draws to the same targets, the first nonzero profile among them, and their draw references |
| `BuiltPasses.HeldOnce` | src/dxmt9/framegraph/fg_builder.cpp:99-131 | each command that is not skipped is held by one pass, and a later command by no earlier pass |
| `BuiltPasses.SharesPass` | src/dxmt9/framegraph/fg_builder.cpp:303-315 | a command shares the pass of the one before it exactly when it draws to the targets that one draws to or clears |
| `RecordedAccesses.LoggedExactly` | src/dxmt9/framegraph/fg_builder.cpp:341-496 | a pass of a built frame is logged as reading, writing or clearing a resource, in a stage, exactly when a draw, clear, present, copy, stretch, fill, resolve, mipmap or readback it holds does |
| `RecordedAccesses.DependentJoined` | specs/d3d9-renderer/requirements.md:321-335 | commands of which one writes what the other reads or writes land in one pass, or in two joined by a path in stream order |
| `RecordedAccesses.DependentReplayedInOrder` | specs/d3d9-renderer/requirements.md:321-335 | from any stream to the replay of the optimized frame: of two such commands the earlier one is replayed first, and no command is replayed twice |
| `FrameBuilder.ConsistentOrdersTargets` | src/dxmt9/framegraph/fg_builder.cpp:255-286 | built render passes on equal targets are joined by a path |
| `FrameBuilder.OptimizedStreamRunsAlike` | src/dxmt9/framegraph/fg_builder.cpp:99-133 | from any command stream to the optimized frame: same meaning, same draws and commands, hazards complete; submission order kept where every render pass has an attachment the resolver knows |
| `FrameBuilder.ReadbackMarksRecordedNode` | src/dxmt9/framegraph/fg_builder.cpp:469-484 | the node the read was recorded under has the readback bit exactly when it had it before or the handle is its own alias |
| `FrameBuilder.Builder.NoteAccess` | src/dxmt9/framegraph/fg_builder.cpp:198-220 | records one access after its hazard edges, on the resolved node |
| `FrameBuilder.Builder.HandleDraw` | src/dxmt9/framegraph/fg_builder.cpp:290-339 | a draw joins the open pass of equal targets or opens one that writes them |
| `FrameBuilder.Builder.HandleClear` | src/dxmt9/framegraph/fg_builder.cpp:364-403 | a clear opens a fresh pass, its command recorded before its accesses |
| `FrameBuilder.Builder.Handle` | src/dxmt9/framegraph/fg_builder.cpp:99-131 | one source command takes the builder to the state the specification gives, whose meaning the rows on logs, passes and edges state |
| `FrameBuilder.BuildFrameGraph` | src/dxmt9/framegraph/fg_builder.cpp:99-133 | the whole walk builds the specified graph |
| `ReplayPlans.PlanReplayCommands` | src/dxmt9/framegraph/fg_linearizer.cpp:138-188 | a plan is valid exactly when every source command is named once under its kind; it then lists the live ones in pass order, and says whether that is source order |
| `ReplayPlans.InOrder` | src/dxmt9/framegraph/fg_linearizer.cpp:175-187 | walking past omitted indices detects exactly the lists that do not rise |
| `ReplayPlans.CoalescedReplayable` | src/dxmt9/framegraph/fg_linearizer.cpp:138-188 | merging keeps a graph replayable, and the same commands are replayed |
| `ReplayPlans.BuiltCommands` | src/dxmt9/framegraph/fg_builder.cpp:99-133 | the builder names the commands it does not skip, in stream order |
| `ReplayPlans.StreamReplayable` | src/dxmt9/framegraph/fg_linearizer.cpp:138-188 | an optimized built frame is replayable exactly when the builder skipped no command of the stream |
| `Composition.ClassifyAged` | include/dxmt9/mutation_composition_observer.hpp:176-221 | a later settlement changes only a verdict that waited for completion |
| `Composition.ClassifyExactly` | include/dxmt9/mutation_composition_observer.hpp:176-221 | when a pair is a candidate, and when each reason is given: the first that applies, in the documented order |
| `Composition.PreviousExactly` | include/dxmt9/mutation_composition_observer.hpp:638-655 | an event is compared with the latest one of its generation if there is one, else the latest of its resource, else with none |
| `Composition.VerdictAged` | include/dxmt9/mutation_composition_observer.hpp:638-669 | so does every verdict of the history |
| `Composition.CountFirsts` | include/dxmt9/mutation_composition_observer.hpp:638-655 | exactly one event per distinct resource has nothing to be compared with |
| `Composition.NoOrderRejections` | include/dxmt9/mutation_composition_observer.hpp:611-636 | no issued event is rejected for its order, nor compared across resources |
| `MutationIdentity.OrderingPolicy.Issue` | include/dxmt9/mutation_identity.hpp:54-64 | hands out an identity never issued before, or none once spent |
| `MutationIdentity.OrderingPolicy.Reset` | include/dxmt9/mutation_identity.hpp:66-74 | moves to a new generation and forgets nothing issued; refused for good at the last one |
| `ObserverHistory.RightRecorded` | include/dxmt9/mutation_composition_observer.hpp:231-338 | recording keeps the index, the verdicts, the counters and the order of the history |
| `ObserverHistory.RightAged` | include/dxmt9/mutation_composition_observer.hpp:343-366 | settlements and uses keep them too |
| `ObserverRuns.BarredExactly` | include/dxmt9/mutation_composition_observer.hpp:309-320 | over any list of calls, an event is stored as barred exactly when its generation was used or barred, or everything was, after the previous accepted event of that generation and before it |
| `ObserverRuns.UsedExactly` | include/dxmt9/mutation_composition_observer.hpp:429-445 | over any list of calls, a generation counts as used exactly when it was used after an event of it in the same window |
| `ObserverRuns.StoredStays` | include/dxmt9/mutation_composition_observer.hpp:343-366 | until the window is reset no call changes a stored barrier mark, identity, order or range |
| `ObserverHistory.OverlapIsShared` | include/dxmt9/mutation_composition_observer.hpp:726-733 | the overlap counted is the number of bytes both events write |
| `ObserverHistory.UnionIsHull` | include/dxmt9/mutation_composition_observer.hpp:717-724 | the union counted is the least range that holds both |
| `ObserverHistory.RejectionsByVerdict` | include/dxmt9/mutation_composition_observer.hpp:611-636 | each final rejection counter counts the events whose verdict has its name |
| `ObserverHistory.DeadChainExactly` | include/dxmt9/mutation_composition_observer.hpp:499-508 | a dead chain, from the events: the generation begins with a discard, the one of its resource before it ends with one, and neither was ever read |
| `ObserverHistory.SettleConserves` | include/dxmt9/mutation_composition_observer.hpp:343-366 | settling keeps the dispositions conserved exactly when it does not settle to pending |
| `ObserverHistory.CountersPassAudit` | scripts/check/audit_mutation_composition_report.py:138-157 | the counters of every conserved reachable state satisfy the audit's laws |
| `ObserverHistory.FinalPartition` | include/dxmt9/mutation_composition_observer.hpp:657-669 | candidates, final rejections and distinct resources add up to the events; none is rejected for its resource or its order |
| `ObserverHistory.FinalAgainstProvisional` | include/dxmt9/mutation_composition_observer.hpp:657-669 | of the record-time verdicts only completion can fall, every other count can only rise |
| `CompositionObserver.Observer.RecordMutation` | include/dxmt9/mutation_composition_observer.hpp:231-338 | the conditions of acceptance and the whole new state: event, barrier mark, generation, counters |
| `CompositionObserver.Observer.SettleMutation` | include/dxmt9/mutation_composition_observer.hpp:343-366 | settles the newest pending event of that identity, or counts a drop |
| `CompositionObserver.Observer.ObserveUse` | include/dxmt9/mutation_composition_observer.hpp:429-468 | the first use of a generation closes it, marks its events and is counted once |
| `CompositionObserver.Observer.ObserveBarrier` | include/dxmt9/mutation_composition_observer.hpp:470-484 | bars one known generation; an unknown one is only a rejection |
| `CompositionObserver.Observer.ObserveGlobalBarrier` | include/dxmt9/mutation_composition_observer.hpp:420-424 | bars every generation and nothing else |
| `CompositionObserver.Observer.Close` | include/dxmt9/mutation_composition_observer.hpp:489-511 | the whole new state: candidates exact and never falling, rejections partitioning the events, generations closed, zero-use and discard chains counted; the chain count is exact exactly when it was exact and already taken, or was still zero |
| `ObserverHistory.PriorIsLatest` | include/dxmt9/mutation_composition_observer.hpp:593-605 | the generation a discard chain is measured against is the latest one of that resource before it, if there is one |
| `CompositionObserver.Observer.RecomputeCandidates` | include/dxmt9/mutation_composition_observer.hpp:671-715 | the walk by generations counts exactly the candidates of the whole history |
| `CompositionObserver.Observer.PreviousForEvent` | include/dxmt9/mutation_composition_observer.hpp:638-655 | the event an event is compared with |
| `CompositionObserver.Observer.RecomputeFinalRejections` | include/dxmt9/mutation_composition_observer.hpp:657-669 | one rejection per event whose verdict is not candidate |
| `CompositionObserver.Observer.Reset` | include/dxmt9/mutation_composition_observer.hpp:513-523 | a new empty window; ordering identities stay spent |
| `CompositionObserver.Observer.AuditHolds` | scripts/check/audit_mutation_composition_report.py:138-157 | every reachable conserved ledger passes the audit |
| `CompositionObserver.Observer.VerdictStable` | include/dxmt9/mutation_composition_observer.hpp:266-320 | a verdict differs from its record-time one only if that was completion; a candidate stays one |
| `MaterializationLedger.PeakIsHighest` | include/dxmt9/copy_materialization_ledger.hpp:249-260 | in every interleaving the peak never exceeds the largest value held, and equals it when no retain is in flight |
| `MaterializationLedger.PeakFallsShort` | include/dxmt9/copy_materialization_ledger.hpp:249-260 | when it falls short, a retain in flight still carries that value |
| `MaterializationLedger.SnapshotBelowPeak` | include/dxmt9/copy_materialization_ledger.hpp:277-291 | a snapshot begun with no retain in flight never shows the counter above the peak, whatever runs between its loads |
| `MaterializationLedger.SnapshotNeverAbove` | include/dxmt9/copy_materialization_ledger.hpp:277-291 | exactly: no snapshot begun here can show it above the peak if and only if it is not above it now |
| `MaterializationLedger.SnapshotAbovePeak` | include/dxmt9/copy_materialization_ledger.hpp:277-291 | an instance, inside a retain, where one does |
| `MaterializationLedger.ExactIffLossless` | include/dxmt9/copy_materialization_ledger.hpp:249-275 | the counter stays the credit less releases in flight exactly as long as no addition wraps and no release finds too little |
| `MaterializationLedger.DisciplinedKeeps` | include/dxmt9/copy_materialization_ledger.hpp:249-275 | no step loses bytes when every release is covered by retains before it and the total fits the counter |
| `MaterializationLedger.CounterIsOutstanding` | include/dxmt9/copy_materialization_ledger.hpp:249-275 | then, with nothing in flight, the counter is the outstanding sum |
| `OcclusionCounter.InFlightWithin` | include/dxmt9/query_occlusion.hpp:26-35 | at every step of every interleaving the counter is the saturated sum of the additions that have landed |
| `OcclusionCounter.SaturatedSum` | include/dxmt9/query_occlusion.hpp:26-35 | once all have returned it is min(sum, 2^64-1), whatever the interleaving |
| `StateTables.DigestReplace` | include/dxmt9/core_snapshots.hpp:120-138 | XOR-ing out the old entry hash and in the new one gives the digest of the new map |
| `StateTables.HistoryIndependent` | include/dxmt9/core_snapshots.hpp:227-232 | fields that hold two maps are equal exactly when the maps are |
| `StateTables.StateValueTable.Set` | include/dxmt9/core_snapshots.hpp:120-138 | the table holds the map with the key set; keys out of range change nothing |
| `StateTables.StateValueTable.Erase` | include/dxmt9/core_snapshots.hpp:140-151 | the table holds the map without the key |
| `StateTables.StateValueTable.Clear` | include/dxmt9/core_snapshots.hpp:153-159 | the table is empty, and its change flags are dropped |
| `StateTables.StateValueTable.ClearDirty` | include/dxmt9/core_snapshots.hpp:161-163 | the contents stay, and are the clean ones from here on |
| `StateTables.StateValueTable.Contains` | include/dxmt9/core_snapshots.hpp:92-94 | the bit test is membership |
| `StateTables.StateValueTable.At` | include/dxmt9/core_snapshots.hpp:104-106 | the value of a key that is present, else zero |
| `StateTables.StateValueTable.Equals` | include/dxmt9/core_snapshots.hpp:227-232 | comparing fields compares contents |
| `StateTables.StateValueTable.Advance` | include/dxmt9/core_snapshots.hpp:201-208 | the next occupied key |
| `StateTables.StateValueTable.Entries` | include/dxmt9/core_snapshots.hpp:172-221 | iteration yields exactly the occupied keys with their values, ascending |
| `FlatStates.FindFlatState` | include/dxmt9/core_snapshots.hpp:630-644 | binary search over the live entries finds the entry of a state exactly when there is one |
| `FlatStates.FlatStateOr` | include/dxmt9/core_snapshots.hpp:646-654 | its value, or the fallback |
| `FlatStates.MakeFlatStateSet` | src/d3d9/core_draw.cpp:105-120 | the ascending entries of the table, cut to capacity and marked exactly when cut |
| `FlatStates.MovePasses` | include/dxmt9/core_snapshots.hpp:1274-1287 | one move of the walk passes exactly one more state of either side |
| `FlatStates.FlatRenderStatesEqualExceptAlphaTest` | include/dxmt9/core_snapshots.hpp:1263-1290 | for complete sets, true exactly when the two maps agree outside the three alpha-test states; for cut ones, exact equality |
| `FlatStates.FlatComparesTables` | include/dxmt9/core_snapshots.hpp:1263-1290 | on sets made from two tables it compares the tables |
| `FlatStates.ClassifyRenderStateDiff` | include/dxmt9/core_snapshots.hpp:1408-1487 | the class and the first register describe exactly the set of differing states |
| `DrawBatchStates.StatesCompatible` | include/dxmt9/core_snapshots.hpp:1330-1350 | the conjunction of comparisons is the batch rule |
| `DrawBatchStates.BatchableIsEquivalence` | include/dxmt9/core_snapshots.hpp:1330-1362 | the batch rule is reflexive, symmetric and transitive, cut sets included |
| `DrawBatchStates.GroupsCoverRule` | include/dxmt9/core_snapshots.hpp:1489-1532 | the groups of the diagnosis cover the rule |
| `DrawBatchStates.ClassifyIncompatibility` | include/dxmt9/core_snapshots.hpp:1489-1556 | no difference found means batchable exactly when stream frequencies agree; alpha test alone means batchable exactly when neither set was cut; batchable pairs get no other answer; texture-only means equal textures are all that is missing |
| `FlatStates.ClassMeansRegisters` | include/dxmt9/core_snapshots.hpp:1412-1449 | a class that names a group of registers means that all differing registers are in that group, by number, and some register differs |
| `DrawBatchStates.CutSetsMisnamed` | include/dxmt9/core_snapshots.hpp:1489-1556 | two cut sets that differ in an alpha-test state: any right diagnosis says alpha test only, and the pair does not batch |
| `DrawBatchStates.FrequencyUnnamed` | include/dxmt9/core_snapshots.hpp:1489-1556 | two draws that differ in stream frequency alone: any right diagnosis says unknown, and the pair does not batch |
| `DrawBatching.Batcher.SubmitDraw` | src/d3d9/core_draw.cpp:4109-4234 | a draw joins, opens a run or opens a batch; the queue's view grows by that draw under its own identity, or a refused batch leaves it at a beginning of what it was |
| `DrawBatching.Batcher.Flush` | src/d3d9/core_draw.cpp:4049-4107 | publishes the open batch as one transaction and retires it even when refused, after which nothing more is submitted |
| `DrawBatching.Batcher.Replay` | src/d3d9/device_c_chunk_replay.cpp:1645-1665 | an accepted replay shows, record by record, nothing for one that only changes device state outside a state block, the draw for a batchable one, by itself if isolated, and its effect for every other; a refused one shows a beginning of that |
| `DrawBatching.NoBatchAcrossEffect` | include/dxmt9/core_compat_draw_batch.hpp:211-232 | no batch holds draws of records on both sides of one that shows an effect or an isolated draw |
| `DrawBatching.BatchGrows` | include/dxmt9/core_compat_draw_batch.hpp:257-283 | one more draw keeps the runs tiling the batch |
| `QueryUploads.UploadTracker.Admit` | include/dxmt9/query_upload_tracker.hpp:26-34 | accepts exactly the next value with an event and room; refusing fails the tracker for good |
| `QueryUploads.UploadTracker.Append` | include/dxmt9/query_upload_tracker.hpp:36-42 | the queue of uploads grows at its end |
| `QueryUploads.UploadTracker.Poll` | include/dxmt9/query_upload_tracker.hpp:44-60 | retires exactly the completed uploads at the front, in order; the result never exceeds the completed, signalled or published value |
| `QueryUploads.RunAdvances` | include/dxmt9/query_upload_tracker.hpp:18-73 | along any run of calls nothing published or completed is taken back, and a failure ends all progress for good |
| `QueryUploads.ResultsRise` | include/dxmt9/query_upload_tracker.hpp:44-60 | along any run, poll results do not decrease while the signalled value does not |
| `QueryUploads.ResultMeans` | include/dxmt9/query_upload_tracker.hpp:44-60 | a result k is signalled and published, and each upload up to k was published by an earlier step and seen complete by a poll no later than this one |
| `QueryUploads.ResultExactly` | include/dxmt9/query_upload_tracker.hpp:44-60 | a result reaches v exactly when v is signalled and some poll up to this one retired upload v |
| `QueryUploads.PollPassesExactly` | include/dxmt9/query_upload_tracker.hpp:44-60 | a poll before any failure passes exactly the published uploads up to the first that is not complete |
| `QueryUploads.FailedExactly` | include/dxmt9/query_upload_tracker.hpp:26-73 | the tracker has failed exactly when some step failed it: a refusal, an explicit failure, or a failed buffer behind complete ones only |
| `QueryUploads.RetiredInOrder` | include/dxmt9/query_upload_tracker.hpp:44-60 | no upload is retired by a later poll than the one after it |
| `InitializerProgress.AlwaysReports` | src/dxmt9/dxmt9_resource_initializer.mm:532-539 | in every run of the initializer the value it reports is the tracker's published one, refused and failed uploads included, and never falls |
| `InitializerProgress.FlushExactly` | src/dxmt9/dxmt9_resource_initializer.mm:446-540 | a flush with nothing pending changes nothing; any other polls, then queues its buffer under the next value and reports that, or fails for good |
| `InitializerProgress.InitializerNeverInvalid` | src/dxmt9/dxmt9_resource_initializer.mm:370-406 | a fence over a value reported at any earlier moment is never Invalid for its initializer, Complete only when the uploads up to it are retired and signalled, and Failed or Invalid once an upload was refused |
| `InitializerProgress.CompleteFenceSawUploads` | include/dxmt9/query_fence.hpp:41-51 | under a Complete answer each upload of the fence was seen complete by some poll of the run |
| `InitializerProgress.FenceCompletes` | include/dxmt9/query_fence.hpp:41-51 | and it is Complete once its uploads are retired and signalled, its sequence is done on its queue, and nothing failed |
| `QueryUploads.RingPop` | include/dxmt9/query_upload_tracker.hpp:54-57 | advancing the head of the ring drops the first upload |
| `QueryEnds.BoundOnce` | include/dxmt9/query_end_marker.hpp:48-56 | in every interleaving a bound sequence never changes and a cancellation never goes away |
| `QueryEnds.OnlyOwnerBinds` | include/dxmt9/query_end_marker.hpp:26-56 | a bound sequence was offered by the valid admitted writer before any cancellation |
| `QueryEnds.InBindExactly` | include/dxmt9/query_end_marker.hpp:48-56 | in every interleaving a thread is inside a bind exactly from its call, made with the admitted valid writer and no cancellation loaded, to its next exchange |
| `QueryEnds.BoundExactly` | include/dxmt9/query_end_marker.hpp:48-56 | the bound sequence is that of the first exchange of a thread inside a bind, and nothing is bound before |
| `QueryEnds.CompleteWasOffered` | include/dxmt9/query_end_marker.hpp:26-98 | in every interleaving, a deferred end that polls Complete has a sequence its valid admitted writer offered before any cancellation, and that sequence has completed on the same queue |
| `QueryEnds.CompleteStays` | include/dxmt9/query_end_marker.hpp:86-98 | Complete stays Complete as progress advances until cancellation or failure, with both loads interleaved |
| `QueryEnds.CoveredIsPending` | include/dxmt9/query_fence.hpp:30-51 | where the lock-free pending answer is given, progress no newer than its own never classifies as Complete, and unfinished progress classifies as Pending |
| `QueryEnds.CoveredExactly` | include/dxmt9/query_fence.hpp:30-51 | with nothing failed and all that is published covered, it is given exactly when the full answer is Pending on the queue's account |
| `SourceMasking.StripCommentsAndLiterals` | scripts/check/audit_perf_counter_table.py:74-123 | the loop computes the token-wise masking; the layout is kept and the output is clean |
| `SourceMasking.MaskedKeepsLayout` | scripts/check/audit_perf_counter_table.py:76-83 | same length, every newline in place, every other character kept or blanked |
| `SourceMasking.MaskedIsClean` | scripts/check/audit_perf_counter_table.py:85-122 | no quote and no comment opener is left |
| `SourceMasking.CleanIsKept` | scripts/check/audit_perf_counter_table.py:85-122 | text without them is left alone |
| `SourceMasking.CodeIsKept` | scripts/check/audit_perf_counter_table.py:85-122 | a character that is no quote and opens neither comment nor raw literal is kept, and the rest is masked on its own |
| `SourceMasking.LineCommentIsBlanked` | scripts/check/audit_perf_counter_table.py:86-92 | a line comment is blanked up to the newline or the end of the text |
| `SourceMasking.BlockCommentIsBlanked` | scripts/check/audit_perf_counter_table.py:93-98 | a block comment is blanked past its first closing mark |
| `SourceMasking.OpenCommentIsBlanked` | scripts/check/audit_perf_counter_table.py:93-98 | one that is never closed, to the end |
| `SourceMasking.LiteralIsBlanked` | scripts/check/audit_perf_counter_table.py:109-121 | a literal is blanked past its closing quote, escapes skipped |
| `SourceMasking.OpenLiteralIsBlanked` | scripts/check/audit_perf_counter_table.py:109-121 | one that is never closed, to the end |
| `SourceMasking.RawLiteralIsBlanked` | scripts/check/audit_perf_counter_table.py:99-108 | a raw literal is blanked past the first closing mark with its own delimiter |
| `SourceMasking.MaskedTwice` | scripts/check/audit_perf_counter_table.py:74-123 | masking is idempotent on every text |
| `AttachmentHistory.CheckHistory` | include/dxmt9/render_tape_attachment_history.hpp:48-72 | the loop accepts exactly the valid histories |
| `AttachmentHistory.Encode` | include/dxmt9/render_tape_attachment_history.hpp:74-87 | encodes valid histories and nothing else |
| `AttachmentHistory.Decode` | include/dxmt9/render_tape_attachment_history.hpp:89-105 | accepts exactly the encodings of valid histories, returns the one it encodes, and clears its outputs otherwise |
| `AttachmentHistory.EncodingsDecode` | include/dxmt9/render_tape_attachment_history.hpp:89-105 | what a byte string decodes to is the only history it could encode |
| `AttachmentHistory.DecodedEncodes` | include/dxmt9/render_tape_attachment_history.hpp:74-105 | any byte string of matching size re-encodes to itself |
| `AttachmentHistory.HeaderLayout` | include/dxmt9/render_tape_attachment_history.hpp:19-31 | every number of the header at its offset, low byte first |
| `AttachmentHistory.RowLayout` | include/dxmt9/render_tape_attachment_history.hpp:32-42 | every number of a row at its offset, low byte first |
| `AttachmentHistory.WireLayout` | include/dxmt9/render_tape_attachment_history.hpp:74-87 | the header's 64 bytes, then 48 bytes for each row in order |

## Left out

- Lifetime spans: recomputed after the fixpoint from the new indices; they touch no pass, draw, command or edge.
- The merge witness sink, byte estimates and load/store planning; the load/store policy of a pass is carried along unread.
- Fixpoint.CoalescedRunsAlike: opening and closing a pass has no effect of its own on the state; load, store and clear actions are not part of running a frame, beyond the commands that cause them.
- Active render seed application: the virtual first pass is an ordinary pass with its flag set; the seed's own edges are not built.
- GraphQueries.Queries.constructor: the flattened row array is modelled as one row per pass, a 64-bit word as the set of its one-bit positions, and running out of memory while building the cache is not modelled.
- PassCoalesce.RunPassCoalesce: statistics counters are unbounded and grouped by what they count; pass indices and array lengths are taken to fit 32 bits.
- FrameBuilder.Builder.Handle: resource classifier flags other than the readback bit, first and last use and the flush-boundary flag of the graph are not modelled; the depth-clear coverage test and the attachment set of a command are parameters of it.
- ReplayPlans.PlanReplayCommands: the source payload is the list of its command kinds.
- CompositionObserver.Observer.RecordMutation: 64-bit counters are unbounded, the measured phases of an event are one sum, and the entry points that look up a generation or a source ordinal before observing a use are left out.
- CompositionObserver.Observer.AuditHolds: the audit's demands on the workload itself (presents seen, nothing pending, nothing dropped) are not laws of the ledger and are not claimed.
- Memory orders, mutex internals and progress of the compare-exchange loops: concurrent code is modelled as interleaved atomic steps; loops may retry forever.
- MaterializationLedger.PeakIsHighest: one row of the ledger; rows share nothing. The call and byte totals, single additions, are left out.
- StateTables.StateValueTable.Set: the entry hash is an arbitrary function, so nothing is claimed about collisions; equality is proved from the stored fields, of which the hash is one.
- FlatStates.MakeFlatStateSet: the prioritized form used when a table does not fit is left out.
- DrawBatchStates.StatesCompatible: handles, hashes and arrays are opaque values; key fields the rule does not compare are omitted.
- DrawBatching.Batcher.SubmitDraw: where a draw's identity comes from is left out; whether the queue takes a batch is a parameter of the batcher.
- QueryUploads.UploadTracker.Poll: completion statuses are read at one moment per poll.
- InitializerProgress.InitializerNeverInvalid: query tracking is enabled; the render-tape sink, which keeps its own list of uploads, is left out.
- QueryEnds.CoveredIsPending: the caller's choice of the covered prefix is an assumption; sticky submission targets are left out.
- TransformTable: its equality compares floating-point values while its hash reads raw bits, so the map theorem belongs to the integer table only.
- Devices, textures, swapchains, the C bridge, Metal and Wine: foreign calls outside these algorithms.
- Render-tape tools, conformance reports, environment gates and the grep-style audit scripts.
