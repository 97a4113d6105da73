# OmniScope: a verified model of its analysis core

OmniScope looks for resource and ownership errors at the boundaries between languages. An
extractor turns LLVM IR into a module document, a parser reads textual IR, and a pass manager
runs analysis passes over a shared context; passes use a dataflow framework, a module index and
a concurrent fact store. This project models the parts of that machinery whose correctness
spans several functions or a whole run, and proves what each is for.

| files | what they model | main result |
|---|---|---|
| DataFlowGraph | graph with adjacency maps and frozen row arrays | freezing and thawing refine each other; predecessors stay the exact transpose of successors |
| Lattices, FlatConstants, Fixpoint, ForwardAnalysis, BackwardAnalysis, EntryBoundary, ExitBoundary | round-robin fixpoint iteration over any lattice | termination within 2·N·H + 2 sweeps, least (greatest) solution, independence of visiting order, duality, path soundness |
| DependencyGraph, PassManager | depth-first order and greedy levels | exact failure condition, each pass once, dependencies first, level = longest chain, fewest levels |
| PassContext, PassRunner, Schedules, Totals, Confluence, Agreement, RunExamples, ParallelRunner | shared context, sequential and clone/run/merge execution | both modes, and any two schedules that respect dependencies and place writers alike, end with the same store and the same findings |
| Conservation | issues and ids over a parallel run | no issue lost or filed twice; ids of different levels differ |
| Msgpack, ModuleTree, ModuleDocument, DocumentReader, Document | the extractor's MessagePack printer | decoded by the MessagePack specification and read by field names, the document gives back the selected part of the module |
| NameOrder, FfiClosure | call graphs and the bounded backward searches | exactly what is selected, for any seeds |
| FactStore, FactHistory | the fact store as interleaved atomic steps | over every interleaving: queries find exactly what they must, completed calls have taken effect |
| ResourcePairs | caller and callee indexes, acquire/release pairing | the pairing is a maximum matching, first with first |
| Parser | the line-by-line IR parser | what is recorded, from the lines and their regions alone |

Code that the source writes as updates in place is modelled by classes and methods with loops,
each proved against a function of its inputs or of the old state; the lemmas then speak about
those functions. The contracts of the main operations also say what is promised without them:
least bounds, histories, a reader of the document, lines and regions, due passes, turns. Hash maps are traversed in an arbitrary order (`x :| x in rest`), so results
hold for every order; ordered sets of names are traversed in ascending order where it matters.
Pass bodies are trees of context calls, those that read findings back included, quantified over in
every theorem about runs. Threads of the fact store are interleaved by arbitrary sequences of (thread, action).

Some promises do not hold without a condition. In each case the code is modelled as it is, an
input is exhibited on which the promise fails, and the exact condition is proved:

- A second `freeze` loses all edges (`RefreezingLosesEdges`); `Freeze` preserves the lists
  exactly on graphs that are not frozen, or have none (`EmptiedIsSame`).
- Thawing reads out of range (`TwoNewNodesPreventThawing`) exactly when two or more nodes were
  added since the freeze (`AddEdge`).
- An entry node with predecessors does not keep its boundary value, although the comments at
  lines 89-91 and 94 of analysis.rs read that way (`LoopingEntryIsLost`). It keeps the value, and
  its paths are sound, in every analysis exactly when it has no predecessors
  (`KeptIffNoPredecessors`, `SoundIffNoPredecessors`); in one analysis its paths are sound exactly
  when its computed input is above the initial value (`SoundIffEntryAboveInitial`).
- The same holds for an exit node with successors in a backward analysis (`LoopingExitIsLost`,
  `ExitKeptIffNoSuccessors`, `ExitSoundIffNoSuccessors`, `SoundIffExitBelowInitial`).
- A clone starts without findings, so a pass that reads findings back can behave differently on
  it: `RawFactCollector` (raw_fact_collector.rs:364) misses in a parallel run the facts of earlier
  passes (`FactsNeverReachLaterLevels`). Clone, run and merge is the same as running on the
  context, for all passes that look at certain kinds of findings, exactly when the context has
  none of them (`CloneRunMergeIffUnseen`); the agreement of both modes therefore asks that no
  pass looks at findings of others (`LooksAtNothing`).
- A pass that reads a key without depending on its writer races with it: in the default pipeline
  `BorrowEscape` emits, and so reads the gate's resolutions, without depending on
  `StructuralInference`, which stores them (borrow_escape.rs:38-40 and 194,
  structural_inference_pass.rs:633). On such a pair the modes differ (`UndeclaredReadRaces`).
  They agree when both place the writers of a key alike around every pass that accesses it
  (`ParallelEqualsSequential`), which all schedules do if such passes depend on one another
  (`RaceFreeSchedulesAgree`); for a store and a read it is necessary too (`AgreeIffPlacedAlike`).
- A pass with an unregistered dependency runs in sequential mode only
  (`UnregisteredDependencyDropsPass`); two passes of the default pipeline name `ModuleIndex`,
  which is no pass. Both modes run the same passes exactly when every dependency is registered
  (`SamePassesIffAllRegistered`).
- Merging a stale copy undoes an update of a key that existed before the level
  (`StaleCopyUndoesUpdate`); the update survives exactly when its writer is the last pass of the
  level or leaves the old value (`UpdateSurvivesIffLast`).
- Issue ids coincide inside a level (`TwoReportersCollide`), although the comment on `merge` says
  collisions are avoided; all ids of a run differ exactly when each level has at most one pass
  that takes one (`IdsDifferIffOneTakerPerLevel`).
- With several resource seeds the FFI closure can miss a caller that is within reach of one of
  them (`SecondSeedIsBlocked`). What it selects is exactly the seeds and the names with a chain of
  calls that avoids what was selected before (`ExpandAllIsUnblocked`). In terms of the graph and
  the seeds alone: after every search the slice is the seeds and the whole balls searched so far
  exactly when every name of each next ball is in those or has a chain of calls that avoids them
  (`EveryPrefixIsUnionIff`); then the slice is the union of the seeds and their balls
  (`ComputeFfiClosure`), in particular when the balls are apart (`BallsApartAreUnblocked`).
- A string of 2^32 bytes does not survive the MessagePack format (`LongStringIsLost`); a document
  does exactly when its strings and counts are below that (`StringsRoundTrip`, `RoundTrip`).
- First-in-first-out pairing can put a release before its acquire (`ReleaseFirstIsPaired`); it
  does not exactly when no prefix of the calls is overdrawn (`AcquiredFirstIffNeverOverdrawn`).

To verify: `dafny verify dfyconfig.toml`.

## Model

| member | source | states |
|---|---|---|
| DataFlowGraphs.PrefixSums | crates/omniscope-dataflow/src/graph.rs:247-256 | offset 0 is 0 and each next offset adds the length of that id's neighbour list, whatever order the map is traversed in |
| DataFlowGraphs.PrefixSumsAscend | crates/omniscope-dataflow/src/graph.rs:253-256 | offsets never decrease, so every row is a valid slice |
| DataFlowGraphs.CopyRow | crates/omniscope-dataflow/src/graph.rs:262-269 | one row is copied in order from its cursor; the rest of the targets is untouched; the cursor ends at the row's end |
| DataFlowGraphs.FillRows | crates/omniscope-dataflow/src/graph.rs:258-269 | after the cursor loop every row holds its neighbour list, for every traversal order of the map |
| DataFlowGraphs.RowFilled | crates/omniscope-dataflow/src/graph.rs:262-269 | filling one row leaves the rows already filled intact |
| DataFlowGraphs.BuildCsr | crates/omniscope-dataflow/src/graph.rs:247-269 | the frozen arrays answer every neighbour query, in range or not, with the map's list: same order, same repetitions |
| DataFlowGraphs.FreezingRefines | crates/omniscope-dataflow/src/graph.rs:197-232 | the frozen lookup refines the map lookup for every id |
| DataFlowGraphs.FreezingNothing | crates/omniscope-dataflow/src/graph.rs:244-302 | frozen empty maps answer every query with nothing |
| DataFlowGraphs.ThawRows | crates/omniscope-dataflow/src/graph.rs:316-330 | reads stay in range exactly when the node count is below the number of offsets; then the maps hold the frozen rows |
| DataFlowGraphs.ThawingRefines | crates/omniscope-dataflow/src/graph.rs:310-335 | thawed maps answer every query like the frozen rows they came from |
| DataFlowGraphs.NothingBeyondPush | crates/omniscope-dataflow/src/graph.rs:135-136 | linking existing nodes gives no neighbours to ids that do not exist |
| DataFlowGraphs.LinkKeepsTranspose | crates/omniscope-dataflow/src/graph.rs:134-136 | pushing to both lists keeps predecessors the exact multigraph transpose of successors |
| DataFlowGraphs.NodeKeepsView | crates/omniscope-dataflow/src/graph.rs:70-79 | a new node keeps the transpose and the edge records valid |
| DataFlowGraphs.NodeExtendsLists | crates/omniscope-dataflow/src/graph.rs:70-79 | after adding a node the adjacency lists agree with the nodes' edge-id lists if and only if the node came with empty edge-id lists |
| DataFlowGraphs.EdgeKeepsView | crates/omniscope-dataflow/src/graph.rs:91-140 | a new edge keeps the transpose and the edge records valid |
| DataFlowGraphs.EdgeExtendsLists | crates/omniscope-dataflow/src/graph.rs:116-138 | a new edge keeps both adjacency lists equal, in order, to the far ends of the nodes' edge-id lists |
| DataFlowGraphs.OutgoingExtends | crates/omniscope-dataflow/src/graph.rs:116-118 | the source's edge ids and successors grow together; other nodes' stay exact |
| DataFlowGraphs.IncomingExtends | crates/omniscope-dataflow/src/graph.rs:125-126 | the target's edge ids and predecessors grow together; other nodes' stay exact |
| DataFlowGraphs.EveryGraphAgrees | crates/omniscope-dataflow/src/graph.rs:70-140 | over every history of added nodes and edges: predecessors are the exact transpose of successors, and both agree, in order, with the nodes' edge-id lists |
| DataFlowGraphs.LinkedView | crates/omniscope-dataflow/src/graph.rs:116-138 | updating nodes and maps in place yields the view with the edge added |
| DataFlowGraphs.EmptiedIsValid | crates/omniscope-dataflow/src/graph.rs:295-301 | a graph whose lists were lost is still consistent with itself: nothing signals the loss |
| DataFlowGraphs.EmptiedIsSame | crates/omniscope-dataflow/src/graph.rs:295-301 | losing the lists changes nothing exactly when there were none |
| DataFlowGraphs.Values | crates/omniscope-dataflow/src/graph.rs:183-185 | all nodes, each once, in arbitrary order |
| DataFlowGraphs.DataFlowGraph.constructor | crates/omniscope-dataflow/src/graph.rs:52-67 | the empty graph: valid, not frozen, ids from 0 |
| DataFlowGraphs.DataFlowGraph.AddNode | crates/omniscope-dataflow/src/graph.rs:70-79 | next id, node stored under it, lists of all other nodes unchanged, frozen or not; the invariant of reachable states is kept |
| DataFlowGraphs.DataFlowGraph.SetEntry | crates/omniscope-dataflow/src/graph.rs:153-155 | only the entry changes |
| DataFlowGraphs.DataFlowGraph.SetExit | crates/omniscope-dataflow/src/graph.rs:158-160 | only the exit changes |
| DataFlowGraphs.DataFlowGraph.AllNodes | crates/omniscope-dataflow/src/graph.rs:183-185 | every node once, in arbitrary order |
| DataFlowGraphs.DataFlowGraph.Freeze | crates/omniscope-dataflow/src/graph.rs:244-302 | unfrozen: every successor and predecessor list of every id is preserved; already frozen: all lists become empty |
| DataFlowGraphs.DataFlowGraph.InvalidateCsr | crates/omniscope-dataflow/src/graph.rs:310-335 | succeeds exactly when unfrozen or at most one node was added since the freeze, and then undoes the freeze; otherwise every query keeps its answer, from the arrays, and the maps hold all their rows |
| DataFlowGraphs.DataFlowGraph.RebuildMaps | crates/omniscope-dataflow/src/graph.rs:314-330 | the loop fills the maps while the rows still answer every query; it reads past the offsets exactly when two or more nodes were added since the freeze, and then the maps hold all rows |
| DataFlowGraphs.DataFlowGraph.DropRows | crates/omniscope-dataflow/src/graph.rs:331-334 | clearing the rows leaves every query as it was, once the maps hold them |
| DataFlowGraphs.DataFlowGraph.Connect | crates/omniscope-dataflow/src/graph.rs:110-139 | both ends record the edge and join each other's lists; nothing else changes |
| DataFlowGraphs.DataFlowGraph.AddToThawed | crates/omniscope-dataflow/src/graph.rs:116-139 | on a graph that is not frozen the edge is recorded and the transpose invariant kept |
| DataFlowGraphs.DataFlowGraph.AddEdge | crates/omniscope-dataflow/src/graph.rs:91-140 | leaves the same adjacency whether or not the graph was frozen; panics exactly when frozen with two or more nodes added since; keeps the transpose invariant |
| DataFlowGraphs.RefreezingLosesEdges | crates/omniscope-dataflow/src/graph.rs:300-301 | a second freeze loses the only edge of this graph |
| DataFlowGraphs.TwoNewNodesPreventThawing | crates/omniscope-dataflow/src/graph.rs:315-318 | on any graph: freeze, two nodes, one edge, and the thawing loop reads out of range |
| Lattices.JoinIsUpperBound | crates/omniscope-dataflow/src/analysis.rs:24-25 | the order read off an idempotent, commutative, associative join makes the join an upper bound |
| Lattices.JoinIsLeast | crates/omniscope-dataflow/src/analysis.rs:24-25 | and the least one: below every value that is above both |
| Lattices.JoinIsMonotone | crates/omniscope-dataflow/src/analysis.rs:24-25 | join is monotone in both arguments |
| Lattices.LeqTransitive | crates/omniscope-dataflow/src/analysis.rs:24-25 | that order is transitive |
| Lattices.RankUpTo | crates/omniscope-dataflow/src/analysis.rs:10-48 | the longest strict chain below a value, as a number attained by a chain and exceeded by none |
| Lattices.RankAscends | crates/omniscope-dataflow/src/analysis.rs:10-48 | rank strictly grows along the order |
| FlatConstants.JoinQualifies | crates/omniscope-dataflow/src/analysis.rs:255-338 | the flat constant join of the tests is a semilattice join |
| FlatConstants.TransferQualifies | crates/omniscope-dataflow/src/analysis.rs:255-338 | its transfer is monotone |
| FlatConstants.BackwardQualifies | crates/omniscope-dataflow/src/analysis.rs:255-338 | the same for meet and backward transfer under the flipped order |
| FlatConstants.LevelsClimb | crates/omniscope-dataflow/src/analysis.rs:255-338 | a strict chain climbs a level per step |
| FlatConstants.LevelsFall | crates/omniscope-dataflow/src/analysis.rs:255-338 | a strict chain of the flipped order falls a level per step |
| FlatConstants.TestDomainQualifies | crates/omniscope-dataflow/src/analysis.rs:255-338 | the hypotheses of both analyses are satisfiable: the test domain has height 2 in both directions |
| Fixpoint.Reset | crates/omniscope-dataflow/src/analysis.rs:72-76 | every listed node gets the value, all other entries stay |
| Fixpoint.QuietThroughout | crates/omniscope-dataflow/src/analysis.rs:84-137 | if a sweep ends where it began, no visit in it changed anything |
| Fixpoint.QuietPrefix | crates/omniscope-dataflow/src/analysis.rs:85-136 | when a sweep in progress has returned to where it began, its last visit changed nothing |
| Fixpoint.QuietVisitSolves | crates/omniscope-dataflow/src/analysis.rs:88-136 | a visit that changes nothing solves the equations at its node |
| Fixpoint.QuietSweepSolves | crates/omniscope-dataflow/src/analysis.rs:84-137 | when a sweep changes nothing the facts solve the coded equations at every node |
| Fixpoint.SweepTouchesOnly | crates/omniscope-dataflow/src/analysis.rs:88-136 | a sweep changes no node it does not visit |
| Fixpoint.VisitAscends | crates/omniscope-dataflow/src/analysis.rs:113-135 | outputs ascend from the start |
| Fixpoint.VisitSettles | crates/omniscope-dataflow/src/analysis.rs:113-120 | a visit settles its node: from then on its input ascends too |
| Fixpoint.SweepAscends | crates/omniscope-dataflow/src/analysis.rs:88-136 | outputs ascend over a whole sweep |
| Fixpoint.StaysSettled | crates/omniscope-dataflow/src/analysis.rs:88-136 | a settled node's input ascends over later visits |
| Fixpoint.BecomesSettled | crates/omniscope-dataflow/src/analysis.rs:88-136 | after one sweep every node is settled, the entry that lost its initial value included |
| Fixpoint.WeightIsBounded | crates/omniscope-dataflow/src/analysis.rs:83-137 | the total rank is at most 2·N·H |
| Fixpoint.WeightAscends | crates/omniscope-dataflow/src/analysis.rs:83-137 | the total rank never falls, and grows if anything changed |
| Fixpoint.SweepClimbs | crates/omniscope-dataflow/src/analysis.rs:83-137 | from the second sweep on, a sweep that changes something raises the total rank |
| Fixpoint.SweepRuns | crates/omniscope-dataflow/src/analysis.rs:83-137 | each sweep either finishes in a solution or uses up one of the 2·N·H + 2 allowed |
| Fixpoint.SweepsStayBelow | crates/omniscope-dataflow/src/analysis.rs:71-138 | a run never rises above any solution |
| Fixpoint.FixpointIsLeast | crates/omniscope-dataflow/src/analysis.rs:71-138 | with a monotone transfer a run that ends in a solution ends in the least one |
| Fixpoint.RunsAgree | crates/omniscope-dataflow/src/analysis.rs:71-138 | two finished runs agree at every node for any visiting orders, any stale maps, and frozen or unfrozen graphs |
| Fixpoint.JoinOfIsUpperBound | crates/omniscope-dataflow/src/analysis.rs:100-111 | the fold over predecessors is above each predecessor's output |
| Fixpoint.JoinOfIsLeast | crates/omniscope-dataflow/src/analysis.rs:100-111 | and below every value that is above them all |
| Fixpoint.JoinOfIsLeastAbove | crates/omniscope-dataflow/src/analysis.rs:100-111 | a value is the least one above all predecessors' outputs if and only if it is the fold |
| Fixpoint.SolvesIffPromise | crates/omniscope-dataflow/src/analysis.rs:88-136 | facts solve the coded equations if and only if, at every node, the output is the transfer of the input and the input of a node with predecessors is the least value above their outputs |
| Fixpoint.LeastKeepsPromise | crates/omniscope-dataflow/src/analysis.rs:71-138 | so the least solution is the least of all facts that keep this promise, stated without the fold |
| Fixpoint.PathsAreSound | crates/omniscope-dataflow/src/analysis.rs:88-136 | for every path from a predecessor-free entry, loops included, the composed transfers of `initial` stay below the computed input |
| Fixpoint.PathsStayBelow | crates/omniscope-dataflow/src/analysis.rs:88-136 | soundness along every path that starts below its first node's computed input |
| Fixpoint.SoundIffEntryAboveInitial | crates/omniscope-dataflow/src/analysis.rs:88-136 | in any solution all paths from a node are sound if and only if the node's computed input is above `initial` |
| Fixpoint.EntryWithPredecessorsForgetsInitial | crates/omniscope-dataflow/src/analysis.rs:89-111 | an entry that has predecessors loses its boundary value: the solutions do not depend on `initial` |
| EntryBoundaries.PassThroughQualifies | crates/omniscope-dataflow/src/analysis.rs:10-48 | the pass-through domain meets every hypothesis |
| EntryBoundaries.NowhereIsLeast | crates/omniscope-dataflow/src/analysis.rs:89-111 | if the entry has predecessors, the pass-through analysis reaches no node |
| EntryBoundaries.FreeEntryIsKept | crates/omniscope-dataflow/src/analysis.rs:92-98 | an entry without predecessors keeps `initial` in every solution, in every domain |
| EntryBoundaries.KeptIffNoPredecessors | crates/omniscope-dataflow/src/analysis.rs:89-111 | the entry keeps `initial` in every analysis if and only if it has no predecessors |
| EntryBoundaries.SoundIffNoPredecessors | crates/omniscope-dataflow/src/analysis.rs:88-136 | all paths from the entry are sound in every analysis if and only if it has no predecessors |
| EntryBoundaries.LoopingEntryIsLost | crates/omniscope-dataflow/src/analysis.rs:89-111 | a run on an entry that loops to itself ends with bottom at the entry, not with `initial` |
| ExitBoundaries.BackPathIsReversed | crates/omniscope-dataflow/src/analysis.rs:184-236 | a path followed against its edges is a path of the reversed graph, with the transfers exchanged |
| ExitBoundaries.SoundIntoIsDual | crates/omniscope-dataflow/src/analysis.rs:184-236 | soundness of the paths into a node is soundness of the paths from it in the reversed dual |
| ExitBoundaries.SoundIffExitBelowInitial | crates/omniscope-dataflow/src/analysis.rs:184-236 | in any solution all paths into a node are sound if and only if the node's output is below `initial` |
| ExitBoundaries.BackwardPathsAreSound | crates/omniscope-dataflow/src/analysis.rs:184-236 | for every path, loops included, into an exit without successors, the composed backward transfers of `initial` stay above the computed output |
| ExitBoundaries.NowhereIsGreatest | crates/omniscope-dataflow/src/analysis.rs:190-210 | if the exit has successors, the pass-through analysis finds that no node reaches it |
| ExitBoundaries.ExitKeptIffNoSuccessors | crates/omniscope-dataflow/src/analysis.rs:190-210 | the exit keeps `initial` in every analysis if and only if it has no successors, although the comment at lines 190-192 speaks of the exit node |
| ExitBoundaries.ExitSoundIffNoSuccessors | crates/omniscope-dataflow/src/analysis.rs:184-236 | all paths into the exit are sound in every analysis if and only if it has no successors |
| ExitBoundaries.ExitWithSuccessorsForgetsInitial | crates/omniscope-dataflow/src/analysis.rs:190-210 | an exit that has successors loses its boundary value: the solutions do not depend on `initial` |
| ExitBoundaries.RunPassBack | crates/omniscope-dataflow/src/analysis.rs:172-237 | a run on any graph whose exit has successors ends with top at the exit, not with `initial` |
| ExitBoundaries.LoopingExitIsLost | crates/omniscope-dataflow/src/analysis.rs:172-237 | such a run exists: an exit that loops to itself |
| ForwardAnalyses.ForwardAnalysis.constructor | crates/omniscope-dataflow/src/analysis.rs:62-68 | empty maps |
| ForwardAnalyses.ForwardAnalysis.Initialise | crates/omniscope-dataflow/src/analysis.rs:72-81 | bottom everywhere, then the initial value at the entry, existing or not |
| ForwardAnalyses.ForwardAnalysis.ComputeInput | crates/omniscope-dataflow/src/analysis.rs:92-111 | own stored input, or bottom, without predecessors; otherwise the least value above all predecessors' outputs |
| ForwardAnalyses.ForwardAnalysis.Update | crates/omniscope-dataflow/src/analysis.rs:92-135 | one visit: what it stores and that it reports a change exactly when it changed something |
| ForwardAnalyses.ForwardAnalysis.SweepOnce | crates/omniscope-dataflow/src/analysis.rs:85-136 | one sweep and an exact change flag |
| ForwardAnalyses.ForwardAnalysis.Run | crates/omniscope-dataflow/src/analysis.rs:71-138 | terminates within 2·N·H + 2 sweeps, for every visiting order, in the least facts in which each output is the transfer of its input and each input of a node with predecessors is the least value above their outputs |
| BackwardAnalyses.MeetIsDualJoin | crates/omniscope-dataflow/src/analysis.rs:200-210 | the meet fold is the join fold of the flipped order |
| BackwardAnalyses.MeetOfIsGreatestBelow | crates/omniscope-dataflow/src/analysis.rs:200-210 | a value is the greatest one below all successors' inputs if and only if it is the fold |
| BackwardAnalyses.SolvesIffBackwardPromise | crates/omniscope-dataflow/src/analysis.rs:193-234 | facts solve the coded equations if and only if, at every node, the input is the backward transfer of the output and the output of a node with successors is the greatest value below their inputs |
| BackwardAnalyses.VisitDuality | crates/omniscope-dataflow/src/analysis.rs:193-234 | a backward visit is a forward visit of the reversed graph, flipped, with inputs and outputs exchanged |
| BackwardAnalyses.SweepDuality | crates/omniscope-dataflow/src/analysis.rs:187-236 | the same for a sweep |
| BackwardAnalyses.RunDuality | crates/omniscope-dataflow/src/analysis.rs:172-237 | the same for a whole run, step for step under the same orders |
| BackwardAnalyses.SolutionDuality | crates/omniscope-dataflow/src/analysis.rs:193-234 | the meet equations are the join equations of the dual |
| BackwardAnalyses.GreatestFromLeast | crates/omniscope-dataflow/src/analysis.rs:172-237 | the least dual solution is the greatest solution of the meet equations |
| BackwardAnalyses.BackwardRound | crates/omniscope-dataflow/src/analysis.rs:185-236 | one more backward sweep climbs in the dual or has reached a solution |
| BackwardAnalyses.BackwardRunIsGreatest | crates/omniscope-dataflow/src/analysis.rs:172-237 | a backward run that ends in a solution ends in the greatest one, and in the greatest facts that keep the promise stated without the fold |
| BackwardAnalyses.QuietBackwardPrefix | crates/omniscope-dataflow/src/analysis.rs:186-236 | the same for a backward sweep in progress |
| BackwardAnalyses.ReverseIsValid | crates/omniscope-dataflow/src/graph.rs:197-232 | the reversed graph is a valid graph, since predecessors are the transpose of successors |
| BackwardAnalyses.BackwardAnalysis.constructor | crates/omniscope-dataflow/src/analysis.rs:163-169 | empty maps |
| BackwardAnalyses.BackwardAnalysis.Initialise | crates/omniscope-dataflow/src/analysis.rs:173-182 | top everywhere, then the initial value at the exit's output |
| BackwardAnalyses.BackwardAnalysis.ComputeOutput | crates/omniscope-dataflow/src/analysis.rs:193-210 | own stored output, or top, without successors; otherwise the greatest value below all successors' inputs |
| BackwardAnalyses.BackwardAnalysis.Update | crates/omniscope-dataflow/src/analysis.rs:193-234 | one backward visit and an exact change flag |
| BackwardAnalyses.BackwardAnalysis.SweepOnce | crates/omniscope-dataflow/src/analysis.rs:186-236 | one backward sweep and an exact change flag |
| BackwardAnalyses.BackwardAnalysis.Run | crates/omniscope-dataflow/src/analysis.rs:172-237 | terminates within 2·N·H + 2 sweeps, for every visiting order, in the greatest facts in which each input is the backward transfer of its output and each output of a node with successors is the greatest value below their inputs |
| PassContexts.NothingSeen | crates/omniscope-pass/src/pass.rs:352-369 | a pass that looks at findings is shown nothing exactly when the context has none of the kind it looks at |
| PassContexts.ViewOfContinued | crates/omniscope-pass/src/pass.rs:352-369 | findings of other kinds put in front change nothing of what it is shown |
| PassContexts.StepTakesEffect | crates/omniscope-pass/src/pass.rs:321-376 | each call of a body: what it stores, appends or hands out, what it shows of data and findings, how the gate files an issue, and which branch goes on; nothing else changes |
| PassContexts.StepAppends | crates/omniscope-pass/src/pass.rs:321-376 | one call only appends findings, and looks at nothing but shared data, counter and the findings it asks for |
| PassContexts.ExecAppends | crates/omniscope-pass/src/pass.rs:321-376 | the same for a whole pass body that looks at no finding already there |
| PassContexts.ExecGrows | crates/omniscope-pass/src/pass.rs:321-376 | a pass body, whatever it looks at, forgets no key and never lowers the counter |
| PassContexts.CloneRunMerge | crates/omniscope-pass/src/pass.rs:725-784 | for a pass that looks at none of the findings there are, running on a clone and merging equals running on the context itself |
| PassContexts.CloneRunMergeIffUnseen | crates/omniscope-pass/src/pass.rs:725-784 | for all passes that look at certain kinds of findings this holds if and only if the context has none of them |
| PassContexts.PassContext.constructor | crates/omniscope-pass/src/pass.rs:211-224 | empty context, ids from 1 |
| PassContexts.PassContext.Store | crates/omniscope-pass/src/pass.rs:321-324 | only that key changes |
| PassContexts.PassContext.AddDiagnostic | crates/omniscope-pass/src/pass.rs:342-344 | appended; nothing else changes |
| PassContexts.PassContext.AddFact | crates/omniscope-pass/src/pass.rs:347-349 | appended; nothing else changes |
| PassContexts.PassContext.NextIssueId | crates/omniscope-pass/src/pass.rs:372-376 | hands out the counter and advances it |
| PassContexts.PassContext.EmitIssue | crates/omniscope-pass/src/pass.rs:392-617 | the issue goes to the end of one list, under the verdict of the gate on the stored `srt_resolutions`, and nothing else changes |
| PassContexts.PassContext.CloneForParallel | crates/omniscope-pass/src/pass.rs:725-738 | shared data and counter copied, the four finding lists empty |
| PassContexts.PassContext.Merge | crates/omniscope-pass/src/pass.rs:752-784 | findings appended; a key holds the merged value if that has one, else its own; the counter is the larger one |
| PassContexts.PassContext.Run | crates/omniscope-pass/src/pass.rs:321-376 | a pass body as the sequence of its context calls, those that read findings back included |
| DependencyGraphs.TopologicalExtends | crates/omniscope-pass/src/manager.rs:152-154 | a finished name whose dependencies are finished extends the order |
| DependencyGraphs.WalkDescends | crates/omniscope-pass/src/manager.rs:146-150 | along a dependency chain positions in a topological order fall |
| DependencyGraphs.TopologicalHasNoCycle | crates/omniscope-pass/src/manager.rs:105-112 | names that are topologically ordered lie on no cycle |
| DependencyGraphs.RepetitionIsCycle | crates/omniscope-pass/src/manager.rs:132-138 | a name met again on the current path closes a dependency cycle |
| DependencyGraphs.ChainsStep | crates/omniscope-pass/src/manager.rs:392-395 | chains from a name are within k + 1 exactly when it is registered and its dependencies' are within k |
| DependencyGraphs.RepetitionPumps | crates/omniscope-pass/src/manager.rs:384-414 | a chain that repeats a name can be made as long as wanted |
| DependencyGraphs.BoundedIffSchedulable | crates/omniscope-pass/src/manager.rs:384-414 | chain lengths are bounded exactly when all transitive dependencies are registered and acyclic |
| DependencyGraphs.SchedulableIffRegistered | crates/omniscope-pass/src/manager.rs:384-414 | without cycles a pass can be scheduled if and only if it and all its transitive dependencies are registered |
| DependencyGraphs.AllRegisteredIffReached | crates/omniscope-pass/src/manager.rs:384-414 | every dependency is registered exactly when registered names reach only registered names |
| PassManagers.Visit | crates/omniscope-pass/src/manager.rs:124-157 | terminates for every iteration order of the dependency sets; success extends a topological order by the name, failure exhibits a cycle |
| PassManagers.ToIndicesKeepsOrder | crates/omniscope-pass/src/manager.rs:114-118 | dropping unregistered names and mapping to indices keeps dependencies first |
| PassManagers.PassManager.ComputeOrder | crates/omniscope-pass/src/manager.rs:92-121 | fails exactly when a registered pass lies on or reaches a dependency cycle; otherwise every registered name once, dependencies first; on failure the old order stays |
| PassManagers.PassManager.ComputeLevels | crates/omniscope-pass/src/manager.rs:380-414 | each level holds exactly the passes that are in no earlier level and whose dependencies all are, in registration order, and after the last level no pass is due |
| PassManagers.CollectReady | crates/omniscope-pass/src/manager.rs:387-400 | exactly the passes not completed whose dependencies are, in registration order |
| PassManagers.ReadyBelowMembers | crates/omniscope-pass/src/manager.rs:387-400 | the ready indices, each once |
| PassManagers.ReadyBelowAscends | crates/omniscope-pass/src/manager.rs:388-399 | in registration order |
| PassManagers.CompletedIffDone | crates/omniscope-pass/src/manager.rs:384-410 | the completed names are those of passes in earlier levels |
| PassManagers.MarkCompleted | crates/omniscope-pass/src/manager.rs:406-408 | the level's names are added |
| PassManagers.NothingLeft | crates/omniscope-pass/src/manager.rs:384 | once as many names are completed as passes registered, a further level would be empty |
| PassManagers.CompletedIffChainsWithin | crates/omniscope-pass/src/manager.rs:384-410 | after k levels a name is completed exactly when its dependency chains have at most k names, all registered |
| PassManagers.LevelIsLongestChain | crates/omniscope-pass/src/manager.rs:384-410 | a pass's level is the length of its longest dependency chain |
| PassManagers.PlacedIffSchedulable | crates/omniscope-pass/src/manager.rs:380-414 | placed exactly when all transitive dependencies are registered and acyclic |
| PassManagers.PlacedIffRegistered | crates/omniscope-pass/src/manager.rs:92-121 | a sequential run has every pass; a parallel run has a pass if and only if all its transitive dependencies are registered |
| PassManagers.SamePassesIffAllRegistered | crates/omniscope-pass/src/manager.rs:380-414 | so both modes run the same passes if and only if every dependency is registered |
| PassManagers.UnregisteredDependencyDropsPass | crates/omniscope-pass/src/manager.rs:389-395 | a pass with an unregistered dependency is in the execution order and in no level |
| PassManagers.PlacedOnce | crates/omniscope-pass/src/manager.rs:388-399 | a pass occurs in one level, once |
| PassManagers.DependenciesInEarlierLevels | crates/omniscope-pass/src/manager.rs:392-395 | every dependency is in an earlier level |
| PassManagers.LevelFallsAlongWalk | crates/omniscope-pass/src/manager.rs:380-414 | any schedule that respects dependencies needs a level per name of a chain |
| PassManagers.LevelsAreFewest | crates/omniscope-pass/src/manager.rs:380-414 | no schedule that respects dependencies places a pass earlier |
| PassRunners.NeverAddedIsLacked | crates/omniscope-pass/src/pass.rs:342-349 | a pass that never adds findings of a kind leaves a context without them |
| PassRunners.LastLooksAtNothing | crates/omniscope-pass/src/manager.rs:335-373 | a pass that looks only at findings which neither the start nor earlier passes have is shown none |
| PassRunners.SequentialIsLevelled | crates/omniscope-pass/src/manager.rs:335-373 | if no pass looks at findings of others, the sequential run is the level run with one pass per level |
| PassRunners.UnwrittenKeyIsKept | crates/omniscope-pass/src/pass.rs:321-324 | a pass that never stores a key leaves it as it was |
| PassRunners.MergeAddsFindings | crates/omniscope-pass/src/pass.rs:752-759 | merging adds the findings up |
| PassRunners.StepShowsTheSame | crates/omniscope-pass/src/pass.rs:342-359 | equal calls, up to ids, show a pass equal findings, up to ids |
| PassRunners.EqualViewsEqualFindings | crates/omniscope-pass/src/pass.rs:392-617 | passes alike up to ids that see equal values and equal findings make the same findings up to ids |
| PassRunners.EqualViewsEqualWrites | crates/omniscope-pass/src/pass.rs:321-338 | and store the same values |
| Schedules.LevelKeepsKey | crates/omniscope-pass/src/manager.rs:292-334 | a key that no pass of a level writes keeps its value |
| Schedules.LevelWritesKey | crates/omniscope-pass/src/manager.rs:292-334 | a key with one writer in the level gets that writer's value if it is new or the writer is last |
| Schedules.PresentKeyIsDecidedByLastClone | crates/omniscope-pass/src/pass.rs:763-766 | a key that was there before a level ends with the value in the level's last clone |
| Schedules.UpdateSurvivesIffLast | crates/omniscope-pass/src/pass.rs:763-766 | an update of a key that was there survives its level if and only if the writer is the level's last pass or leaves the old value |
| Schedules.UnwrittenBefore | crates/omniscope-pass/src/manager.rs:292-334 | a key nobody has written so far is as before the run |
| Schedules.WriterDecides | crates/omniscope-pass/src/manager.rs:292-334 | after its level a key holds what its only writer in that level left there |
| Schedules.LastWriterDecides | crates/omniscope-pass/src/manager.rs:275-377 | a written key holds what its last writer left there |
| Confluence.OthersAreEarlier | crates/omniscope-pass/src/manager.rs:380-414 | every other writer before a point comes before the last one |
| Confluence.SameLastWriter | crates/omniscope-pass/src/manager.rs:275-377 | two points of two schedules with the same writers before them have the same last writer |
| Confluence.ClonesRunAlike | crates/omniscope-pass/src/pass.rs:725-738 | clones that agree on all keys a pass accesses end with the same findings and the same values |
| Confluence.ValuesAgree | crates/omniscope-pass/src/manager.rs:275-377 | two points of two schedules with the same writers before them hold the same value |
| Confluence.PassSeesTheSame | crates/omniscope-pass/src/manager.rs:275-377 | a pass sees the same value under every key it accesses in two schedules that place writers alike |
| Confluence.SchedulesEndInOneStore | crates/omniscope-pass/src/manager.rs:275-377 | two such schedules end with the same shared store |
| Confluence.ScheduleFindings | crates/omniscope-pass/src/manager.rs:275-377 | the findings of a schedule are those of its passes' runs, whatever their order |
| Confluence.PassFindsTheSame | crates/omniscope-pass/src/manager.rs:275-377 | a pass makes the same findings in two such schedules, up to ids |
| Totals.TotalOfPermutation | crates/omniscope-pass/src/manager.rs:325-326 | findings add up the same in any order of the passes |
| Totals.WithoutLastIndex | crates/omniscope-pass/src/manager.rs:325-326 | a permutation of the passes loses one pass and stays one |
| Agreement.SchedulesAgree | crates/omniscope-pass/src/manager.rs:275-377 | any two dependency-respecting schedules that place the writers of a key alike around every pass that accesses it leave the same store and the same findings up to order and ids; several passes may write a key |
| Agreement.LevelsAreSchedule | crates/omniscope-pass/src/manager.rs:380-414 | the greedy levels are such a schedule |
| Agreement.OrderIsSchedule | crates/omniscope-pass/src/manager.rs:92-121 | so is the depth-first execution order |
| Agreement.ParallelEqualsSequential | crates/omniscope-pass/src/manager.rs:275-377 | sequential and level-parallel execution agree: same shared store, same findings up to order and ids; both place the writers of a key alike around every pass that accesses it, updates come last in their level, and no pass looks at findings of others |
| Agreement.WalkGoesEarlier | crates/omniscope-pass/src/manager.rs:380-414 | a transitive dependency is placed in an earlier level |
| Agreement.OrderDecides | crates/omniscope-pass/src/manager.rs:380-414 | of two passes of which one depends on the other, the dependency is placed first in every schedule |
| Agreement.RaceFreeIsPlacedAlike | crates/omniscope-pass/src/manager.rs:380-414 | passes of which one depends on the other whenever they access a common key, one of them writing, are placed alike by all schedules |
| Agreement.RaceFreeHasOneWriter | crates/omniscope-pass/src/manager.rs:380-414 | and no level has two writers of a key |
| Agreement.RaceFreeSchedulesAgree | crates/omniscope-pass/src/manager.rs:275-377 | so they leave the same store and findings under all schedules in which updates come last |
| RunExamples.ReportIsAlike | crates/omniscope-pass/src/analysis/mod.rs:623-651 | a pass that takes an id, records it in a fact and emits an issue under it does not depend on ids |
| RunExamples.CollectorIsAlike | crates/omniscope-pass/src/resource/raw_fact_collector.rs:363-382 | nor does a pass that collects raw facts from legacy facts, since it copies no ids |
| RunExamples.CollectorRuns | crates/omniscope-pass/src/resource/raw_fact_collector.rs:363-382 | it stores one raw fact for each legacy fact it is shown |
| RunExamples.DependentPairTakesTwoLevels | crates/omniscope-pass/src/manager.rs:92-121 | two passes of which one depends on the other: no cycle, all registered, execution order and levels |
| RunExamples.PipelineMeetsHypotheses | crates/omniscope-pass/src/analysis/mod.rs:76-78 | all hypotheses of the agreement theorem are met by a collector of raw facts and a pass that refines its result and reports, in every context without legacy facts |
| RunExamples.FactsNeverReachLaterLevels | crates/omniscope-pass/src/resource/raw_fact_collector.rs:363-382 | a fact recorded by a dependency is collected in a sequential run and missed in a parallel one |
| RunExamples.IndependentPairSharesALevel | crates/omniscope-pass/src/manager.rs:387-410 | two passes without dependencies share the only level |
| RunExamples.StaleCopyUndoesUpdate | crates/omniscope-pass/src/pass.rs:763-766 | why an update of an existing key must come last: a later peer's stale copy undoes it, and the two modes differ |
| RunExamples.UndeclaredReadRaces | crates/omniscope-pass/src/pass.rs:398-404 | a pass that emits without depending on the pass that stores the gate's resolutions: its issue is suppressed in a sequential run and let pass in a parallel one |
| RunExamples.ReaderFindsIffPlacedBefore | crates/omniscope-pass/src/manager.rs:292-334 | a pass finds a value exactly when its writer is placed in an earlier level |
| RunExamples.AgreeIffPlacedAlike | crates/omniscope-pass/src/manager.rs:275-377 | for a pass that stores and one that tells whether the value is there, two schedules agree if and only if they place the writer alike |
| Conservation.SelectPartitions | crates/omniscope-pass/src/pass.rs:392-617 | allowed and suppressed emissions together are all emissions |
| Conservation.ExecFilesEmissions | crates/omniscope-pass/src/pass.rs:392-617 | a pass appends to each list exactly what it emitted with that verdict, in order |
| Conservation.LevelFilesEmissions | crates/omniscope-pass/src/manager.rs:325-326 | a level appends its passes' emissions in level order |
| Conservation.RunFilesEmissions | crates/omniscope-pass/src/manager.rs:290-334 | both lists are the level-ordered concatenation of what was emitted |
| Conservation.EmissionsAreConserved | crates/omniscope-pass/src/manager.rs:290-334 | each list is the emitted issues with its verdict, in level order, and together they are all emissions |
| Conservation.IdsAreConsecutive | crates/omniscope-pass/src/pass.rs:372-376 | a pass is handed consecutive ids from its context's counter |
| Conservation.SameLevelIdsCollide | crates/omniscope-pass/src/pass.rs:778-781 | two passes of one level that each take an id take the same first one, although the comment at lines 744-747 promises no collisions |
| Conservation.TwoReportersCollide | crates/omniscope-pass/src/pass.rs:733 | a run of two independent reporters files two issues with the same id |
| Conservation.IdsDifferIffOneTakerPerLevel | crates/omniscope-pass/src/pass.rs:778-781 | all ids handed out in a parallel run differ if and only if each level has at most one pass that takes one |
| Conservation.ReportFilesOne | crates/omniscope-pass/src/pass.rs:392-617 | whatever the gate decides, one report is filed, under the next id |
| Conservation.LevelCounterPassesIds | crates/omniscope-pass/src/pass.rs:778-781 | after a level the counter exceeds every id handed out in it |
| Conservation.CounterNeverFalls | crates/omniscope-pass/src/pass.rs:778-781 | the counter never falls over levels |
| Conservation.LevelsNeverShareIds | crates/omniscope-pass/src/manager.rs:290-334 | ids handed out in different levels differ |
| ParallelRunners.RunSequentially | crates/omniscope-pass/src/manager.rs:335-373 | the sequential branch computes the sequential run |
| ParallelRunners.CloneAll | crates/omniscope-pass/src/manager.rs:294-296 | fresh clones of the context, one per pass |
| ParallelRunners.RunClones | crates/omniscope-pass/src/manager.rs:298-322 | each clone ends as its pass alone would leave it, in any order of execution |
| ParallelRunners.RunOneLevel | crates/omniscope-pass/src/manager.rs:292-334 | clone, run, merge in level order computes the level run |
| ParallelRunners.RunInParallel | crates/omniscope-pass/src/manager.rs:282-334 | the parallel branch computes the level run of the greedy levels |
| Msgpack.NumberOfBigEndian | tools/ir_extractor/ir_extractor.cpp:54-66 | the written bytes denote the value modulo 256^k, for negative values too |
| Msgpack.BigEndianByte | tools/ir_extractor/ir_extractor.cpp:54-66 | the i-th shifted and masked byte is the i-th big-endian digit |
| Msgpack.MsgpackWriter.WriteNil | tools/ir_extractor/ir_extractor.cpp:45 | appends exactly the specified bytes; the lemmas below read them back |
| Msgpack.MsgpackWriter.WriteBool | tools/ir_extractor/ir_extractor.cpp:46 | appends exactly the specified bytes; the lemmas below read them back |
| Msgpack.MsgpackWriter.WriteInt | tools/ir_extractor/ir_extractor.cpp:48-68 | appends exactly the specified bytes; the lemmas below read them back |
| Msgpack.MsgpackWriter.WriteUint | tools/ir_extractor/ir_extractor.cpp:70-89 | appends exactly the specified bytes; the lemmas below read them back |
| Msgpack.MsgpackWriter.WriteStr | tools/ir_extractor/ir_extractor.cpp:91-107 | appends exactly the specified bytes; the lemmas below read them back |
| Msgpack.MsgpackWriter.WriteBin | tools/ir_extractor/ir_extractor.cpp:109-124 | appends exactly the specified bytes; the lemmas below read them back |
| Msgpack.MsgpackWriter.WriteArrayHeader | tools/ir_extractor/ir_extractor.cpp:126-139 | appends exactly the specified bytes; the lemmas below read them back |
| Msgpack.MsgpackWriter.WriteMapHeader | tools/ir_extractor/ir_extractor.cpp:141-154 | appends exactly the specified bytes; the lemmas below read them back |
| Msgpack.MsgpackWriter.WriteShifted | tools/ir_extractor/ir_extractor.cpp:65 | the shift loop appends the value's k big-endian bytes |
| Msgpack.ReadUint | tools/ir_extractor/ir_extractor.cpp:70-89 | every 64-bit unsigned number followed by any suffix reads back, leaving the suffix |
| Msgpack.ReadInt | tools/ir_extractor/ir_extractor.cpp:48-68 | every 64-bit signed number followed by any suffix reads back, leaving the suffix |
| Msgpack.SignedModulo | tools/ir_extractor/ir_extractor.cpp:48-68 | two's complement recovers the sign |
| Msgpack.ReadStrHeader | tools/ir_extractor/ir_extractor.cpp:91-105 | the length reads back modulo 2^32 |
| Msgpack.ReadBinHeader | tools/ir_extractor/ir_extractor.cpp:109-122 | the length reads back modulo 2^32 |
| Msgpack.ReadArrayHeader | tools/ir_extractor/ir_extractor.cpp:126-139 | the count reads back modulo 2^32 |
| Msgpack.ReadMapHeader | tools/ir_extractor/ir_extractor.cpp:141-154 | the count reads back modulo 2^32 |
| Msgpack.StringsRoundTrip | tools/ir_extractor/ir_extractor.cpp:91-107 | string and suffix read back if and only if the length is below 2^32 |
| Msgpack.LongStringIsLost | tools/ir_extractor/ir_extractor.cpp:91-107 | a string of 2^32 bytes reads back as the empty string, all its bytes left over |
| Msgpack.BinariesRoundTrip | tools/ir_extractor/ir_extractor.cpp:109-124 | bytes and suffix read back if and only if the length is below 2^32 |
| Msgpack.UintIsShortest | tools/ir_extractor/ir_extractor.cpp:70-89 | no accepted encoding of the number is shorter |
| Msgpack.DecodesBack | tools/ir_extractor/ir_extractor.cpp:39-155 | every value within the format's limits decodes back, for every suffix |
| Msgpack.ItemsDecodeBack | tools/ir_extractor/ir_extractor.cpp:126-139 | n array items decode back, leaving the suffix |
| Msgpack.EntriesDecodeBack | tools/ir_extractor/ir_extractor.cpp:141-154 | n map entries decode back, leaving the suffix |
| Msgpack.DecodedFits | tools/ir_extractor/ir_extractor.cpp:39-155 | the decoder only returns values within the limits |
| Msgpack.RoundTrip | tools/ir_extractor/ir_extractor.cpp:39-155 | value and suffix decode back if and only if the value is within the limits |
| ModuleDocuments.CountFields | tools/ir_extractor/ir_extractor.cpp:974-1014 | the announced count equals the number of fields written, over all combinations of optional fields |
| ModuleDocuments.FindRootType | tools/ir_extractor/ir_extractor.cpp:1045-1050 | the type under all nested casts |
| ModuleDocuments.WriteGepIndex | tools/ir_extractor/ir_extractor.cpp:1079-1083 | one index entry, "unknown" when no type is selected |
| ModuleDocuments.WriteGepIndices | tools/ir_extractor/ir_extractor.cpp:1071-1084 | one entry per index operand |
| ModuleDocuments.WriteGep | tools/ir_extractor/ir_extractor.cpp:1054-1085 | a well-formed map of three fields |
| ModuleDocuments.WriteCallee | tools/ir_extractor/ir_extractor.cpp:1088-1117 | callee and is_indirect, direct or indirect |
| ModuleDocuments.WriteRequiredFields | tools/ir_extractor/ir_extractor.cpp:1018-1042 | the five required fields in order; what they hold, `Documents.InstructionReads` says |
| ModuleDocuments.WriteOptionalFields | tools/ir_extractor/ir_extractor.cpp:1044-1139 | the optional fields that are present, in order |
| ModuleDocuments.WriteInstruction | tools/ir_extractor/ir_extractor.cpp:973-1140 | appends the encoding of the instruction's map; what it holds, `Documents.InstructionReads` says |
| ModuleDocuments.WriteBlock | tools/ir_extractor/ir_extractor.cpp:1143-1178 | appends the encoding of the block: counted instructions with ids 0, 1, ... and successors |
| ModuleDocuments.WriteFunction | tools/ir_extractor/ir_extractor.cpp:1181-1235 | appends the encoding of the function, seven fields with blocks or six without |
| ModuleDocuments.WriteDeclaration | tools/ir_extractor/ir_extractor.cpp:1238-1261 | appends the encoding of the declaration |
| ModuleDocuments.WriteNamedStructs | tools/ir_extractor/ir_extractor.cpp:1264-1280 | the separately counted structs are the ones written |
| ModuleDocuments.CountStructs | tools/ir_extractor/ir_extractor.cpp:1265-1269 | counts the structs the second loop writes |
| ModuleDocuments.WriteGlobals | tools/ir_extractor/ir_extractor.cpp:1283-1302 | the counted globals are the ones written |
| ModuleDocuments.CountSelected | tools/ir_extractor/ir_extractor.cpp:1401-1415 | both counts equal the numbers of functions and declarations the later loops write, for every slice and skip list |
| ModuleDocuments.WriteFunctions | tools/ir_extractor/ir_extractor.cpp:1431-1446 | appends exactly the selected definitions |
| ModuleDocuments.WriteDeclarations | tools/ir_extractor/ir_extractor.cpp:1451-1460 | appends exactly the selected declarations |
| ModuleDocuments.WriteModule | tools/ir_extractor/ir_extractor.cpp:1397-1468 | appends the encoding of the module's value |
| Documents.KeySpells | tools/ir_extractor/ir_extractor.cpp:91-107 | a written field name is read under that name and no other |
| Documents.AllReadIffEach | tools/ir_extractor/ir_extractor.cpp:126-139 | a list is read if and only if each item is, and then item by item, in order |
| Documents.IndexReads | tools/ir_extractor/ir_extractor.cpp:1079-1083 | an index entry reads back as the operand's text and the selected type, or "unknown" |
| Documents.GepReads | tools/ir_extractor/ir_extractor.cpp:1054-1085 | so do the source type, the flag and the index operands after the base, in order |
| Documents.RootTypeIsUnique | tools/ir_extractor/ir_extractor.cpp:1045-1050 | the source type is the type at the end of the chain of casts, and no other |
| Documents.CalleeTextsRead | tools/ir_extractor/ir_extractor.cpp:1088-1117 | the callees read back, that of a call before that of an invoke |
| Documents.CalleeMarksRead | tools/ir_extractor/ir_extractor.cpp:1088-1117 | and whether each is indirect |
| Documents.InstructionReads | tools/ir_extractor/ir_extractor.cpp:973-1140 | every field of an instruction reads back by name: id, opcode, result type, operand texts and types in order, and each optional field exactly when it is there |
| Documents.BlockReads | tools/ir_extractor/ir_extractor.cpp:1143-1178 | a block reads back as its label, its instructions in order with ids 0, 1, ..., and its successors |
| Documents.FunctionReads | tools/ir_extractor/ir_extractor.cpp:1181-1235 | a function reads back field by field, its blocks in order exactly if it is a definition |
| Documents.DeclarationReads | tools/ir_extractor/ir_extractor.cpp:1238-1261 | so does a declaration |
| Documents.GlobalReads | tools/ir_extractor/ir_extractor.cpp:1283-1302 | so does a global |
| Documents.FunctionsRead | tools/ir_extractor/ir_extractor.cpp:1431-1446 | the functions that read back are exactly the selected definitions, in order |
| Documents.DeclarationsRead | tools/ir_extractor/ir_extractor.cpp:1451-1460 | the declarations are exactly the selected ones, in order |
| Documents.StructsRead | tools/ir_extractor/ir_extractor.cpp:1264-1280 | the structs are exactly the named ones that are not opaque, in order, with their fields |
| Documents.ModuleReads | tools/ir_extractor/ir_extractor.cpp:1397-1468 | reading a module's value gives back triple, layout, selected functions and declarations, structs and globals |
| Documents.ReadModuleFits | tools/ir_extractor/ir_extractor.cpp:39-155 | whatever reads from a value within the format's limits is within them |
| Documents.ModuleValueFits | tools/ir_extractor/ir_extractor.cpp:1397-1468 | the value is within the limits if what reads from it is |
| Documents.ReadDocumentFits | tools/ir_extractor/ir_extractor.cpp:39-155 | so no document reads as a module outside the limits |
| Documents.WriteDocument | tools/ir_extractor/ir_extractor.cpp:1397-1468 | a reading holds exactly the selected part of the module tree, field by field, and the document reads as it, by field names and with no byte left over, if and only if its strings and counts are within the format's limits |
| FfiClosures.BuildCallGraphs | tools/ir_extractor/ir_extractor.cpp:523-532 | edges are exactly the calls of defined functions, and the reverse graph is the exact converse |
| FfiClosures.AddCalls | tools/ir_extractor/ir_extractor.cpp:528-531 | one function's calls enter both graphs |
| FfiClosures.BallIsCallPaths | tools/ir_extractor/ir_extractor.cpp:643-666 | the h-round ball is the set of names with a call path of at most h edges to the target |
| FfiClosures.InsertExtends | tools/ir_extractor/ir_extractor.cpp:529-530 | inserting a call into both graphs keeps them converse |
| FfiClosures.CallersOfOneMore | tools/ir_extractor/ir_extractor.cpp:648-649 | one more target adds exactly its reverse edges |
| FfiClosures.BallHasPath | tools/ir_extractor/ir_extractor.cpp:643-666 | every name of the ball has such a path |
| FfiClosures.PathIsInBall | tools/ir_extractor/ir_extractor.cpp:643-666 | every such path starts in the ball |
| FfiClosures.ExpandIsSound | tools/ir_extractor/ir_extractor.cpp:643-666 | a search adds only defined functions of the ball, whatever was selected before |
| FfiClosures.ExpandIsBall | tools/ir_extractor/ir_extractor.cpp:643-666 | a search from the target alone finds the whole ball |
| FfiClosures.AddCallersOf | tools/ir_extractor/ir_extractor.cpp:646-664 | one round adds exactly the callers not selected yet |
| FfiClosures.AddBackwardClosure | tools/ir_extractor/ir_extractor.cpp:643-666 | the loop computes the bounded search |
| FfiClosures.FoundByPath | tools/ir_extractor/ir_extractor.cpp:643-666 | every name a search adds has a chain of 1 to h calls into its start on which no earlier name was selected |
| FfiClosures.PathIsFound | tools/ir_extractor/ir_extractor.cpp:643-666 | every name with such a chain is added |
| FfiClosures.ExpandIsUnblocked | tools/ir_extractor/ir_extractor.cpp:643-666 | a search finds exactly the selected names and those with such a chain |
| FfiClosures.ForwardRound | tools/ir_extractor/ir_extractor.cpp:619-634 | one forward round adds exactly the callees not selected yet; the test for a caller rejects none |
| FfiClosures.AddForwardClosure | tools/ir_extractor/ir_extractor.cpp:615-639 | the loop reaches exactly the selected names and those with a chain of at most h calls on which no later name was selected |
| FfiClosures.ForwardIsUnblocked | tools/ir_extractor/ir_extractor.cpp:615-639 | the forward search reaches exactly those names |
| FfiClosures.SearchesAfterLeast | tools/ir_extractor/ir_extractor.cpp:704-716 | taking the least remaining name first is searching the seeds in ascending order |
| FfiClosures.ExpandSeeds | tools/ir_extractor/ir_extractor.cpp:704-716 | searches from the accepted seeds one after the other, in ascending order, as ordered sets do |
| FfiClosures.ExpandAllIsUnblocked | tools/ir_extractor/ir_extractor.cpp:681-716 | for any seeds: a name is selected if and only if it is a seed or has a chain of at most MaxHops calls to a resource seed that avoids everything selected before that seed's search |
| FfiClosures.ExpandAllIsSound | tools/ir_extractor/ir_extractor.cpp:681-716 | every added name is a defined function within MaxHops calls of some resource seed |
| FfiClosures.BallIsCompleteIffUnblocked | tools/ir_extractor/ir_extractor.cpp:681-716 | a seed's ball is complete after its search if and only if each of its names was selected or has a chain that avoids what was |
| FfiClosures.SliceIsUnionIffUnblocked | tools/ir_extractor/ir_extractor.cpp:681-716 | the slice is the seeds and all balls if and only if each name of a ball is a seed or has such a chain to some resource seed |
| FfiClosures.SearchAddsBallIff | tools/ir_extractor/ir_extractor.cpp:643-666 | a search adds its whole ball if and only if every name of it is selected or has a chain that avoids what is |
| FfiClosures.EveryPrefixIsUnionIff | tools/ir_extractor/ir_extractor.cpp:681-716 | after every search the slice is the seeds and the whole balls searched so far, if and only if each name of the next ball is in those or has a chain that avoids them: a condition on graph and seeds alone |
| FfiClosures.LoneTargetReachesAll | tools/ir_extractor/ir_extractor.cpp:643-666 | a search completes its ball if only its target was selected |
| FfiClosures.BallsApartAreUnblocked | tools/ir_extractor/ir_extractor.cpp:681-716 | so no ball is blocked if balls meet neither seeds nor one another, their own targets aside |
| FfiClosures.OneResourceSeed | tools/ir_extractor/ir_extractor.cpp:681-716 | one resource seed beside any other seeds: selected are exactly the seeds and the names with a chain to it on which no other name is a seed |
| FfiClosures.ComputeFfiClosure | tools/ir_extractor/ir_extractor.cpp:607-719 | the searches from exactly the allocator seeds of the module in ascending order, then from exactly the freer seeds in ascending order; keeps all seeds; every other name is a defined function within MaxHops calls of an allocator or freer seed; exactly the seeds and all balls if no ball is blocked; a single seed gives exactly its ball |
| FfiClosures.SliceIsJustified | tools/ir_extractor/ir_extractor.cpp:681-716 | seeds are kept and additions are justified by an allocator or freer seed |
| FfiClosures.OnlySeedGivesBall | tools/ir_extractor/ir_extractor.cpp:681-716 | when the resource seed is the only seed the slice is its ball |
| FfiClosures.SingleSeed | tools/ir_extractor/ir_extractor.cpp:704-716 | a seed that is allocator and freer is searched twice to no further effect |
| FfiClosures.SecondSeedIsBlocked | tools/ir_extractor/ir_extractor.cpp:650-657 | "calloc", searched first, selects a caller of "malloc" in its last round, so a name two calls from "malloc" is missed |
| FfiClosures.AllocatorsComeFirst | tools/ir_extractor/ir_extractor.cpp:704-716 | "malloc" is searched before "free": "helper" and "wrapper" are taken, and "user", which calls "wrapper", is not; the other order would select it |
| NameOrders.SortedAscends | tools/ir_extractor/ir_extractor.cpp:691-702 | the order in which sets and maps of names are traversed is ascending: each name before the next |
| NameOrders.SortedAscendsThroughout | tools/ir_extractor/ir_extractor.cpp:691-702 | and before all later ones |
| NameOrders.BeforeIffFirstDifference | tools/ir_extractor/ir_extractor.cpp:691-702 | names are compared at the first character in which they differ, a proper prefix first |
| NameOrders.FindLeast | tools/ir_extractor/ir_extractor.cpp:691-702 | the next name of an ordered set is its least |
| FfiClosures.SelectDeclarations | tools/ir_extractor/ir_extractor.cpp:1354-1367 | exactly the declarations that selected functions call |
| FactStores.WithoutMembers | crates/omniscope-core/src/fact.rs:235-241 | `retain` removes the id and nothing else and repeats nothing |
| FactStores.StartAddKeepsInv | crates/omniscope-core/src/fact.rs:168-169 | handing out an id keeps the invariant |
| FactStores.AddKeepsInv | crates/omniscope-core/src/fact.rs:171-181 | each of the three later steps of `add` keeps the invariant |
| FactStores.StartRemoveKeepsInv | crates/omniscope-core/src/fact.rs:231 | taking the fact out keeps the invariant |
| FactStores.DropKeepsInv | crates/omniscope-core/src/fact.rs:233-241 | each index removal keeps the invariant |
| FactStores.StartQueryKeepsInv | crates/omniscope-core/src/fact.rs:192-206 | a query copies a list that holds every stored fact with its key; that it does, `FactHistories.QueryFindsAll` says without the promise recorded here |
| FactStores.LookKeepsInv | crates/omniscope-core/src/fact.rs:192-206 | each lookup keeps the query sound and complete |
| FactStores.StepKeepsInv | crates/omniscope-core/src/fact.rs:167-244 | every atomic step of every thread keeps the invariant |
| FactStores.RunKeepsInv | crates/omniscope-core/src/fact.rs:167-244 | so does every interleaving of any number of threads |
| FactStores.StoredIsListed | crates/omniscope-core/src/fact.rs:167-244 | at every moment each stored fact is listed under its kind and its file, and lists hold only ids with their key, none twice |
| FactStores.QuietIndexIsExact | crates/omniscope-core/src/fact.rs:167-244 | with no call in flight a list holds exactly the stored ids with its key, each once |
| FactStores.QueryAnswers | crates/omniscope-core/src/fact.rs:192-206 | a finished query returns only facts of its key, no id twice, and every fact it owes that is still stored; from the histories alone, `FactHistories.QueryFindsAll` and `QueryFindsOnly` |
| FactStores.NextIdIsFresh | crates/omniscope-core/src/fact.rs:168 | no id is handed out twice |
| FactStores.RemovedForGood | crates/omniscope-core/src/fact.rs:230-244 | a removed fact never comes back, whatever is interleaved |
| FactStores.AddRunsThrough | crates/omniscope-core/src/fact.rs:167-184 | `add` run alone, from its four steps |
| FactStores.RemoveRunsThrough | crates/omniscope-core/src/fact.rs:230-244 | `remove` run alone, from its three steps |
| FactStores.FactStore.constructor | crates/omniscope-core/src/fact.rs:157-164 | an empty store, ids from 1 |
| FactStores.FactStore.Add | crates/omniscope-core/src/fact.rs:167-184 | run alone: a fresh id, the fact stored under it, one entry appended to each index, invariant kept |
| FactStores.FactStore.Remove | crates/omniscope-core/src/fact.rs:230-244 | run alone: the fact and its two index entries go, invariant kept |
| FactStores.FactStore.Query | crates/omniscope-core/src/fact.rs:192-206 | run alone: exactly the stored facts with the key, each once |
| FactHistories.StepIsPossible | crates/omniscope-core/src/fact.rs:167-244 | a thread can start a call exactly when it is idle, and continue exactly when it is not |
| FactHistories.QueryFindsAll | crates/omniscope-core/src/fact.rs:192-206 | over every interleaving: every fact that is stored with the key when an idle thread starts a query, and still when the query has looked up all, is found |
| FactHistories.FoundWasStored | crates/omniscope-core/src/fact.rs:192-206 | every fact found was stored at some moment of the query |
| FactHistories.QueryFindsOnly | crates/omniscope-core/src/fact.rs:192-206 | a query that has looked up all found facts of its key only, each stored at some moment of the query, no id twice |
| FactHistories.FactsAreFixed | crates/omniscope-core/src/fact.rs:167-181 | the fact handed to an id never changes |
| FactHistories.AddProceeds | crates/omniscope-core/src/fact.rs:167-184 | whatever is interleaved, an `add` goes through its steps one after the other, under the id that was next when it began |
| FactHistories.AddStores | crates/omniscope-core/src/fact.rs:167-184 | over every interleaving: an `add` that has run its four steps has stored its fact, unless a `remove` of it was started |
| FactHistories.RemoveRemoves | crates/omniscope-core/src/fact.rs:230-244 | over every interleaving: a fact whose removal has started is not stored any more |
| FactHistories.PushAppends | crates/omniscope-core/src/fact.rs:171-181 | an index entry goes to the end of its key's list and of no other |
| FactHistories.RetainKeepsOrder | crates/omniscope-core/src/fact.rs:235-241 | removal takes one entry out of its key's list and keeps the order of the others |
| FactHistories.AddedIsFound | crates/omniscope-core/src/fact.rs:167-206 | a fact that one thread has added is the answer of another thread's query for its kind |
| ResourcePairs.PositionsAreExact | crates/omniscope-pass/src/module_index.rs:1085-1092 | the positions of a role are exactly the calls that play it, ascending |
| ResourcePairs.ListsPartitionCalls | crates/omniscope-pass/src/module_index.rs:529-536 | every call position is in exactly one caller list and one callee list |
| ResourcePairs.BuildIndexes | crates/omniscope-pass/src/module_index.rs:431-537 | of each call both names without exactly their leading `@`, the family of the registered callee, acquire for acquiring, retaining and reclaiming, release for releasing and conditionally releasing; the two indexes list, per name in order of first use, exactly that name's call positions, ascending |
| ResourcePairs.TrimAtCounts | crates/omniscope-pass/src/module_index.rs:432-433 | exactly the leading `@` characters go |
| ResourcePairs.MetaRecords | crates/omniscope-pass/src/module_index.rs:432-473 | what is recorded of one call |
| ResourcePairs.GroupByKey | crates/omniscope-pass/src/module_index.rs:1079-1092 | calls grouped by caller and family; a call classified both ways counts as an acquire |
| ResourcePairs.JoinMatchings | crates/omniscope-pass/src/module_index.rs:1098-1105 | order-preserving matchings of different keys join to one |
| ResourcePairs.PairAll | crates/omniscope-pass/src/module_index.rs:1096-1105 | the pairing loop pairs first with first, key by key |
| ResourcePairs.PairKey | crates/omniscope-pass/src/module_index.rs:1099-1104 | the acquires of one key with its releases, if it has any |
| ResourcePairs.SplitByKey | crates/omniscope-pass/src/module_index.rs:1098-1105 | a matching splits by key without losing a pair |
| ResourcePairs.OneKeyFits | crates/omniscope-pass/src/module_index.rs:1100 | no matching has more pairs of a key than the key has acquires or releases |
| ResourcePairs.MatchingFits | crates/omniscope-pass/src/module_index.rs:1098-1105 | no matching exceeds the sum of those limits |
| ResourcePairs.ZipAllMatches | crates/omniscope-pass/src/module_index.rs:1098-1105 | pairing first with first gives an order-preserving matching that uses every limit |
| ResourcePairs.PairsOfZipAll | crates/omniscope-pass/src/module_index.rs:1098-1105 | the pairs of a key are its acquires and releases, first with first |
| ResourcePairs.BuildResourcePairClosure | crates/omniscope-pass/src/module_index.rs:1076-1107 | a maximum matching of acquires with releases of one caller and family, no call used twice; two calls are paired if and only if as many acquires of that caller and family come before the one as releases before the other; pairs follow the first acquires of their scopes, then their own |
| ResourcePairs.PairingIsInTurn | crates/omniscope-pass/src/module_index.rs:1096-1105 | paired exactly if both are equally far down their lists |
| ResourcePairs.PairingIsListed | crates/omniscope-pass/src/module_index.rs:1096-1105 | scopes come in the order of their first acquires, and the pairs of a scope in that of its acquires |
| ResourcePairs.PairsCallsIffMatching | crates/omniscope-pass/src/module_index.rs:1085-1092 | the matchings are exactly the pairings of acquires with later or earlier releases of one caller and family that use no call twice |
| ResourcePairs.AcquiredFirstIffNeverOverdrawn | crates/omniscope-pass/src/module_index.rs:1096-1105 | each acquire precedes its paired release if and only if no prefix of the calls has more paired releases than acquires |
| ResourcePairs.ReleaseFirstIsPaired | crates/omniscope-pass/src/module_index.rs:1096-1105 | a release that comes first is paired with the acquire after it |
| IRParsers.OpenIsUnique | crates/omniscope-ir/src/parser.rs:226-263 | at most one region is open at a line |
| IRParsers.NothingEndsHere | crates/omniscope-ir/src/parser.rs:251-308 | a line at which no region ends changes no body |
| IRParsers.BoundaryEndsOpenRegion | crates/omniscope-ir/src/parser.rs:226-263 | a boundary ends the open region and no other, and saving it makes it the last of its name |
| IRParsers.OwnerOf | crates/omniscope-ir/src/parser.rs:238-263 | a line belongs to the region that is open there |
| IRParsers.DefinedIffDefine | crates/omniscope-ir/src/parser.rs:226-240 | a function is recorded exactly when some line defines it |
| IRParsers.DeclaredIffDeclare | crates/omniscope-ir/src/parser.rs:220-224 | a declaration is recorded exactly when some line declares it |
| IRParsers.CursorMoves | crates/omniscope-ir/src/parser.rs:265-308 | the collected instructions are those of the open region so far |
| IRParsers.BoundaryIsParsed | crates/omniscope-ir/src/parser.rs:226-263 | a boundary line leaves the loop variables right |
| IRParsers.InnerLineIsParsed | crates/omniscope-ir/src/parser.rs:265-321 | so does any other line; which calls it records, `ListsCalls` in the contract of `ParseFromText` says from the lines alone |
| IRParsers.CursorRestarts | crates/omniscope-ir/src/parser.rs:238-263 | after a boundary the region it starts is open and empty |
| IRParsers.SavingIsRight | crates/omniscope-ir/src/parser.rs:229-237 | saving at a boundary or at the end of the input keeps the bodies right |
| IRParsers.ParseLine | crates/omniscope-ir/src/parser.rs:207-321 | one round of the loop keeps all of this, for every kind of line |
| IRParsers.ParseFromText | crates/omniscope-ir/src/parser.rs:170-339 | each line is read by the reader its beginning calls for; definitions and declarations are exactly those of the lines, last ones winning; a function has a body exactly if some region of it holds an instruction, and it is the instructions of the last such region in line order; the calls are, in line order, exactly those that lines in open regions make, directly or indirectly, from the region's function, and those that lines outside mention; external exactly if declared |
| IRParsers.ClassifyReads | crates/omniscope-ir/src/parser.rs:207-265 | which reader decides a line, by how the line begins |
| IRParsers.BeginningsDiffer | crates/omniscope-ir/src/parser.rs:207-265 | no line begins in two of these ways |
| IRParsers.RecordsWhatIsTaken | crates/omniscope-ir/src/parser.rs:276-321 | a line records a call of a callee from a caller exactly if, inside a region, it is a direct call read as that callee or an indirect one of that callee or "indirect", and, outside, it mentions one |
| IRParsers.CallsAreListed | crates/omniscope-ir/src/parser.rs:276-321 | the recorded calls are one per line that records one, in line order |
| IRParsers.DefinitionsAreHeld | crates/omniscope-ir/src/parser.rs:226-240 | exactly the defined names, each with its last definition |
| IRParsers.DeclarationsAreHeld | crates/omniscope-ir/src/parser.rs:220-224 | exactly the declared names, each with its last declaration |
| IRParsers.BodyIsListed | crates/omniscope-ir/src/parser.rs:265-308 | a body is the instructions of the unskipped text lines of its region, in line order |
| IRParsers.BodiesAreHeld | crates/omniscope-ir/src/parser.rs:229-237 | a function has a body exactly if a region of it holds an instruction, and then that of the last such region |
| IRParsers.BodiesAreUnique | crates/omniscope-ir/src/parser.rs:170-339 | the region form determines the bodies |
| IRParsers.BodyKeysAreDefined | crates/omniscope-ir/src/parser.rs:229-240 | every function with a body is defined |
| IRParsers.CallersAreDefined | crates/omniscope-ir/src/parser.rs:276-321 | every caller is a defined function or `<top-level>` |
| IRParsers.ExternalIffDeclared | crates/omniscope-ir/src/parser.rs:333-336 | `is_external` exactly for callees declared on any line, before or after the call |
| IRParsers.NamelessDefinitionOpensNothing | crates/omniscope-ir/src/parser.rs:226-240 | a definition without a name closes the open function and opens none |

## Left out

- Integers are unbounded: overflow of the 64-bit node, edge, issue and fact ids, of `usize` counts and of the test domain's `i64` constants is not modelled. The 32-bit counts of the MessagePack headers are.
- DataFlowGraphs.DataFlowGraph.AddEdge: both endpoints must exist, as the debug assertions demand; a release build also stores an edge with a missing endpoint, without recording it in that node.
- DataFlowGraphs.DataFlowGraph.Connect: the same demand on the endpoints.
- DataFlowGraphs.DataFlowGraph.AddToThawed: the same demand on the endpoints.
- `DataFlowGraph::clear`, `all_edges`, `get_node` and the counters: they would add only easy members.
- A panic of the thawing loop is a result value, not an unwinding; the graph it leaves is described.
- Passes that return an error (logged and skipped in parallel mode, propagated in sequential mode), pass results and timings, and the analysis cache: runs are modelled without cache and with passes that succeed. A count of findings that a pass reads only into its result, as `IssueVerifier` does, is part of that result.
- `ir_module`, configuration, source text and memory pool of the context: read-only during a run, or private to a pass.
- The issue gate and the fallback rules of `emit_issue`: an arbitrary function of the issue and the stored resolutions; the variant with a semantic key files issues the same way.
- The rayon thread pool: clones share nothing mutable, so a level is modelled as the runs of its clones in some order.
- Agreement.ParallelEqualsSequential: findings are compared as counts up to order and the ids of issues, facts and diagnostics, since both modes order and number them differently.
- Facts and diagnostics are an id, a kind and a text; location, metadata and confidence are part of the text.
- PassContexts.PassContext.Run: a pass is a finite tree of context calls; a pass that does not terminate is not modelled.
- Float, extension and timestamp formats of MessagePack: the extractor never writes them, and the decoder rejects them.
- Documents.WriteDocument: the document reads back as the module tree, not as LLVM objects; printed types and values, demangled names, block labels and calling-convention names are inputs.
- The JSON branch of the extractor, its slice statistics and timing output.
- `detectFfiSeeds`, `shouldSkipFunction`, exported-function and risk heuristics: seeds and the skip list are arbitrary.
- `FactStore::clear` (three separate steps, not meant to race with `add`), confidence and metadata of facts.
- Locks of the index shards held while a query iterates: without them the model allows more interleavings than the program.
- Language, boundary and risk classification in the module index: only names, families and effects are modelled, with an arbitrary registry.
- How the parser reads one line: the readers are arbitrary functions of the line. Global variables, data layout, debug metadata, calling conventions, call arguments and locations are left out.
- The LLVM adapters, loaders, on-disk caches, command line, report formatters, profiler, arena pool and risk scoring.
