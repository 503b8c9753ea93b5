# iceOS models

iceOS runs AI workflows as dependency graphs behind an HTTP API. This project models the parts of it that
schedule, record, lock and stream, in Dafny, and proves what they guarantee and exactly where a guarantee ends.

`dafny verify dfyconfig.toml` checks everything. Files and modules:

- `WorkflowModel`, `WorkflowContext`: one run of the level-parallel engine as functions on values (contexts,
  levels, insertion-ordered level results, recursive flows, recording, the level loop).
- `WorkflowEngine`: the same engine as an object that updates its fields; every method ends in the state that
  the functions prescribe, so each theorem below is about the state that `Workflow.Execute` leaves.
- `WorkflowSequential`: a level-parallel run means the same as running the nodes one at a time, and back.
- `WorkflowCycles`: cycles through recursive nodes, before levels are assigned and in the branch resolver.
- `WorkflowLevels`: how nodes get their levels, and that the engine's assumption on them holds.
- `WorkflowCrash`: a failed dependency of a mapped input crashes the run.
- `WorkflowLimits`: depth and token limits.
- `WorkflowRecursion`: recursive flows: termination, cost, frame, and the built-in counting executor.
- `ExecutionProtocol`: start route, worker, cancel route and subscriber as an interleaved step system.
- `NodePatches`, `BlueprintStore`, `BlueprintHistory`: patch algebra, the blueprint routes, and what their
  optimistic locks guarantee over histories.
- `PartialBlueprints`: the same for partial blueprints under construction.
- `RunPlan`, `RateLimiter`, `RedisLists`, `EventStream`, `WorkflowBuilder`, `PromptRanker`: one component each.

Conventions. A node executor is a function of the node, its context and the outcomes the same node produced
earlier in the run: it may keep state per node, and the interleaving inside a level cannot matter. A digest is
a datatype constructor, hence injective. Store calls that may fail are flags of the request; generated ids
are parameters. Recursive flows are defined with a nesting bound `fuel`; `MoreFuel` shows that the bound never
changes the meaning of a run that ends, and `RecursionEnds` and `CountedRunEnds` give sufficient bounds.

Where code and its own comments differ, the model follows the code:

- The gathering step promises that an exception of one node becomes a failed result of that node. It is
  filed under the exception's text, and recording then fails on an unknown id (`UnservedMappingCrashes`,
  `CrashesExactlyWhenRaising`).
- Cycles through recursive nodes pass the graph check and get levels, but the branch resolver recurses around
  them without end (`LoopPassesButNeverResolves`), so no run gets past a node on one; the run theorems take acyclic
  graphs.
- Recorded branch decisions never keep a node from running (`EveryNodeActive`).
- The policy that continues where possible is said to stop when all remaining nodes depend on failed ones. It
  also looks at nodes that already ran, and goes on as long as one root has not failed (`OneRootKeepsGoing`).
- Recursive flows are run until they converge, but for a node of the level itself the level's own, earlier result
  is then recorded over the converged one (`LevelResultsWin`).
- "Aborting workflow" on a token ceiling ends the level, not the run (`DepthBound`).
- A cancel is said to be persisted; with the record in memory it never reaches the database
  (`RowIgnoresCancels`).

## Model

| member | source | states |
|---|---|---|
| `WorkflowSequential.LevelRunIsSequential` | src/ice_orchestrator/workflow.py:312-385 | For every policy, depth limit, guard and executor (state per node included), in a first run without recursive nodes: if the one-at-a-time run in some topological order raises nothing and no token limit fires, the level-parallel run does not crash, calls exactly the nodes of the levels it begins in level order, records exactly the sequential results of those levels, with exactly their tokens and branch decisions, and is error-free iff all levels were begun, no depth limit hit and every recorded node succeeded |
| `WorkflowSequential.CrashesExactlyWhenRaising` | src/ice_orchestrator/workflow.py:478-541 | A run that is not cut short crashes iff the sequential interpreter raises; otherwise it records exactly the sequential results |
| `WorkflowSequential.SuccessMeansSequential` | src/ice_orchestrator/workflow.py:427-452 | A run reported successful holds the sequential result of every node |
| `WorkflowSequential.OrdersAgree` | src/ice_orchestrator/graph/dependency_graph.py:550-568 | All topological orders give the same results, or raise in all of them |
| `WorkflowSequential.LevellingsAgree` | src/ice_orchestrator/graph/dependency_graph.py:578-592 | Two valid levellings of one chain give the same results in all complete runs, those with failed nodes included |
| `WorkflowSequential.LevelOrderIsTopological` | src/ice_orchestrator/workflow.py:312-335 | The engine's call order lists every node once, after all its dependencies |
| `WorkflowSequential.OutcomeLocal` | src/ice_orchestrator/workflow.py:644-698 | What a node does depends on the results of its direct dependencies only |
| `WorkflowSequential.RecordWhole` | src/ice_orchestrator/workflow.py:337-382 | Without a token stop a level is recorded whole, unless some key is no node id: then the run crashes |
| `WorkflowSequential.RecordFailures` | src/ice_orchestrator/workflow.py:380-382 | The failure messages name exactly the recorded nodes whose result failed, each with that result's error |
| `WorkflowSequential.RecordDecisions` | src/ice_orchestrator/workflow.py:372-378 | The branch decisions are exactly those of the recorded condition nodes |
| `WorkflowSequential.CollectKeys` | src/ice_orchestrator/workflow.py:484-541 | Every outcome of a level is filed: returned ones under the node, raised ones under the exception text |
| `WorkflowCycles.BreakCycles` | src/ice_orchestrator/graph/dependency_graph.py:522-543 | The loop takes out only edges at recursive nodes that lie on a cycle of the graph, and leaves none of them on a cycle |
| `WorkflowCycles.KeptIsAcyclic` | src/ice_orchestrator/graph/dependency_graph.py:570-573 | If every cycle holds a recursive node, what is left is acyclic: the sort succeeds and the fallback levelling is never reached |
| `WorkflowCycles.AcyclicKeepsAll` | src/ice_orchestrator/graph/dependency_graph.py:532-543 | An acyclic graph loses no edge |
| `WorkflowCycles.ResolvesExactly` | src/ice_orchestrator/graph/level_resolver.py:53-63 | The resolver returns for a node, at some recursion depth, iff no set of nodes that each depend on one of the set holds it |
| `WorkflowCycles.CyclesNeverResolve` | src/ice_orchestrator/graph/level_resolver.py:53-63 | For a node of such a set it returns at no recursion depth |
| `WorkflowCycles.LoopPassesButNeverResolves` | src/ice_orchestrator/graph/dependency_graph.py:718-754 | A node and a recursive node that depend on each other pass the cycle check, and neither ever resolves |
| `WorkflowLevels.AssignLevels` | src/ice_orchestrator/graph/dependency_graph.py:545-569 | Along a topological order of the kept edges every node is put exactly one level above the highest of its kept dependencies, or on level 0 |
| `WorkflowLevels.LoosenNothing` | src/ice_orchestrator/graph/dependency_graph.py:560-565 | With no broken edge all dependencies count |
| `WorkflowLevels.CheckedGraphSorts` | src/ice_orchestrator/graph/dependency_graph.py:545-573 | Every graph that passes the check has, once its cycles are broken, a topological order for the level builder |
| `WorkflowLevels.LevelNodes` | src/ice_orchestrator/graph/dependency_graph.py:578-592 | The dictionary lists on each occurring level exactly its nodes, in node order |
| `WorkflowLevels.EarliestLevel` | src/ice_orchestrator/graph/dependency_graph.py:549-568 | No ranking that respects the dependencies puts a node earlier |
| `WorkflowLevels.LevelsAreUnique` | src/ice_orchestrator/graph/dependency_graph.py:549-568 | The levels do not depend on the topological order that was used |
| `WorkflowLevels.BuiltIsSound` | src/ice_orchestrator/workflow.py:217-220 | Levels built from a graph whose mappings read direct dependencies meet the engine's assumption, without empty levels |
| `WorkflowLevels.BuiltRunIsSequential` | src/ice_orchestrator/workflow.py:312-338 | From graph to run: built levels and engine together record what a one-at-a-time run in any topological order records |
| `WorkflowContext.ContextPrecedence` | src/ice_orchestrator/workflow.py:649-698 | Each context key: the literal or the value resolved at the mapped path, else the output of a dependency that succeeded with one, else session metadata, else a flattened session input, and no other key |
| `WorkflowContext.FailedOutputsHidden` | src/ice_orchestrator/workflow.py:667-674 | A failed, missing or silent dependency is invisible to its dependents |
| `WorkflowCrash.ContextFailsExactly` | src/ice_orchestrator/utils/context_builder.py:35-88 | Building a context raises iff some mapping's source is missing, failed or lacks the path |
| `WorkflowCrash.UnservedMappingCrashes` | src/ice_orchestrator/workflow.py:516-541 | Reaching a level with a mapping that cannot be served crashes the run |
| `WorkflowCrash.FailedDependencyCrashesRun` | src/ice_orchestrator/workflow.py:363-367 | A concrete two-node chain whose run crashes because its first node failed |
| `WorkflowModel.EveryNodeActive` | src/ice_orchestrator/graph/level_resolver.py:39-63 | Whatever decisions were recorded, every node of a levelled graph is active |
| `WorkflowModel.FalsyExactly` | src/ice_orchestrator/workflow.py:372-378 | Only null, false, zero and empty values are not truthy |
| `WorkflowModel.SerializedShows` | src/ice_orchestrator/workflow.py:403-424 | A result is shown as its output, or as a failure with its error text that its own fields cannot hide |
| `WorkflowEngine.Workflow.IsNodeActive` | src/ice_orchestrator/graph/level_resolver.py:53-63 | The memoised resolver answers the recursive definition and keeps its memo right |
| `WorkflowEngine.Workflow.BuildNodeContext` | src/ice_orchestrator/workflow.py:644-698 | The context loops compute the context function; None stands for the raised error |
| `WorkflowEngine.Workflow.ExecuteLevel` | src/ice_orchestrator/workflow.py:455-544 | All nodes read the results from before the level; entries, results and call log are those of the level function |
| `WorkflowEngine.Workflow.HandleRecursiveFlows` | src/ice_orchestrator/workflow.py:546-579 | Schedules all asked sources first, then runs them in order, overwriting results in place |
| `WorkflowEngine.Workflow.ExecuteRecursiveNode` | src/ice_orchestrator/workflow.py:581-642 | Runs one source with the merged context, stores result or failure, follows its own flows |
| `WorkflowEngine.Workflow.RecordResult` | src/ice_orchestrator/workflow.py:337-382 | One recorded result: tokens, guards, decision, failure, and whether the loop ends |
| `WorkflowEngine.Workflow.Execute` | src/ice_orchestrator/workflow.py:294-385 | A whole run leaves exactly the state of the run function; tokens and decisions carry over between runs |
| `WorkflowEngine.Workflow.Serialize` | src/ice_orchestrator/workflow.py:403-424 | The output map has the recorded ids as keys, with errors merged into failed outputs |
| `WorkflowLimits.TokenOvershoot` | src/ice_orchestrator/workflow.py:340-361 | The total exceeds the ceiling by at most one result's usage per level left above it, and under the halting policy by one result's usage |
| `WorkflowLimits.DepthBound` | src/ice_orchestrator/workflow.py:312-328 | Exactly levels that guard and ceiling permit begin, so at most `depth_ceiling`; a level is left out only after a crash, when a limit refuses just this level (with its message), or when the policy gives up |
| `WorkflowLimits.StopsExactly` | src/ice_orchestrator/validation/chain_validator.py:40-80 | The policy stops a run iff it halts on errors, or continues where possible and every node failed or directly reads a failed one |
| `WorkflowLimits.OneRootKeepsGoing` | src/ice_orchestrator/validation/chain_validator.py:61-75 | Finished nodes count as work left: one unfailed node without dependencies keeps the run going |
| `WorkflowLimits.RecordTokens` | src/ice_orchestrator/workflow.py:337-361 | One level adds at most one usage beyond the ceiling or the old total, and a total above the ceiling has left an error |
| `WorkflowLimits.RecordedPrefix` | src/ice_orchestrator/workflow.py:337-382 | Recording takes the entries in order and stops at the first one whose total the guard refuses or exceeds the ceiling, or whose key is no node, and nowhere else |
| `WorkflowLimits.TotalsCarryOver` | src/ice_orchestrator/workflow.py:340-382 | A second run of the same object starts with the tokens and decisions of the first |
| `WorkflowRecursion.RecursionEnds` | src/ice_orchestrator/workflow.py:546-615 | If each node asks at most b times the run ends, with at most the sum of b times the number of sources calls beyond one per listed node |
| `WorkflowRecursion.RequestsEnd` | src/ice_orchestrator/workflow.py:575-615 | The same balance for any stretch of scheduled flows, from any state |
| `WorkflowRecursion.FlowsConfined` | src/ice_orchestrator/workflow.py:581-615 | Recursive flows remove no result, change and call only ids in any source-closed set that holds the scheduled ones |
| `WorkflowRecursion.RequestsOfEntry` | src/ice_orchestrator/workflow.py:555-573 | A recursive node whose output says `_can_recurse` and not `converged` has all its known sources scheduled, in order, with the output's fields; any other entry schedules nothing |
| `WorkflowRecursion.FlowsRun` | src/ice_orchestrator/workflow.py:575-615 | Every scheduled flow runs or its context cannot be built, and every ask made on the way is followed by the sources it asks for |
| `WorkflowRecursion.LevelFlowsRun` | src/ice_orchestrator/workflow.py:538-579 | After a level every source that one of its entries asks for has run since, or could not build its context |
| `WorkflowRecursion.FlowStartsWithCall` | src/ice_orchestrator/workflow.py:589-599 | A flow calls its node with the asking output's fields over the node's own context |
| `WorkflowRecursion.FlowsHoldLast` | src/ice_orchestrator/workflow.py:602-642 | After any stretch of flows each id holds the result of its last call, a context failure, or what it held before |
| `WorkflowRecursion.LevelResultsWin` | src/ice_orchestrator/workflow.py:335-338 | The level's results overwrite what its flows stored for the same nodes; for other nodes the flows have the last word |
| `WorkflowRecursion.MoreFuel` | src/ice_orchestrator/workflow.py:546-615 | A larger nesting bound leaves the meaning of a run that ends unchanged |
| `WorkflowRecursion.CountedFlowsEnd` | src/ice_orchestrator/execution/executors/builtin/recursive_node_executor.py:70-101 | For executors that count iterations, flows end within the limit, each at the cost of at most a full tree |
| `WorkflowRecursion.BuiltInCounts` | src/ice_orchestrator/execution/executors/builtin/recursive_node_executor.py:70-189 | The built-in executor asks again only below its limit, and hands on the next iteration |
| `WorkflowRecursion.BuiltInAsksExactly` | src/ice_orchestrator/execution/executors/builtin/recursive_node_executor.py:70-189 | It asks again iff the counter is below the limit, the condition is not met, the context can be kept and the inner run returned a dictionary that does not claim convergence |
| `WorkflowRecursion.BuiltInHandsOn` | src/ice_orchestrator/execution/executors/builtin/recursive_node_executor.py:140-189 | It hands on the inner output and the kept context with its own entries, the iteration and the node id |
| `WorkflowRecursion.BuiltInStops` | src/ice_orchestrator/execution/executors/builtin/recursive_node_executor.py:76-135 | Stopped, it reports convergence or exhaustion, the iterations and the final context |
| `WorkflowRecursion.BuiltInChainCounts` | src/ice_orchestrator/execution/executors/builtin/recursive_node_executor.py:70-189 | A chain whose recursive nodes run the built-in executor counts iterations |
| `WorkflowRecursion.CountedRunEnds` | src/ice_orchestrator/workflow.py:546-615 | A run whose recursive nodes count iterations ends, nests at most limit deep and calls at most one full tree of flows per listed node |
| `ExecutionProtocol.ParkedIsUpToDate` | src/ice_api/ws/executions.py:33-42 | In every reachable state a subscriber parked on a cleared flag has seen the current, unfinished record |
| `ExecutionProtocol.FinishedRunCloses` | src/ice_api/ws/executions.py:33-42 | From a finished run whose worker has begun or given up, in every interleaving: memory stays finished, a connected subscriber has an enabled step, and closes after at most four |
| `ExecutionProtocol.LastSnapshotCurrent` | src/ice_api/ws/executions.py:36-41 | The last snapshot before a close is current iff the flag is clear when the send completes |
| `ExecutionProtocol.CloseCanMissFinalSnapshot` | src/ice_api/ws/executions.py:36-42 | A reachable state in which the connection closed without the final status |
| `ExecutionProtocol.QuietRun` | src/ice_api/api/executions.py:166-298 | Without cancels memory only moves pending, running, finished and stops; row and cache are never ahead, whichever writes fail |
| `ExecutionProtocol.CopiesAgree` | src/ice_api/api/executions.py:231-262 | Without cancels and failed writes the three copies agree when the worker ends |
| `ExecutionProtocol.VerdictIsOutcome` | src/ice_api/api/executions.py:225-298 | The status persisted is `completed` iff the run succeeded and `failed` iff it failed |
| `ExecutionProtocol.EndsAsFinished` | src/ice_api/api/executions.py:225-298 | Without cancels and failed writes memory, row and cache all end with the status of the run's outcome |
| `ExecutionProtocol.NoRowWithoutInsert` | src/ice_api/api/executions.py:169-178 | A row whose insertion failed is never created by an update |
| `ExecutionProtocol.LeavesFinishedExactly` | src/ice_api/api/executions.py:620-625 | Memory leaves the finished class exactly by the worker's first step after an earlier cancel |
| `ExecutionProtocol.CanceledRunCanRevive` | src/ice_api/api/executions.py:166-168 | That step is reachable: a canceled pending run becomes running |
| `ExecutionProtocol.RowIgnoresCancels` | src/ice_api/api/executions.py:620-634 | Erasing all cancel, cache and subscriber steps from any run leaves a run with the same database row |
| `ExecutionProtocol.CancelAfterEndDiverges` | src/ice_api/api/executions.py:620-634 | Failed in memory and completed in the database after the worker's end: the two stay so for ever |
| `ExecutionProtocol.CanceledAfterEnd` | src/ice_api/api/executions.py:620-634 | Such a state is reachable with all writes successful |
| `ExecutionProtocol.RowSettlesExactly` | src/ice_api/api/executions.py:231-262 | In every run whose row writes succeed: at the worker's end the row shows the status in memory iff the run itself failed or no cancel came after the worker finished |
| `ExecutionProtocol.CacheSettlesExactly` | src/ice_api/api/executions.py:619-634 | In every run whose final cache writes succeed: at the worker's end the cache shows the status in memory iff the run itself failed, or a cancel was last to write both or neither |
| `ExecutionProtocol.CacheMissesCancel` | src/ice_api/api/executions.py:619-634 | A reachable end with failed in memory and completed in the cache, all writes successful |
| `ExecutionProtocol.CacheKeepsCancel` | src/ice_api/api/executions.py:619-634 | A reachable end with completed in memory and failed in the cache, all writes successful |
| `NodePatches.MergeNodes` | src/ice_api/api/blueprints.py:66-76 | The loop computes the merge on insertion-ordered dictionaries |
| `NodePatches.MergeIsAction` | src/ice_api/api/blueprints.py:66-76 | Merging p and then q is merging p followed by q |
| `NodePatches.LastPatchDecides` | src/ice_api/api/blueprints.py:66-76 | Ids come out unique; the last patch entry for an id decides it, untouched ids keep their last existing value |
| `NodePatches.UntouchedKeepOrder` | src/ice_api/api/blueprints.py:66-76 | Untouched nodes keep values and relative order |
| `NodePatches.UpsertsKeepPositions` | src/ice_api/api/blueprints.py:70-76 | A patch without deletions overwrites in place and appends |
| `NodePatches.MergeNothing` | src/ice_api/api/blueprints.py:66-76 | The empty patch is the identity exactly on lists with unique ids |
| `BlueprintStore.BlueprintRoutes.PatchBlueprint` | src/ice_api/api/blueprints.py:305-364 | Order of checks (404, 428/409, 422/403, 503), row update or insertion, cache refresh |
| `BlueprintStore.BlueprintRoutes.DeleteBlueprint` | src/ice_api/api/blueprints.py:377-400 | Lock check, row removal, cache invalidation |
| `BlueprintStore.BlueprintRoutes.ReplaceBlueprint` | src/ice_api/api/blueprints.py:418-461 | Lock check, validation, row update or insertion, cache refresh, new lock |
| `BlueprintHistory.LocksAnswer` | src/ice_api/api/blueprints.py:175-186 | An update without a lock answers 428, with another one than the row's digest 409, and changes nothing |
| `BlueprintHistory.PatchAnswers` | src/ice_api/api/blueprints.py:317-364 | Under the right lock the last patch entry for an id decides its node and all else stays; invalid results answer 422, refused ones their code, a failed commit 503, else 200 with the next version |
| `BlueprintHistory.ReplaceAnswers` | src/ice_api/api/blueprints.py:424-461 | The replacement is checked against the registry and committed with the next version and its new lock |
| `BlueprintHistory.CreateAnswers` | src/ice_api/api/blueprints.py:241-270 | A create needs the lock `__new__` and stores version 1 |
| `BlueprintHistory.HistoryServed` | src/ice_api/api/blueprints.py:30-49 | Rows and codes of every history equal those of a plain compare-and-set map, if cache writes succeed (database may be down for loads) or the database can be read (only invalidations must succeed) |
| `BlueprintHistory.RequestServed` | src/ice_api/api/blueprints.py:305-364 | One request whose load sees the database acts as compare-and-set |
| `BlueprintHistory.CoherenceKept` | src/ice_api/api/blueprints.py:358-361 | Successful cache writes keep every cell equal to its row, empty or absent without one |
| `BlueprintHistory.CoherentLoadIsRight` | src/ice_api/api/blueprints.py:30-49 | On a coherent cell a load sees the database iff a store can be read or there is no row |
| `BlueprintHistory.DatabaseLoadIsRight` | src/ice_api/api/blueprints.py:32-49 | With the database up a load is right iff no ghost cell answers for a missing row |
| `BlueprintHistory.NoLostUpdate` | src/ice_api/api/blueprints.py:175-186 | Over every served history: an update with the lock that any earlier reply handed out is accepted iff the commit succeeds, the row has the body it had then, and the change is not refused |
| `BlueprintHistory.ReturnedLocksFit` | src/ice_api/api/blueprints.py:267-292 | Exactly the accepted creates, reads, replaces and clones hand out a lock, and it is the digest of the row as it then stands |
| `BlueprintHistory.StoredVersionCountsUpdates` | src/ice_api/api/blueprints.py:345-357 | In every history, whichever stores fail, a row's lock_version is one plus the updates committed to it since its insertion |
| `BlueprintHistory.BlindUpdateExactly` | src/ice_api/api/blueprints.py:33-47 | An existing row is updated under a foreign lock iff the database was down for the load, up for the commit, and a stale cell matched the lock |
| `BlueprintHistory.StaleCacheLosesUpdate` | src/ice_api/api/blueprints.py:456-459 | One failed cache write and one outage lose a committed replacement |
| `BlueprintHistory.GhostUpdateExactly` | src/ice_api/api/blueprints.py:345-357 | An update is accepted on a missing row iff a cell answers for it, the lock is the cell's digest, the change is not refused and the commit succeeds |
| `BlueprintHistory.DeletedRowRevives` | src/ice_api/api/blueprints.py:388-399 | A row deleted while the invalidation failed comes back by its old lock, with version 1 |
| `BlueprintHistory.SplitHandlersLoseUpdate` | src/ice_api/api/blueprints.py:317-357 | With check and commit interleaved two patches pass under one lock and the first is lost |
| `PartialBlueprints.StepKeepsInv` | src/ice_api/api/mcp.py:304-312 | A stored lock is the digest of the stored partial, filed under its own id |
| `PartialBlueprints.PassesExactly` | src/ice_api/api/mcp.py:334-341 | A mutation passes iff its lock is the digest of the partial it changes (and a finalize is not refused) |
| `PartialBlueprints.CreateStores` | src/ice_api/api/mcp.py:280-312 | A new partial is empty or holds one audited node, stored with its lock |
| `PartialBlueprints.MutationChecks` | src/ice_api/api/mcp.py:326-341 | First 404, then 428, then 409, and nothing changes |
| `PartialBlueprints.ModifyAnswers` | src/ice_api/api/mcp.py:343-379 | Each update leaves exactly its nodes (added last, removed, first match edited), audited again, under a new lock |
| `PartialBlueprints.CommitAnswers` | src/ice_api/api/mcp.py:1331-1360 | Committed suggestions change nothing but the suggestions |
| `PartialBlueprints.FinalizeAnswers` | src/ice_api/api/mcp.py:386-474 | The checks of a finalize in order, then publication and clean-up |
| `PartialBlueprints.PublishedAtMostOnce` | src/ice_api/api/mcp.py:386-474 | In every history a partial is published at most once, plus once per finalize whose clean-up failed |
| `PartialBlueprints.PublishedTwice` | src/ice_api/api/mcp.py:467-474 | A finalize repeated after its clean-up failed does publish a second time |
| `PartialBlueprints.PublishedAreClean` | src/ice_core/models/mcp.py:142-227 | In every history only partials with nodes and without audit errors are published |
| `PartialBlueprints.FinalizedStaysGone` | src/ice_api/api/mcp.py:467-474 | After a finalize the id answers 404 to every mutation for ever |
| `PartialBlueprints.PartialRoutes.ModifyPartial` | src/ice_api/api/mcp.py:321-379 | The update route: 404, 428, 409, then the edit, saved with its new lock |
| `PartialBlueprints.PartialRoutes.FinalizePartial` | src/ice_api/api/mcp.py:386-474 | The finalize route: lock, emptiness, completeness, preflight, publication, clean-up |
| `RunPlan.Closure` | src/ice_api/api/frosty_actions.py:492-504 | The stack search ends on every graph and visits exactly the reflexive-transitive dependency closure |
| `RunPlan.ClosureIsLeast` | src/ice_api/api/frosty_actions.py:497-504 | The closure lies inside every dependency-closed set that holds the selection |
| `RunPlan.SelectedExactly` | src/ice_api/api/frosty_actions.py:505 | The plan lists exactly the ids of nodes in the closure |
| `RunPlan.SelectedInOrder` | src/ice_api/api/frosty_actions.py:505 | The plan is the node list without the nodes outside the closure |
| `RunPlan.DepsOfNode` | src/ice_api/api/frosty_actions.py:489-491 | A node's dependencies are filed under its id unless a later node has the same id |
| `RunPlan.RunPlanFor` | src/ice_api/api/frosty_actions.py:486-509 | With a selection the closure's nodes in blueprint order, else all nodes |
| `RunPlan.PlanIsSelfContained` | src/ice_api/api/frosty_actions.py:489-509 | A plan holds every existing dependency of the nodes it holds |
| `RateLimiter.Limiter.RateLimit` | src/ice_api/dependencies.py:33-45 | One request: prune, compare, append; other keys untouched |
| `RateLimiter.PruningChangesNothing` | src/ice_api/dependencies.py:38-45 | Under a clock that never runs back the pruned limiter decides like one with unbounded history |
| `RateLimiter.PruningSafeExactly` | src/ice_api/dependencies.py:38-45 | Pruning changes no decision under any limits with a positive window iff no clock reading lies above both an earlier and a later one of its key |
| `RateLimiter.AdmittedExactly` | src/ice_api/dependencies.py:38-45 | A request is admitted iff fewer than the maximum of its key were admitted less than a window before it |
| `RateLimiter.WindowNeverOverfull` | src/ice_api/dependencies.py:41-45 | Under such readings no half-open interval of the window's length holds more than the maximum of admissions of one key |
| `RateLimiter.ClockKeepsWindow` | src/ice_api/dependencies.py:41-45 | In particular under every clock that never runs back |
| `RateLimiter.ClockSetBackOverfills` | src/ice_api/dependencies.py:38-45 | With a clock set back an interval can hold more than the maximum |
| `RedisLists.RedisStub.LRem` | src/ice_api/redis_client.py:136-159 | The index loops leave the removal functions' list, create a missing key and return the length difference |
| `RedisLists.RemovesInPrefix` | src/ice_api/redis_client.py:143-150 | A positive count clears exactly the prefix holding the first occurrences and leaves the rest |
| `RedisLists.NegativeMirrorsPositive` | src/ice_api/redis_client.py:151-157 | The negative mode is the mirror image of the positive one |
| `RedisLists.RemovalCount` | src/ice_api/redis_client.py:136-159 | All other elements keep their order; the count removed is the smaller of the two counts, or all for zero |
| `RedisLists.RedisStub.LRange` | src/ice_api/redis_client.py:161-168 | Answers the Redis range |
| `RedisLists.SliceIsRedisRange` | src/ice_api/redis_client.py:161-168 | The slice is the inclusive, negative-index Redis range for all integers |
| `EventStream.ReaderDeliversAll` | src/ice_api/api/mcp.py:1532-1542 | For increasing ids and any interleaving and batch limit: sent events are a prefix of those due, done iff the finish was sent, and every read makes progress |
| `EventStream.EventReader.XRead` | src/ice_api/redis_client.py:208-228 | A batch is the first `count` entries with a greater id |
| `EventStream.EventReader.Turn` | src/ice_api/api/mcp.py:1534-1542 | One turn sends the batch up to the finish and moves the last id |
| `EventStream.StubOrderHoldsExactly` | src/ice_api/redis_client.py:201-222 | The stand-in's string ids increase exactly for up to ten entries |
| `EventStream.StubServedExactly` | src/ice_api/api/mcp.py:1532-1542 | Every run that ends in a given stand-in stream is served as `ReaderDeliversAll` says iff the stream has at most ten entries or finishes among the second to the tenth |
| `EventStream.FirstStubEntrySkipped` | src/ice_api/api/mcp.py:1533-1535 | From the start id the first entry of a stand-in stream is never due |
| `EventStream.LoneFinishNeverSent` | src/ice_api/api/mcp.py:1532-1542 | A stream whose only event is the final one is never reported, however often the reader turns |
| `WorkflowBuilder.Builder.Connect` | src/ice_builder/dsl/workflow.py:338-348 | Records the edge and extends the dependencies of every node with the target id |
| `WorkflowBuilder.Builder.ApplyConnections` | src/ice_builder/dsl/workflow.py:350-361 | Clears all dependencies and replays the edges |
| `WorkflowBuilder.RebuiltAt` | src/ice_builder/dsl/workflow.py:350-361 | A built node's dependencies come from the edges alone, whatever they were before |
| `WorkflowBuilder.GrownExactly` | src/ice_builder/dsl/workflow.py:357-361 | They are duplicate-free and hold exactly the sources of the edges into the node |
| `WorkflowBuilder.GrownInEdgeOrder` | src/ice_builder/dsl/workflow.py:357-361 | They stand in the order of their first edges |
| `WorkflowBuilder.RebuildIsIdempotent` | src/ice_builder/dsl/workflow.py:350-361 | Rebuilding twice is rebuilding once |
| `WorkflowBuilder.IncrementalExactly` | src/ice_builder/dsl/workflow.py:338-361 | For nodes without dependencies and distinct edges: the incremental dependencies are the rebuilt ones iff no edge leads to a later node |
| `WorkflowBuilder.IncrementalIsRebuilt` | src/ice_builder/dsl/workflow.py:338-361 | With repeated edges too: if no edge leads to a later node they are the rebuilt ones |
| `WorkflowBuilder.LateNodeMissesEdge` | src/ice_builder/dsl/workflow.py:342-346 | A node added after an edge into it misses that dependency until the build |
| `PromptRanker.Rank` | src/ice_builder/prompts/ranker.py:50-71 | The two loops give the options at the ranking's positions; unusable replies give the options back |
| `PromptRanker.RankingOccurs` | src/ice_builder/prompts/ranker.py:58-69 | An option occurs once per index that names it, and once more if its own number is not listed |
| `PromptRanker.RankingOrder` | src/ice_builder/prompts/ranker.py:58-69 | The indexed options come first, in the reply's order and negative indices counted from the end; the unnamed ones follow in their own order |
| `PromptRanker.NoOptionLost` | src/ice_builder/prompts/ranker.py:58-71 | Every option occurs in the result, for any reply |
| `PromptRanker.RankingLength` | src/ice_builder/prompts/ranker.py:58-69 | The length is the number of in-range indices plus the number of options whose own number is not listed |
| `PromptRanker.PermutationExactly` | src/ice_builder/prompts/ranker.py:58-69 | For integers the result is a permutation iff no in-range index is negative or repeated |

## Left out

- What nodes do inside (LLM calls, tools, sandboxes): the executor is a parameter.
- The weighted semaphore: it only delays nodes of a level, which all read the same results.
- The topological sort of the graph library: any topological order may come out of it.
- The enumeration of cycles by the graph library: the graph check is the premise that the part without recursive nodes is acyclic, and the path search is a parameter.
- WorkflowRecursion.RecursiveExecutor: a node with a registered factory delegates to it before any of the modelled steps.
- Networkx layout, insights, events, tracing, cost estimates and suggestions of the workflow class: reporting.
- Node ids or error texts that contain "Node " or " failed:", which the policy check would read back wrongly.
- The leaf node chosen for the result's metadata.
- Python's recursion limit for very deep recursive flows.
- Executions canceled in a process that does not hold the record, and cache expiry times (any expiry is allowed).
- More than one subscriber on a record: the flag is shared and the first one may clear it.
- Rejected logins, project scoping and budget checks before a start.
- Hash collisions and the JSON text behind a digest.
- Validation rules of blueprints, tools and agents: a parameter of the routes, so the registries they look into do not change during a history.
- SQL, migrations, HTTP clients, command line, front end, plugin loading: I/O.
- WorkflowBuilder.Builder.Connect: node records are values, so aliases of a node held elsewhere are not followed.
- RedisLists.RedisStub.LRem: lists are values stored under their key, so references to a list held across calls are not followed.
- RedisLists.SliceIsRedisRange: hash, set and scan commands are not modelled beside it; they are plain dictionary operations.
- PromptRanker.Rank: prompt text and the model call; a reply is the list it parses to, where a float equal to an integer counts as that integer.
