# Verification model of the construction pipeline and its guards

A Dafny model of how a target city layout becomes a sequence of physical steps that are
carried out and verified one at a time, of the optimisers that produce such layouts, and
of the guards around the device: the command queue, the action and retry limits, the tile
merger and the storage reader. `dafny verify dfyconfig.toml` checks everything.

## What is modelled

- `CityMap`, `FreeSpace`: the map with its invariant (footprints in bounds, disjoint, off
  roads and blocked cells), placement, moves, and the flood fill over free land. Roads and
  blocked cells may coincide, as in the source. `Coordinates`: rectangles, distances and
  placements told in coordinates alone, apart from how the map computes them; contracts
  elsewhere (`MustFollow`, `Refused`, `Driveway`, `MayWaitAt`, `Alike`) are stated in these
  terms.
- `Construction`, `Topology`, `Planner`, `Buildability`, `PlanReplay`: steps, their textual
  ids and sorted order, the dependency rules, Kahn's queue and the replay of its output.
- `StagingModel`, `StagingProgress`, `StagingSafety`, `StagingEnd`, `StagingSolver`: the
  staging loop as a relation between states, its progress and safety, and the solver as
  loops proved against that relation. `StagingKnots`, `PlanKnots`, `StagingCompletes`: when
  the loop runs for ever and when it resolves everything, told from its start and from the
  plan. `StagingRoom`: when no pivot lacks a place. `StagingLog`: what the loop writes down.
  `Swaps`: the exchange of two buildings.
- `Identity`, `Execution`, `Pipeline`, `EndToEnd`: reconciliation of relabelled scans, the
  executor against an arbitrary world, and the composition of all stages.
- `Roads`, `PathOrder`, `Connector`, `RoadOptimizer`, `LayoutOptimizer`,
  `JointOptimizer`: depth-first connectivity, the bounded breadth-first connector, greedy
  repair, road removal,
  coordinate descent and their alternation. The score is an arbitrary real function.
- `Witnesses`: two small cities on which the pipeline does not deliver. `Orders`, `Wrappers`
  and `Improvement` are shared vocabulary.
- `MapMerge`, `MergedMap`, `MergeOrder`, `CommandQueue`, `QueueOperations`, `Keeper`,
  `Metrics`, `RateLimits`, `Issued`, `Orchestrator`, `StorageValidation`: the guards. The
  command queue is a state machine over the atomic steps of its threads; a run is any
  sequence of such steps.

Objects whose methods update fields are classes here too (`LiveGame`, `RuntimeMetrics`,
`V0Orchestrator`, `ValidatedStorageReader`); frozen records are datatypes. Clocks,
scanners, action adapters and stop signals are arbitrary functions from the number of the
call to its answer; the clock is only assumed to be monotone.

## What the code does not guarantee

- Roads are removed after every move (`construction.py:126-130`), so a plan that moves a
  building onto an original road cannot be carried out although it looks fine on both
  maps. `Buildable` is the exact condition, `OntoRoadFails` an example; with one joint
  round the condition always holds.
- The staging loop has no progress guard (`staging.py:95-128`), although
  `docs/MAP_LAYOUT_PIPELINE.md:188-194` says that cycles of pure moves are resolved. A pivot
  that already stands on a legal staging cell chooses it again and nothing changes any more.
  The exact condition is on the dependency graph of the plan, `PlanUntangled`: no unordered
  move that may start waits, through moves named after it or unable to start, on a cycle or
  on a move that may not start (a move may start when it waits for no unordered road). The
  loop then brings everybody home who may start; otherwise it never does and runs for ever;
  either way it may end early at a pivot that finds no legal place at all, which `HasRoom`
  rules out beforehand
  (`PlanKnots.LoopEndsAsPlanned`, `StagingKnots.EndsAsTangled`). `StagingRunsForever` is a
  tangled example, `ExchangeReachesTarget` a resolved one. The model reports the endless loop
  instead of looping.
- The command queue counts an order violation although the caller did nothing wrong when two
  submitters number and enqueue in opposite order (`TwoSubmittersViolate`); a command that
  reaches the check is counted exactly when it was overtaken (`ViolationsAreOvertakings`),
  which cannot happen with one submitter (`OneSubmitterInOrder`).
- Its worker dies when a client cancels a future between the worker's `done()` and
  `set_exception` (`LateCancelEndsWorker`), and in no other way and at no other moment
  (`DoomedIffCancelledLate`).
- Closing the queue with everything pending cancelled (`command_queue.py:139-146`) does not
  keep queued commands from running when a client is past the check in `clear_cancel`
  (`command_queue.py:73-76`) but has not cleared the flag yet: it clears it afterwards
  (`RevivedAfterClose`). With nobody inside `clear_cancel` none ever starts
  (`CancelledNeverStarts`).
- Retries are scoped by task and action (`README.md:338` of the repository) only for actions
  with a task: an empty task matches the action under any task (`metrics.py:311-315`), so
  successes elsewhere hide its failures. `ScopedIffNamed` is the exact condition,
  `InterleavedFailures` an example for every limit; `FailuresBounded` says what holds of the
  empty task too.
- Actions whose cycle breaks off before the record (an unhandled exception or an interrupt)
  are not counted by the action rate (`orchestrator.py:285-330`). `RateBoundsIffUnbroken` says
  that the rate bounds what is carried out exactly where no cycle breaks off in between,
  `BreakOffsPassTheRate` is an example for every rate and every number of break-offs, and
  `Orchestrator.V0Orchestrator.Run` gives the bound that always holds, which they attain.
- Which error a merge reports, and whose spec a building keeps that several tiles show, may
  depend on the tile order: exactly when `ErrorDependsOnOrder` and `BuildingsDependOnOrder`
  say so, with `TwoErrors` and `TwoPopulations` as examples; everything else does not.

## Model

| member | source | states |
|---|---|---|
| Pipeline.PlanStageExecute | src/simcity_ai_mayor/layout/staging.py:36-146 | Planner, staging solver and executor in a row on the difference of two maps. The result is what the planner and the solver answer, carried out: given up exactly when the staging loop runs for ever, rejected exactly when the solver raises. A buildable difference is never rejected, is given up only if its plan is tangled, and is executed with nothing unresolved when it is acyclic; a resolution with leftovers issues no action; a full resolution replays to exactly the target, the run completes exactly when the world follows every step, and a faithful world ends on the target |
| Pipeline.BuildableDelivers | src/simcity_ai_mayor/layout/staging.py:36-146 | What a buildable difference comes to, told from its plan: acyclic plans are resolved; a plan is executed with nothing unresolved exactly when it is untangled, its cycles wait for no cyclic road and the loop does not end at a pivot without a legal place; a full resolution replays to the target |
| Pipeline.FaithfulFollows | src/simcity_ai_mayor/layout/execution.py:66-180 | A world that does each step and shows the result in any order and under any tags follows every plan that replays in dependency order |
| Pipeline.ExecuteResolved | src/simcity_ai_mayor/layout/execution.py:66-180 | What the executor reports on a resolution, with and without leftovers |
| Pipeline.DiffLooksUp | src/simcity_ai_mayor/layout/construction.py:89-95 | A difference of two maps names only buildings both maps know, so the builder finds them all |
| EndToEnd.ResolvedReachesTarget | src/simcity_ai_mayor/layout/staging.py:66-146 | A full resolution of a buildable difference replays from the original map with no precondition failing, meets every declared dependency and ends on exactly the target map |
| EndToEnd.NeverRaises | src/simcity_ai_mayor/layout/staging.py:55-66 | On the planner's output for a buildable difference the solver raises no error |
| EndToEnd.PlannedIsCoherent | src/simcity_ai_mayor/layout/staging.py:36-66 | What the planner leaves unresolved brings each building onto its own target cells, under unique ids |
| Construction.ApplyKeepsValid | src/simcity_ai_mayor/layout/execution.py:203-236 | A step that may be applied to a legal map leaves a legal map |
| Construction.StepIdTextInjective | src/simcity_ai_mayor/layout/construction.py:56-87 | The textual step ids of moves, road additions, road removals and staging moves never coincide |
| Construction.ReplayKeepsValid | src/simcity_ai_mayor/layout/execution.py:203-236 | A replay that succeeds from a legal map ends on a legal map |
| Construction.ReplayPrefixes | src/simcity_ai_mayor/layout/execution.py:203-236 | A replay succeeds only if every prefix does |
| Construction.SortedIdsAscend | src/simcity_ai_mayor/layout/construction.py:148-157 | Sorting step ids lists them in the order of their texts |
| Construction.MoveApplies | src/simcity_ai_mayor/layout/execution.py:209-217 | A move step applies to a map given by positions exactly as those positions say, when the building may go there |
| Construction.RoadStepAppliesExactly | src/simcity_ai_mayor/layout/execution.py:219-234 | To any map a road is added exactly on a cell of the map that is neither road nor blocked nor under a building, and removed exactly from a cell that is one; then that cell alone changes |
| Construction.RoadStepRefused | src/simcity_ai_mayor/layout/execution.py:216-234 | Which check refuses a road step: bounds, then an existing road, a blocked cell, a building, or a missing road |
| Construction.MoveStepAppliesExactly | src/simcity_ai_mayor/layout/execution.py:205-214 | To any legal map a move step applies exactly when its building stands at the declared source, is movable and may stand at the destination with a road one step away; then that building alone changes |
| Construction.RefusedExactly | src/simcity_ai_mayor/layout/execution.py:203-236 | A step fails its precondition exactly for a reason a caller can see on the map and in the step |
| Construction.TextIsSpelled | src/simcity_ai_mayor/layout/construction.py:56-87 | A step id spells its kind and its building or, in decimal, its point or count |
| Topology.Kahn | src/simcity_ai_mayor/layout/construction.py:134-157 | The queue orders steps once each, none before a dependency, stops only when nothing left is free, and serves first who is free first, by id among those freed by the same step |
| Topology.OrderIsUnique | src/simcity_ai_mayor/layout/construction.py:148-157 | These properties leave one order only: the planner is deterministic although it works on sets |
| Topology.CountDependencies | src/simcity_ai_mayor/layout/construction.py:139-147 | Indegrees and reverse edges agree with the graph |
| Topology.UnresolvedIffCyclic | src/simcity_ai_mayor/layout/construction.py:148-158 | A step stays unordered exactly when its dependency chain reaches a cycle |
| Topology.StuckWalk | src/simcity_ai_mayor/layout/construction.py:148-158 | From an unordered step dependencies can be followed for ever through unordered steps |
| Topology.OrderedWalkIsSimple | src/simcity_ai_mayor/layout/construction.py:148-158 | A dependency walk from an ordered step never repeats a step |
| Planner.BuildPlan | src/simcity_ai_mayor/layout/construction.py:47-132 | Fails exactly on differing dimensions or on an unknown building looked up by some rule. Otherwise the plan is Kahn's order on the dependency graph, queue order included; its steps are those the layout asks for, each once, the last of several moves of a building winning; and each waits for exactly the steps it must follow, told cell by cell from the two maps |
| Planner.PlanIsUnique | src/simcity_ai_mayor/layout/construction.py:47-132 | Two maps have one plan |
| Planner.RulesMakeTheGraph | src/simcity_ai_mayor/layout/construction.py:96-130 | The rules together give each step exactly the steps asked for that it must follow, told cell by cell from the two maps |
| Planner.CollectSteps | src/simcity_ai_mayor/layout/construction.py:54-87 | One step per move and per road edit, the last one given winning |
| Planner.MoveRules | src/simcity_ai_mayor/layout/construction.py:96-124 | A move waits for exactly the moves of other buildings off its target cells and the new roads one step from a target cell; unknown buildings are reported |
| Planner.BuildRules | src/simcity_ai_mayor/layout/construction.py:106-111 | A new road waits for exactly the moves of the buildings on its cell; unknown buildings are reported |
| Planner.EdgesExactly | src/simcity_ai_mayor/layout/construction.py:96-130 | No edge of the dependency graph is missing and none is superfluous, told cell by cell from the two maps |
| Buildability.MoveWaitsForRoad | src/simcity_ai_mayor/layout/construction.py:113-124 | In the plan of a difference a move waits for a new road exactly when the road is one step from a target cell of the building |
| Buildability.MoveWaitsForMove | src/simcity_ai_mayor/layout/construction.py:96-104 | And for another move exactly when that building moves away from a cell both its old and this building's target rectangle hold |
| Buildability.RoadWaitsForMove | src/simcity_ai_mayor/layout/construction.py:106-111 | A new road waits for exactly the moves of the buildings that cover its cell, and for nothing else |
| Buildability.RemovalWaitsForAll | src/simcity_ai_mayor/layout/construction.py:126-130 | A removal waits for every move and every new road and for no removal, and nothing waits for it |
| PlanReplay.RemainderExact | src/simcity_ai_mayor/layout/construction.py:134-167 | Ordered and unresolved steps together list every step once; unresolved are exactly those whose chain reaches a cycle; ordered steps come after all they depend on |
| PlanReplay.PrefixReplays | src/simcity_ai_mayor/layout/construction.py:96-130 | Even with cycles left over, the ordered part of a buildable plan replays with every precondition true, onto the map with exactly those steps done |
| PlanReplay.ReplayReaches | src/simcity_ai_mayor/layout/construction.py:96-130 | After any number of ordered steps the map is the done part of the target, and the replay got that far exactly when each step's own need is met |
| PlanReplay.ReachesTargetIffBuildable | src/simcity_ai_mayor/layout/construction.py:126-130 | A plan with nothing unresolved replays exactly when the difference is buildable, and then ends on the target; the clause about original roads is there because removals run last |
| Buildability.StepNext | src/simcity_ai_mayor/layout/construction.py:96-130 | When its dependencies are done a step applies exactly if its need is met, and leads to the map with it done |
| Buildability.MoveNext | src/simcity_ai_mayor/layout/construction.py:96-124 | A move whose dependencies are done arrives exactly when the building is movable, keeps off the original roads and touches an original or target road |
| Buildability.AddNext | src/simcity_ai_mayor/layout/construction.py:106-111 | A road addition whose dependencies are done applies exactly when its cell is not blocked |
| Buildability.RemoveNext | src/simcity_ai_mayor/layout/construction.py:126-130 | A road removal after all moves and additions always applies |
| Buildability.AllDone | src/simcity_ai_mayor/layout/construction.py:47-132 | With every step done the map is the target |
| Buildability.NeedsAreBuildable | src/simcity_ai_mayor/layout/construction.py:96-130 | All steps have their needs met exactly when the difference is buildable |
| Witnesses.OntoRoadFails | src/simcity_ai_mayor/layout/construction.py:126-130 | A concrete difference that keeps all access but whose destination is an original road: the planner's order fails on it |
| StagingProgress.NextIsUnique | src/simcity_ai_mayor/layout/staging.py:77-128 | One turn of the loop has at most one outcome |
| StagingProgress.TurnProgresses | src/simcity_ai_mayor/layout/staging.py:77-128 | A turn either changes no position or sends a building home or strictly shrinks the pending buildings without a legal temporary place |
| StagingProgress.LegalUntilHome | src/simcity_ai_mayor/layout/staging.py:186-237 | A building on a legal temporary place stays on one until it goes home |
| StagingModel.LegalExactly | src/simcity_ai_mayor/layout/staging.py:186-224 | A temporary place is legal exactly when the building fits on the map there, covers no road, blocked cell, other target or other building, and has a road one step away |
| StagingModel.ReadyExactly | src/simcity_ai_mayor/layout/staging.py:155-184 | A move is ready exactly when all it waits for is done or itself a pending move and no other building stands on its destination |
| StagingLog.TurnWrites | src/simcity_ai_mayor/layout/staging.py:77-128 | A turn moves one building by one new step, from where it stood to where it stands now, and records either its pending step as done or the next numbered step aside with its place |
| StagingLog.RunIsLogged | src/simcity_ai_mayor/layout/staging.py:66-128 | At every moment of every run the list of places tells exactly the steps aside so far, in order and numbered from one, and done is exactly what is written |
| StagingProgress.StutterForever | src/simcity_ai_mayor/layout/staging.py:95-128 | Once the pivot already stands on a legal place, every later turn repeats and the loop never ends |
| StagingProgress.NobodyStagedTwice | src/simcity_ai_mayor/layout/staging.py:77-128 | In a run without such a standstill no building is staged twice |
| StagingProgress.EndsOrStutters | src/simcity_ai_mayor/layout/staging.py:77-128 | From every state the loop reaches its end or a standstill |
| StagingKnots.UntangledKept | src/simcity_ai_mayor/layout/staging.py:77-128 | No turn of the loop tangles or untangles a state: whether some eligible building waits, through later names, on a cycle without it or on a building that cannot move |
| StagingKnots.StutterIsTangled | src/simcity_ai_mayor/layout/staging.py:95-128 | A standstill is tangled |
| StagingKnots.EndsAsTangled | src/simcity_ai_mayor/layout/staging.py:77-128 | From an untangled state everybody who can move goes home, from a tangled one the loop stands still for ever, unless a pivot finds no legal place |
| StagingRoom.RoomyIsNeverCornered | src/simcity_ai_mayor/layout/staging.py:106-128 | A condition on the start under which no pivot of any run lacks a legal place: every pending building has as many places as buildings are pending, off everybody who stays, no two of them in reach of one placement of another |
| StagingRoom.RoomyRunsForeverIffTangled | src/simcity_ai_mayor/layout/staging.py:77-128 | With such room the loop runs for ever exactly from a tangled start, and otherwise brings everybody home who can move |
| StagingRoom.RoomyIsDecided | src/simcity_ai_mayor/layout/staging.py:36-146 | With such room, told from the planner's output: the solver runs for ever exactly on a tangled plan and resolves it in full exactly when it is untangled and its cycles are pure |
| StagingKnots.RunsForeverIffTangled | src/simcity_ai_mayor/layout/staging.py:77-128 | Where no pivot lacks a place the loop runs for ever exactly when its start is tangled, and brings everybody home exactly when it is not |
| StagingKnots.StandsStillUnlessAwaited | src/simcity_ai_mayor/layout/staging.py:95-128 | After a pivot stepped aside the loop stands still exactly when no eligible building is blocked by that pivot alone |
| StagingKnots.HaltedExactly | src/simcity_ai_mayor/layout/staging.py:77-128 | The loop is over exactly when nobody eligible is left or the pivot has no legal place |
| StagingKnots.SwapResolvedExactly | src/simcity_ai_mayor/layout/staging.py:77-128 | Two buildings that block each other both go home exactly when the first by name has a legal place to step aside to |
| PlanKnots.UntangledAtStart | src/simcity_ai_mayor/layout/construction.py:96-124 | The loop starts untangled exactly when the plan is: a condition on the dependency graph, to be checked before the solver is called |
| PlanKnots.LoopEndsAsPlanned | src/simcity_ai_mayor/layout/staging.py:77-128 | Told from the plan: a standstill means a tangled plan, everybody home an untangled one, and any other end a pivot without a legal place |
| StagingCompletes.UntangledIsResolved | src/simcity_ai_mayor/layout/staging.py:36-146 | The solver runs for ever only on a tangled plan; it resolves a plan in full exactly when the plan is untangled, no cyclic move waits for a cyclic road, and the loop does not end at a pivot without a legal place |
| StagingCompletes.AcyclicIsResolved | src/simcity_ai_mayor/layout/staging.py:36-66 | An acyclic buildable plan is resolved as it is |
| StagingCompletes.HomeIsResolved | src/simcity_ai_mayor/layout/staging.py:130-146 | When the loop brings everybody home nothing is left unresolved, roads included |
| Swaps.SwapResolvedIffRefuge | src/simcity_ai_mayor/layout/staging.py:77-146 | A buildable plan that exchanges two buildings is fully resolved exactly when the first by name has a legal place to step aside to on the original map |
| Swaps.ExchangeReachesTarget | src/simcity_ai_mayor/layout/staging.py:77-146 | A concrete exchange that the planner leaves unresolved, the solver resolves and the replay carries to the target |
| Swaps.ExchangeHasRoom | src/simcity_ai_mayor/layout/staging.py:106-128 | In it both buildings have room |
| Witnesses.StagingRunsForever | src/simcity_ai_mayor/layout/staging.py:95-128 | A concrete buildable difference on which the planner orders nothing and the staging loop never ends |
| StagingSafety.NextIsSafe | src/simcity_ai_mayor/layout/staging.py:77-128 | A turn of the loop keeps the resolved steps replayable, in dependency order, on a legal map that holds the positions the loop believes in |
| StagingSafety.RunIsSafe | src/simcity_ai_mayor/layout/staging.py:77-128 | So does any number of turns |
| StagingSafety.StartIsSafe | src/simcity_ai_mayor/layout/staging.py:66-75 | The loop starts from the map the ordered prefix leads to |
| StagingSafety.HomeIsSafe | src/simcity_ai_mayor/layout/staging.py:77-94 | Sending a ready building home keeps that |
| StagingSafety.StageIsSafe | src/simcity_ai_mayor/layout/staging.py:106-128 | Moving the pivot onto a staging cell keeps that |
| StagingEnd.TailReplays | src/simcity_ai_mayor/layout/staging.py:130-140 | The road steps picked up after the loop replay on the map it left |
| StagingEnd.TailMeetsDependencies | src/simcity_ai_mayor/layout/staging.py:130-140 | They come after all they depend on |
| StagingEnd.StagedPlanReachesTarget | src/simcity_ai_mayor/layout/staging.py:66-146 | Prefix, staged moves and road tail together replay to exactly the target when nothing is left |
| StagingEnd.PlannedIsAimed | src/simcity_ai_mayor/layout/staging.py:56-66 | The planner's pending moves end on their target cells and wait for no staging step |
| StagingSolver.Resolve | src/simcity_ai_mayor/layout/staging.py:36-146 | The whole solver against the turn relation: unchanged plans without cyclic moves, the errors it raises, the loop's run to its end or standstill, the road tail and what stays unresolved |
| StagingSolver.StageAll | src/simcity_ai_mayor/layout/staging.py:77-128 | The loop follows the turn relation and ends where no turn is possible; a standstill, on which the source loops for ever, is reported |
| StagingSolver.TakeTurn | src/simcity_ai_mayor/layout/staging.py:77-128 | One iteration on a state of aimed moves: the first ready move goes home, else the first eligible pivot steps aside |
| StagingSolver.FirstReadyMove | src/simcity_ai_mayor/layout/staging.py:161-184 | The least name among the moves that are ready, none exactly when none is, and the error exactly when an eligible move without a destination comes before all of them |
| StagingSolver.FindStagingCell | src/simcity_ai_mayor/layout/staging.py:186-237 | Of all the places where the pivot fits on the map, off roads, blocked cells, other targets and other buildings, with a road one step away: the one with the least sum of coordinate differences to where it stands, then the upper, then the left one; none exactly when there is no such place |
| StagingSolver.OccupiedBy | src/simcity_ai_mayor/layout/staging.py:268-278 | Which building covers which cell |
| StagingSolver.Nearest | src/simcity_ai_mayor/layout/staging.py:229-236 | The least sum of coordinate differences, then the upper row, then the left column |
| StagingSolver.ReplayPrefix | src/simcity_ai_mayor/layout/staging.py:239-266 | The solver's own replay of the ordered prefix, with its error cases |
| StagingSolver.PrefixRoadStepExactly | src/simcity_ai_mayor/layout/staging.py:259-266 | A road step of the prefix succeeds exactly on a cell of the map under no building, or as a removal, and changes that cell alone |
| StagingSolver.PrefixMoveExactly | src/simcity_ai_mayor/layout/staging.py:246-257 | A move of the prefix applies as in the executor, except that its source may be missing |
| StagingSolver.CheckedReplayIsPrefixReplay | src/simcity_ai_mayor/layout/staging.py:239-266 | Wherever the executor's checked replay succeeds the solver's replay gives the same map |
| StagingSolver.PickRoads | src/simcity_ai_mayor/layout/staging.py:130-140 | The road steps that can be picked up in dependency order, and the rest none of which is free |
| StagingSolver.LeftoverExactly | src/simcity_ai_mayor/layout/staging.py:130-146 | What stays unresolved are exactly the pending moves and the road steps left over |
| StagingSolver.LeftoverAscends | src/simcity_ai_mayor/layout/staging.py:140-146 | In the order of their ids as texts |
| Execution.RunPlan | src/simcity_ai_mayor/layout/execution.py:66-180 | Against any adapter, scanner and stop signal: the report for unresolved plans, for a failed baseline check, for a completed run, and for the first step the world does not follow; `RefusedStepStops` says what a step the map refuses comes to |
| Execution.ExecuteStep | src/simcity_ai_mayor/layout/execution.py:119-166 | One step: an action is issued exactly unless the map refuses the step, told from cells and fields; then action, scan, reconciliation and comparison, with the exact report of each failure |
| Execution.TakeStep | src/simcity_ai_mayor/layout/execution.py:96-174 | One turn: both stop polls, the dependency check and the step |
| Execution.RefusedStepStops | src/simcity_ai_mayor/layout/execution.py:96-128 | A run that reaches a step the map refuses, such as a road that is already there, stops with a failed precondition, and nothing is issued for that step |
| Execution.ShownExactly | src/simcity_ai_mayor/layout/execution.py:182-194 | A scan shows a map exactly when the terrain agrees and every scanned building is alike to one of as many |
| Execution.CheckBaseline | src/simcity_ai_mayor/layout/execution.py:78-92 | The first scan passes exactly when it shows the baseline in some order and under some tags; the two failure reports |
| Execution.ChainIsReplay | src/simcity_ai_mayor/layout/execution.py:164-166 | Completed records chain from the baseline and amount to a replay of as many steps |
| Execution.VerifiedIffShown | src/simcity_ai_mayor/layout/execution.py:182-201 | Reconciling with the declared move and comparing exactly decides whether the scan shows the expected map |
| Identity.Reconcile | src/simcity_ai_mayor/city/identity.py:55-123 | Succeeds exactly when dimensions, counts and known moves agree and every scanned building is alike to a previous one where the moves put it: place, every field, and the text of the ids before their first @. Then each previous building is restored under its own id, and its record names a scanned building with the same prefix; otherwise which error is raised |
| Identity.MatchAll | src/simcity_ai_mayor/city/identity.py:82-112 | The loop over prior buildings succeeds exactly when every scanned building is alike to a prior one where the moves put it: place, every field, and the text of the ids before their first @ |
| Identity.SightExactly | src/simcity_ai_mayor/city/identity.py:125-144 | Two buildings pass for the same exactly when place and all fields agree and their ids have the same text before the first @, or are the same where there is none |
| Identity.MatchesExactly | src/simcity_ai_mayor/city/identity.py:55-112 | Equal fingerprints as often on both sides means that every scanned building is alike to a previous one where the moves put it |
| Identity.ReconciledIsValid | src/simcity_ai_mayor/city/identity.py:114-123 | A reconciled map is always legal |
| Identity.SeenOnce | src/simcity_ai_mayor/city/identity.py:85-95 | Buildings on distinct origins are seen at most once |
| Identity.CandidatesCount | src/simcity_ai_mayor/city/identity.py:85-90 | The candidate list is as long as the multiplicity of the sighting |
| CityMap.MoveSucceedsExactly | src/simcity_ai_mayor/city/map_model.py:176-193 | A move succeeds exactly when the building is movable, the map with it moved is legal and it touches a road there; the result is that map |
| CityMap.PlaceableIsValid | src/simcity_ai_mayor/city/map_model.py:134-154 | A building that may be placed leaves a legal map |
| CityMap.ValidIsPlaceable | src/simcity_ai_mayor/city/map_model.py:134-154 | A legal map with the building at a place means it may be placed there |
| CityMap.IsLegal | src/simcity_ai_mayor/city/map_model.py:85-105 | The constructor's checks decide the map invariant |
| CityMap.BuildingsFit | src/simcity_ai_mayor/city/map_model.py:94-105 | The occupancy loop decides bounds, terrain and disjointness |
| CityMap.IdsCount | src/simcity_ai_mayor/city/map_model.py:88-90 | Comparing the number of ids with the number of distinct ids decides uniqueness |
| CityMap.CandidateOrigins | src/simcity_ai_mayor/city/map_model.py:156-174 | Exactly the origins where the building may be placed, row by row |
| Coordinates.CanPlaceExactly | src/simcity_ai_mayor/city/map_model.py:120-154 | A placement is permitted exactly when each of the building's cells is on the map and off roads, blocked cells and other buildings, and, if it must be, some road is one step away |
| Coordinates.DistanceIsShortestWalk | src/simcity_ai_mayor/layout/staging.py:229-236 | The distance of two cells is the number of steps of a shortest walk between them |
| CityMap.BlankIsStripped | src/simcity_ai_mayor/city/map_model.py:45-48 | An id is blank exactly when stripping white space off both ends leaves nothing |
| FreeSpace.LargestFreeComponentRatio | src/simcity_ai_mayor/city/map_model.py:204-221 | Times width and height the ratio is the size of the largest connected piece of free land, the cells of the map that are no road, not blocked and under no building |
| FreeSpace.Flood | src/simcity_ai_mayor/city/map_model.py:211-219 | One search visits exactly the component of its start |
| FreeSpace.ExpansionSpace | src/simcity_ai_mayor/layout/scorer.py:269-276 | Times the number of free cells the score is the size of the largest connected piece of them; zero exactly without free land, one exactly when all of it is connected |
| Roads.RoadsConnected | src/simcity_ai_mayor/layout/road_optimizer.py:161-174 | True exactly when every two road cells are joined by a 4-adjacent road path |
| Connector.ShortestConnector | src/simcity_ai_mayor/layout/road_optimizer.py:107-148 | None exactly when every path of open cells from one step off the building to one step off a road is longer than the limit; otherwise the shortest, at the first difference from any other of its length further left or up at the start or turning left, right, up, down in this order. Open cells are on the map, off roads and blocked cells and outside all buildings |
| Connector.ConnectsExactly | src/simcity_ai_mayor/layout/road_optimizer.py:113-148 | The paths the search looks for are the paths of open cells, one step apart, from one step off the building to one step off a road |
| PathOrder.BeforeExactly | src/simcity_ai_mayor/layout/road_optimizer.py:125-148 | The search order decided at the first difference of two paths |
| Connector.FirstConnectorIsUnique | src/simcity_ai_mayor/layout/road_optimizer.py:125-148 | That is one connector at most |
| PathOrder.BeforeTotal | src/simcity_ai_mayor/layout/road_optimizer.py:125-148 | Of two different paths of one length one comes first |
| Connector.NeighborFirst | src/simcity_ai_mayor/layout/road_optimizer.py:136-147 | The path queued to a new cell is the first of the shortest paths to it |
| Connector.Search | src/simcity_ai_mayor/layout/road_optimizer.py:130-148 | The bounded multi-source search behind it |
| Connector.NoShorterPath | src/simcity_ai_mayor/layout/road_optimizer.py:130-148 | A path to an unvisited cell is at least as long as the queue says |
| RoadOptimizer.RepairMissingAccess | src/simcity_ai_mayor/layout/road_optimizer.py:96-105 | Whoever had a road one step away, or on the original map a path to one over open cells within the limit, has one afterwards; only free cells become roads, a connected network stays connected, and the maps in between are one repair apart |
| RoadOptimizer.RepairOne | src/simcity_ai_mayor/layout/road_optimizer.py:98-104 | A building without a road one step away gets the first of the shortest paths over open cells to one, when one within the limit exists; exactly its cells become roads |
| RoadOptimizer.RepairsAreUnique | src/simcity_ai_mayor/layout/road_optimizer.py:96-105 | So the repair of a map is determined, building by building |
| RoadOptimizer.ConnectorSurvives | src/simcity_ai_mayor/layout/road_optimizer.py:96-105 | Roads built for others never cut a building off from a connector within the limit |
| RoadOptimizer.ConnectedWithPath | src/simcity_ai_mayor/layout/road_optimizer.py:96-105 | A connector leaves a connected network connected |
| RoadOptimizer.TryRemove | src/simcity_ai_mayor/layout/road_optimizer.py:150-159 | Accepted exactly when roads remain, stay connected and serve every building |
| RoadOptimizer.OptimizeRoads | src/simcity_ai_mayor/layout/road_optimizer.py:67-94 | Nobody loses access; once a removal is accepted the network is connected and serves every building; the score never falls below the repaired map's; no single removal is left worth making unless every pass gained; the edits are the difference; and the result is the repaired map after passes over its road cells in order, each cell judged on what the ones before it left |
| RoadOptimizer.RoadsAreDetermined | src/simcity_ai_mayor/layout/road_optimizer.py:67-94 | So road optimisation has one result only |
| RoadOptimizer.DiffIsExact | src/simcity_ai_mayor/layout/road_optimizer.py:176-186 | The edits build and remove exactly the differing cells |
| RoadOptimizer.DiffIsOrdered | src/simcity_ai_mayor/layout/road_optimizer.py:176-186 | Additions come before removals, each sorted by column and row |
| LayoutOptimizer.OptimizeOne | src/simcity_ai_mayor/layout/optimizer.py:110-145 | The result is within the threshold of every listed candidate, and is the map itself or one listed relocation that beats it by more; it is the last of them, nearest first, that beat the best so far by more |
| LayoutOptimizer.ListedAreNearest | src/simcity_ai_mayor/layout/optimizer.py:122-136 | The candidates looked at are the nearest ones, as many as there is room for, nearest first, by the sum of coordinate differences, then the upper, then the left |
| LayoutOptimizer.OptimizeLayout | src/simcity_ai_mayor/layout/optimizer.py:60-108 | The score never falls, only movable buildings move and have access where they stand; the result is a fixed point of the candidate search unless every pass gained; the moves are the difference to the baseline; fails exactly on a missing baseline origin; and which relocations are made, building by building and pass by pass |
| LayoutOptimizer.LayoutIsDetermined | src/simcity_ai_mayor/layout/optimizer.py:84-97 | So coordinate descent has one result only: everybody's turn in list order, pass by pass, until one changes nothing or there were enough |
| LayoutOptimizer.Descend | src/simcity_ai_mayor/layout/optimizer.py:86-97 | The pass loop behind it |
| JointOptimizer.OptimizeJointly | src/simcity_ai_mayor/layout/joint_optimizer.py:56-96 | The score never falls; access is kept and every moved building is movable and has it; moves and edits are exactly the difference to the result; the plan is buildable exactly when no moved building lands on an original road, always so with one round; ending early means a fixed point of the relocation search, provided the joint threshold is at most the search's, as it is by default; and the rounds that lead to the result |
| JointOptimizer.Alternate | src/simcity_ai_mayor/layout/joint_optimizer.py:61-84 | The round loop behind it |
| JointOptimizer.RoundsAreUnique | src/simcity_ai_mayor/layout/joint_optimizer.py:61-84 | The rounds are determined by the map: relocations accepted when they gain enough, then roads when they do, until a round gains too little |
| JointOptimizer.BuildableIffOffRoads | src/simcity_ai_mayor/layout/joint_optimizer.py:56-96 | For what joint optimisation produces, buildable means keeping off the original roads |
| JointOptimizer.PlanIsDiff | src/simcity_ai_mayor/layout/joint_optimizer.py:86-96 | The listed moves and edits are exactly the difference of the two maps |
| MapMerge.Merge | src/simcity_ai_mayor/vision/map_merge.py:27-61 | Succeeds exactly when there are tiles, all lie inside the map, no two detections overlap without agreeing and none stands on merged terrain; the merged map is legal, represents every detection and keeps the first of each; otherwise the error is that of the first trouble in scan order |
| MergedMap.MergeableExactly | src/simcity_ai_mayor/vision/map_merge.py:27-70 | Tiles merge exactly when there are some, each lies within the map, no two show buildings of different prefix, kind, place or size on one cell, and none shows a building where one shows a road or a blocked cell |
| MergedMap.MergedExactly | src/simcity_ai_mayor/vision/map_merge.py:27-95 | The merged map has a road, and a blocked cell, exactly where some tile shows one; each of its buildings is one a tile shows, renamed after its prefix and place; and each that a tile shows has its site there |
| MergedMap.AgreeExactly | src/simcity_ai_mayor/vision/map_merge.py:97-111 | Two detections are taken for one building exactly when prefix, kind, place and size agree |
| MapMerge.NoGatherError | src/simcity_ai_mayor/vision/map_merge.py:35-50 | The scan meets no trouble exactly when every tile fits and no two detections clash |
| MapMerge.MergeableInAnyOrder | src/simcity_ai_mayor/vision/map_merge.py:27-61 | Whether tiles merge does not depend on their order or repetition |
| MapMerge.SameCityInAnyOrder | src/simcity_ai_mayor/vision/map_merge.py:27-61 | Nor do terrain, ids, prefixes, kinds and cells of the merged buildings |
| MergeOrder.ErrorDependsOnOrder | src/simcity_ai_mayor/vision/map_merge.py:27-61 | Which error is raised depends on the order of the tiles exactly when some tile does not fit and two that fit show detections that clash |
| MergeOrder.BuildingsDependOnOrder | src/simcity_ai_mayor/vision/map_merge.py:97-111 | The merged buildings, with all fields of their specs, depend on the order of the tiles exactly when two agreeing detections differ |
| MergeOrder.KeepsEither | src/simcity_ai_mayor/vision/map_merge.py:97-111 | Of two different detections that agree each is kept in some order of the tiles, and never both |
| MergeOrder.TwoErrors | src/simcity_ai_mayor/vision/map_merge.py:27-61 | Three concrete tiles that raise one error in one order and the other in another |
| MergeOrder.TwoPopulations | src/simcity_ai_mayor/vision/map_merge.py:97-111 | Two concrete tiles whose merged building has the population the first of them shows |
| MapMerge.RepresentedOnce | src/simcity_ai_mayor/vision/map_merge.py:97-111 | A detection is represented by exactly one merged building |
| MapMerge.GatheredNames | src/simcity_ai_mayor/vision/map_merge.py:81-95 | Generated ids are unique |
| MapMerge.TaggedIdInjective | src/simcity_ai_mayor/vision/map_merge.py:86-94 | A generated id tells prefix and origin |
| MapMerge.FindDuplicate | src/simcity_ai_mayor/vision/map_merge.py:97-111 | Found exactly when an accepted detection agrees |
| MapMerge.FindOverlap | src/simcity_ai_mayor/vision/map_merge.py:113-122 | The first accepted detection that shares a cell, or none exactly when there is none |
| CommandQueue.OneAtATime | src/simcity_ai_mayor/device/command_queue.py:103-134 | After every interleaving at most one command runs, the one the worker holds |
| CommandQueue.CompletionsRise | src/simcity_ai_mayor/device/command_queue.py:114-129 | Successful completions have strictly increasing numbers |
| CommandQueue.EveryTakenSettledOnce | src/simcity_ai_mayor/device/command_queue.py:103-134 | No future is settled twice and every command the worker took and let go is settled |
| CommandQueue.QueueOrder | src/simcity_ai_mayor/device/command_queue.py:94-106 | Commands leave the queue and start in the order they entered it, each once |
| CommandQueue.ViolationsAreOvertakings | src/simcity_ai_mayor/device/command_queue.py:107-118 | Of the commands that reach the order check exactly those queued behind a completed one of a higher number are counted, each once; whatever is started was checked and not overtaken |
| CommandQueue.OneSubmitterInOrder | src/simcity_ai_mayor/device/command_queue.py:78-134 | With one submitter commands are queued and started by rising number and the violation count stays zero |
| CommandQueue.TwoSubmittersViolate | src/simcity_ai_mayor/device/command_queue.py:90-118 | Two submitters that number and queue in opposite order cause a violation |
| CommandQueue.LateCancelEndsWorker | src/simcity_ai_mayor/device/command_queue.py:130-134 | A client that cancels its future between the worker's last look and its answer ends the worker thread |
| CommandQueue.DoomedIffCancelledLate | src/simcity_ai_mayor/device/command_queue.py:130-134 | The worker is about to end that way exactly when some client cancelled at that moment, and then its very next step ends it |
| CommandQueue.TooLateStays | src/simcity_ai_mayor/device/command_queue.py:130-134 | Nothing any thread does saves it |
| CommandQueue.InvKept | src/simcity_ai_mayor/device/command_queue.py:78-146 | Every step of any thread keeps the invariants: unique numbers, first in first out, futures that fit the worker's progress |
| QueueOperations.SubmitOutcome | src/simcity_ai_mayor/device/command_queue.py:78-101 | A submission that nobody interrupts: refused on a closed or cancelled queue, turned away with its number spent by a full one, and otherwise queued last under the next number |
| QueueOperations.CloseOutcome | src/simcity_ai_mayor/device/command_queue.py:139-146 | A close that nobody interrupts: no effect on a closed queue; otherwise closed, cancelled if asked, and the end mark queued last or waiting for room |
| QueueOperations.CancelledOutcome | src/simcity_ai_mayor/device/command_queue.py:107-134 | A command that comes up on a cancelled queue fails without being run |
| QueueOperations.OvertakenOutcome | src/simcity_ai_mayor/device/command_queue.py:112-134 | One whose number is not above the last completed one fails without being run and is counted |
| QueueOperations.WithdrawnOutcome | src/simcity_ai_mayor/device/command_queue.py:117-118 | One that its client cancelled in time is acknowledged and not run |
| QueueOperations.RunOutcome | src/simcity_ai_mayor/device/command_queue.py:120-128 | Any other runs once; if it returns, its future is finished and its number is the last completed |
| QueueOperations.RaiseOutcome | src/simcity_ai_mayor/device/command_queue.py:120-134 | If it raises, its future fails with that and nothing is completed |
| QueueOperations.BacklogIsBounded | src/simcity_ai_mayor/device/command_queue.py:94-101 | After every interleaving the backlog keeps its limit |
| QueueOperations.ClosedAdmitsNobody | src/simcity_ai_mayor/device/command_queue.py:85-86 | Once closed and with nobody on the way in, the queue takes in nothing more, whatever anybody does |
| QueueOperations.CancelledNeverStarts | src/simcity_ai_mayor/device/command_queue.py:107-111 | Once closed and cancelled, with nobody inside `clear_cancel` and no command past the check, no queued command ever starts |
| QueueOperations.LateClearRevives | src/simcity_ai_mayor/device/command_queue.py:73-76 | A client that is still inside `clear_cancel` then makes the next queued command run |
| QueueOperations.RevivedAfterClose | src/simcity_ai_mayor/device/command_queue.py:139-146 | A run from the start in which that happens |
| Orchestrator.V0Orchestrator.Run | src/simcity_ai_mayor/runtime/orchestrator.py:408-489 | Over any number of cycles no closed minute holds more records than allowed; no stretch within the retention without a success the gate would notice holds more than one failure of a task's action above the retry limit; actions let through in a minute exceed the limit at most by the cycles that broke off before the record, which are at most the cycles that raised and the last; nothing is carried out while it cools down; and the run ends after the first stop, question to a human or full row of unhandled errors, and not before |
| Orchestrator.V0Orchestrator.RunOnce | src/simcity_ai_mayor/runtime/orchestrator.py:214-406 | Evaluate, execute, record. An action is carried out at most once, only past both stop checks, only as planned and only when every gate is open on what is recorded; then status, record and break-off tell the outcome exactly; otherwise the status tells the stop, the error, that there was nothing to do, or what the gates answered |
| Orchestrator.V0Orchestrator.Consult | src/simcity_ai_mayor/runtime/orchestrator.py:248-281 | The retry flag, the window and the gate, in this order; the answer is the gate's decision on the window; an action refused for its retries cools down for the configured time |
| Issued.BreakOffsPassTheRate | src/simcity_ai_mayor/runtime/orchestrator.py:285-330 | For every positive rate and every f: that many actions and f more at one moment, each let through by open gates, with f cycles broken off between the first and the last |
| Issued.RateBoundsIffUnbroken | src/simcity_ai_mayor/runtime/orchestrator.py:285-330 | The rate bounds the actions of every minute with f broken-off cycles in between exactly when f is zero or nothing is allowed |
| Issued.RecordKeepsTrack | src/simcity_ai_mayor/runtime/orchestrator.py:285-399 | An action let through and recorded keeps the account of actions and records, and their spacing |
| Issued.BreakKeepsTrack | src/simcity_ai_mayor/runtime/orchestrator.py:285-330 | So does one whose cycle breaks off before the record |
| RateLimits.FailuresBounded | src/simcity_ai_mayor/runtime/metrics.py:258-315 | However events are forgotten, marked and gated records bound the failures of every task, the empty one included, in every stretch without a success that the gate would notice |
| RateLimits.ScopedIffNamed | src/simcity_ai_mayor/runtime/metrics.py:311-315 | The documented scope of retries, by task and action, bounds the failures of an action exactly when it names a task or no retries are allowed |
| RateLimits.InterleavedFailures | src/simcity_ai_mayor/runtime/metrics.py:294-315 | For every positive limit, records that all passed the gates and hold more failures without a task than that: successes under another task hide them |
| RateLimits.RecordIsLawful | src/simcity_ai_mayor/runtime/metrics.py:139-194 | A record made after the gates opened keeps both limits of the whole history |
| RateLimits.RecordKeepsRate | src/simcity_ai_mayor/runtime/metrics.py:166-178 | The rate part, from the count of the last minute |
| RateLimits.RecordKeepsMarks | src/simcity_ai_mayor/runtime/metrics.py:158-164 | The retry marks stay complete despite pruning |
| RateLimits.RecordKeepsGate | src/simcity_ai_mayor/runtime/metrics.py:294-309 | The retry gate part |
| RateLimits.LawfulKeepsFailures | src/simcity_ai_mayor/executor/keeper.py:136-147 | A history that passed the gates bounds the failures of every task's action |
| Metrics.WindowIsCounted | src/simcity_ai_mayor/runtime/metrics.py:166-194 | The window counts the samples of the last 60 seconds, the samples and failures of the last 300, and the matching retries with no matching success at or after them |
| Metrics.LastFailedExactly | src/simcity_ai_mayor/runtime/metrics.py:287-292 | An action is due for retry exactly when some matching sample failed and no later one matches |
| Metrics.RuntimeMetrics.WindowFor | src/simcity_ai_mayor/runtime/metrics.py:166-194 | The window counts match their definitions on the retained events, and an action cools down exactly until the time set |
| Metrics.RuntimeMetrics.RecordAction | src/simcity_ai_mayor/runtime/metrics.py:139-156 | Appends one sample, marked as retry as given or by the last matching sample; a blank name is refused |
| Metrics.RuntimeMetrics.PruneEvents | src/simcity_ai_mayor/runtime/metrics.py:259-266 | Drops exactly the samples older than the retention and the cooldowns that are over |
| Metrics.RuntimeMetrics.IsRetryLocked | src/simcity_ai_mayor/runtime/metrics.py:287-292 | Whether the latest matching sample failed |
| Metrics.RuntimeMetrics.Retries | src/simcity_ai_mayor/runtime/metrics.py:294-309 | Retries among the matching samples since the last success |
| Keeper.AllowedExactly | src/simcity_ai_mayor/executor/keeper.py:102-181 | An action is allowed exactly when every gate is open and, where needed, a human agreed; a human is asked exactly when only consent is missing |
| Keeper.DeniedByFirst | src/simcity_ai_mayor/executor/keeper.py:102-181 | A denial gives the reason of the first closed gate in a fixed order of eight |
| StorageValidation.CapacityNeverFalls | src/simcity_ai_mayor/vision/storage_validation.py:99-115 | Over any run accepted capacity never falls |
| StorageValidation.RiseIsBacked | src/simcity_ai_mayor/vision/storage_validation.py:117-133 | Every rise of accepted use meets an expectation registered before it with nothing in between |
| StorageValidation.BacksOnce | src/simcity_ai_mayor/vision/storage_validation.py:95-96 | No two readings use the same expectation |
| StorageValidation.RisesWithinAllowance | src/simcity_ai_mayor/vision/storage_validation.py:95-144 | All rises so far plus what may still rise stay within the registered maxima |
| StorageValidation.UsedWithinAllowance | src/simcity_ai_mayor/vision/storage_validation.py:156-163 | Accepted use never exceeds an earlier accepted value by more than the rises in between |
| StorageValidation.RebasesArePermitted | src/simcity_ai_mayor/vision/storage_validation.py:121-123 | Manual rebases happen at most as often as they were allowed |
| StorageValidation.RepeatsGiveConfidence | src/simcity_ai_mayor/vision/storage_validation.py:156-165 | The last of n identical accepted readings is reported at least 1 - (1 - floor)^n sure |
| StorageValidation.RepeatRaisesConfidence | src/simcity_ai_mayor/vision/storage_validation.py:156-165 | Repeating an accepted reading never lowers the reported confidence |
| StorageValidation.ValidatedStorageReader.Read | src/simcity_ai_mayor/vision/storage_validation.py:75-144 | One reading against the state function: which branch accepts, what is reported, what changes and what the diagnostics note |
| StorageValidation.ValidatedStorageReader.Accept | src/simcity_ai_mayor/vision/storage_validation.py:156-165 | The fused confidence is one minus the product of the doubts, over as many stable frames as are returned |
| StorageValidation.TrustedExactly | src/simcity_ai_mayor/vision/storage_validation.py:75-154 | Which readings are accepted, told from the numbers: sure enough, of no smaller and no barred capacity, and with a use that is the same, in the registered range with its ends, or less when that was allowed once or the storage was full; and when the one permission is spent |
| StorageValidation.ReportedExactly | src/simcity_ai_mayor/vision/storage_validation.py:75-165 | What any reading of any run reports: one minus the product of the doubts of the readings it repeats, or nothing when it is not accepted |
| StorageValidation.StateAfterExactly | src/simcity_ai_mayor/vision/storage_validation.py:95-165 | What any reading of any run leaves behind: the new baseline, the spent range and the permission |
| StorageValidation.RepeatsAreCounted | src/simcity_ai_mayor/vision/storage_validation.py:156-165 | The last of n identical accepted readings is noted as at least the n-th stable frame |
| StorageValidation.ValidatedStorageReader.ExpectDelta | src/simcity_ai_mayor/vision/storage_validation.py:64-67 | Registers a range, refusing an empty one |

## Left out

- StagingSolver.Resolve: asks for unresolved moves under unique ids that bring their buildings onto their own target cells, as the planner produces them; resolutions of other inputs are not modelled.
- StagingSolver.StageAll: asks for a start state whose pending moves are aimed at their target cells, which the planner's output always gives; reports a standstill, where the source loops for ever.
- StagingSolver.TakeTurn: asks for the same; the error on a missing destination is modelled in `FirstReadyMove` only, since an aimed move has one.
- StagingKnots.EndsAsTangled: a pivot without a legal place is ruled out by the condition `HasRoom` on the start, which is sufficient, and decided exactly for an exchange of two buildings (`Swaps.SwapResolvedIffRefuge`); for larger cycles it depends on the free cells at every turn.
- EndToEnd.ResolvedReachesTarget: says nothing of partly resolved plans beyond the planner's prefix, since the executor refuses to start them.
- MapMerge.SameCityInAnyOrder: does not compare the spec fields outside prefix, kind and cells, because those do depend on the tile order, exactly as `MergeOrder.BuildingsDependOnOrder` says.
- RateLimits.FailuresBounded: bounds the failures of one task's action; what all tasks together may fail is bounded by the action rate only.
- CommandQueue: `task_done`, `join` and the join timeout of `close`; updates of fields that only the worker reads are merged with its neighbouring step.
- Metrics: acceptance counters, runtime accounting, leases and persistence, and the lock, since all calls come from one loop; that persistence may raise is modelled as a cycle that raises before or after the record.
- Orchestrator: observation contents, freshness rules, state naming, backoff and sleeping; each cycle's outcomes are an arbitrary choice.
- Scoring components (coverage, pollution, traffic, compactness, penalties and weights): only `_expansion_space` is modelled; the rest are means and distances, and every result here holds for any score.
- Floats are reals, so rounding is not modelled; `strip()` is modelled on ASCII white space.
- Footprints, occupied cells and free cells are sets given by comprehensions; the loops that fill them are not modelled, except in the constructor check, the candidate search and the flood fill.
- Error texts; errors are told apart by kind.
- Device input and screenshots, template matching and text recognition, map scanning, JSON and configuration parsing, SQLite storage, the planner policy and verifier predicates: not part of this model.
