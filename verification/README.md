# ETL engine verification

A Dafny model of the pipeline engine of this repository, of its run log and live-stream protocol, and
of the algorithms around them, with proofs of what they promise. `dafny verify dfyconfig.toml` checks
everything.

## What is modelled

**The engine** (`src/etl_core/engine.py`). `Graphs` and `Topo` hold the reachability worklists and the
deterministic Kahn sort, `Pipelines` the static validator, `NodeExecution` the preparation of a node,
`Iterators` the values of the iterator class. Any other node class is an uninterpreted function of its
resolved config, its inputs per port and the iteration.
`Fanout` is the concurrent fan-out as a step system: an iteration starts when a permit is free, runs its
scope's nodes one by one on its own outputs, and under fail-fast may be cancelled at any moment once
another one has failed. `Engine` is the executor on its mutable state.

The main results form one chain. A run is a sequence of turns of the main loop, with some interleaving
inside each fan-out (`Runs`). Every turn, in either failure mode, keeps an invariant (`FailFast`,
`ContinueOnError`); so every run of every accepted pipeline ends by the laws of its mode
(`Engine.ExecutePipeline`). A continue-on-error run is the sequential one. Without iterators it is a
recursive meaning of the graph in which no order occurs (`Meaning`); with them it still does not depend on
the order, as long as what a scope reads comes before its iterator (`Iterations`, `Reordering`). A
fail-fast run is that run cut short: it fails exactly when the other does, and what it has is what the
other has (`Modes`).

**The live stream** (`worker.py`, `routers/runs.py`, `frontend/src/api/sse.ts`). `RunStream` interleaves
one worker, its log flusher and any number of pollers step by step; `Sse` is the frame printer and the
chunk-fed reader, a subset of sections 9.2.5 and 9.2.6 of the WHATWG HTML Standard; `LiveStream` puts the
two together.

**Algorithms.** `Merge` (hash join), `Paths` (a lens), `References` (resolver against static finder),
`Pagination`, `RateLimiter`, `Schedules`, `Redaction`, `Layout`.

## Where the code does less than it seems

- The whole scope of an iterator runs at the iterator's own place in the order, and validation does not
  check that what the scope reads from outside comes earlier. `ScopeInputs` gives the exact condition: if
  it does, no iteration lacks an input; if it does not, every iteration fails; and
  `Samples.ValidationDoesNotSuffice` is an accepted pipeline where it does not.
- With `continue_on_error` the README (lines 392-393) says that only a failure's descendants are marked
  skipped. That holds, but not every descendant of a failure is skipped: fan-in overwrites skipped
  results of scope members (`Samples.DescendantOfFailureCanSucceed`). The exact law is in
  `ContinueOnError.SequentialRunLaws`.
- `execute_pipeline` says it never raises for pipeline problems. An index segment such as `--5` passes the
  index test and then makes `int` raise (`src/etl_core/paths.py:22-23`; `Paths.RejectedExactly` says which
  segments do), and nothing catches that, neither in a reference (`Samples.AcceptedPipelineCanRaise`) nor
  in an iterator's field (`FieldSample.RejectedFieldCanRaise`). If no reference and no iterator field of
  the pipeline can have such an index, no exception escapes from any run (`Runs.TameRunsStayCalm`).
- An exception that escapes leaves the stored run RUNNING for ever, and who follows it is never told that it
  is done (`RunStream.CrashedRunNeverEnds`).
- A join suffixes colliding right fields so that left fields survive; the suffixed name may itself be a
  field of the left or of the right record, which is then lost (`Merge.LeftFieldCanBeLost`,
  `Merge.RightFieldCanBeLost`). `Merge.LeftFieldFate` and `Merge.RightFieldFate` say exactly when.
- Offset and page fetches that end without the truncation warning are complete exactly unless the
  client's limit exceeds the page size the server really uses and there is more than one page
  (`Pagination.OffsetIsComplete`, `Pagination.OffsetCanMissRecords`).
- A redactor with one variant hides it in every text exactly when its occurrences cannot overlap the mask
  (`Redaction.HidesExactlyWhenSafe`). With several, an unsafe one is still hidden where the others always
  get in the way: `Redaction.ListHidesExactly` is the exact law, `Redaction.HiddenWithoutSafeInside` an
  example.
- Re-enabling a schedule whose stored timing has become invalid raises an error the route does not map
  (`Schedules.ReenablingCanRaise`); `Schedules.UpdateRaisesExactly` says exactly when.

Preconditions are what the source's own models enforce: node ids are non-empty
(`src/etl_core/schema.py:22`), the concurrency cap is at least 1 (`src/etl_core/context.py:27`), the rate
is positive and `max_pages` at least 1 (`src/etl_core/http_client.py:48-68`), the join suffix is not empty
(`src/etl_core/nodes/merge.py:35`).

## Model

| member | source | states |
|---|---|---|
| `Graphs.FindDescendants` | src/etl_core/engine.py:121-130 | the `descendants` worklist terminates on cyclic graphs and finds exactly the nodes that one or more edges lead to |
| `Graphs.FindAncestors` | src/etl_core/engine.py:132-141 | the `ancestors` worklist finds exactly the nodes from which one or more edges lead here |
| `Graphs.Close` | src/etl_core/engine.py:121-141 | the stack loop both worklists share, over any adjacency: its result is the reachability closure of that adjacency |
| `Graphs.ClosuresAreConverse` | src/etl_core/engine.py:121-141 | b is a descendant of a exactly when a is an ancestor of b, exactly when a walk of one or more edges leads from a to b |
| `Graphs.StuckMeansCycle` | src/etl_core/engine.py:117-118 | a non-empty set of nodes each with a predecessor in the set lies on or behind a cycle |
| `Topo.TopoOrder` | src/etl_core/engine.py:92-119 | None exactly when the graph restricted to declared nodes has a cycle; otherwise the lexicographically least topological order by declaration index, with parallel edges, edges to unknown nodes and repeated ids |
| `Topo.GreedyIsLeastTopoOrder` | src/etl_core/engine.py:104-116 | always taking the earliest declared ready node gives a topological order that precedes every other one, and its existence rules out a cycle |
| `Topo.KahnFinished` | src/etl_core/engine.py:104-119 | when the ready list runs empty, a short order and a cycle are the same thing |
| `Topo.KahnRound` | src/etl_core/engine.py:105-116 | one round of the loop outputs the head of the ready list and keeps the invariant: greedy so far, in-degrees exact, ready list exact and sorted |
| `Topo.Release` | src/etl_core/engine.py:108-113 | lowering the successors' in-degrees leaves the exact in-degrees of the remaining nodes and collects exactly those that reach zero, once each |
| `Topo.OrderIndex` | src/etl_core/engine.py:95-95 | the rank table holds the last declaration position of every id |
| `Topo.InitialDegrees` | src/etl_core/engine.py:96-99 | in-degrees counted with multiplicity over edges between declared nodes |
| `Topo.WalkGoesForward` | src/etl_core/engine.py:92-119 | along every walk, positions in a topological order strictly increase |
| `Pipelines.ValidatePipeline` | src/etl_core/engine.py:163-331 | an empty issue list means exactly that the pipeline can run: unique ids, known types, static configs that parse, fed required ports and silent class checks, fitting edges, unshared single-input ports, acyclic, un-nested disjoint scopes, reference targets that are ancestors, `$iter` only inside a scope; and an issue is reported exactly when it is true of the pipeline, each kind with its own meaning |
| `Pipelines.CheckConfigs` | src/etl_core/engine.py:178-200 | the issues are exactly the unknown types and the configs without references that do not parse; none exactly when all is well, and then with distinct ids exactly those configs are kept, parsed |
| `Pipelines.ParsedConfigsAre` | src/etl_core/engine.py:181-196 | the config kept under an id is that of its last declaration whose config is static and parses |
| `Pipelines.CheckFeeds` | src/etl_core/engine.py:242-258 | the issues are exactly the required ports of parsed configs without a counted edge and the findings of their classes |
| `Pipelines.CheckScopes` | src/etl_core/engine.py:273-296 | an iterator is reported exactly when it lies in another's scope, and a node as overlapping exactly when it lies in two scopes; nothing exactly when iterators are un-nested and scopes disjoint |
| `Pipelines.CheckOverlap` | src/etl_core/engine.py:283-296 | the owner table finds an overlap exactly when some scope meets an earlier one |
| `Pipelines.CheckEdges` | src/etl_core/engine.py:202-240 | the issues are exactly the unknown endpoints, missing ports and taken single-input ports; none exactly when every edge fits and no single-input port is used twice; the counts are the exact numbers of edges per port |
| `Pipelines.CheckReferences` | src/etl_core/engine.py:298-330 | the issues are exactly the unknown targets, the targets that are no ancestors and the `$iter` uses outside all scopes; none exactly when every reference is allowed where it stands |
| `Pipelines.CheckIds` | src/etl_core/engine.py:168-174 | the issues are exactly the repeated ids and an empty node list |
| `Paths.GetAfterSet` | src/etl_core/paths.py:26-79 | a value set at a path is the value got there |
| `Paths.SetAfterGet` | src/etl_core/paths.py:26-79 | setting what a path already holds changes nothing, not even the order of dict entries |
| `Paths.SetAfterSet` | src/etl_core/paths.py:58-79 | a second set at the same path gives what that set alone gives |
| `Paths.SetElsewhere` | src/etl_core/paths.py:26-79 | a set is invisible to get along every path that diverges from it once negative indices are normalised |
| `Paths.SetThroughPrefix` | src/etl_core/paths.py:66-79 | setting deep inside is getting the parent, setting in it and putting it back, with the same error otherwise |
| `Paths.GetPath` | src/etl_core/paths.py:26-51 | the loop agrees with the recursive get on every path, errors included |
| `Paths.SetPath` | src/etl_core/paths.py:58-79 | parent lookup and assignment agree with the recursive set, errors included |
| `Paths.RejectedExactly` | src/etl_core/paths.py:22-23 | the segments that pass the index test and `int` rejects are exactly those with two dashes or more, a superscript or subscript digit, or more than 4300 digits |
| `References.ResolveReadsOnlyFoundReferences` | src/etl_core/references.py:105-145 | contexts that agree on the found references' targets give the same resolved config or the same failure: the finder covers everything the resolver reads |
| `References.ResolveFailsLikeFirstReference` | src/etl_core/references.py:47-120 | resolution fails exactly when some found reference fails, and with the error of the first such reference |
| `References.NoReferencesOnlyUnescapes` | src/etl_core/references.py:105-145 | a config without found references always resolves, and only loses one dollar of each leading `$$` |
| `References.RaisesExactlyWhenMalformed` | src/etl_core/references.py:47-102 | a reference makes `int` raise in some context exactly when a segment below its node, or below the iterator's value, passes the index test and `int` rejects it |
| `References.WellIndexedNeverRaises` | src/etl_core/references.py:105-120 | a config without such a reference raises in no context |
| `References.DoubleDashRaises` | src/etl_core/references.py:82-83 | `$upstream.a.--5` raises as soon as `a` has outputs |
| `References.AcceptedTargetIsResolved` | src/etl_core/engine.py:312-313 | the target that validation checks is the node the resolver reads |
| `References.FindReferences` | src/etl_core/references.py:123-145 | the accumulating finder returns the references in the order the resolver meets them |
| `NodeExecution.ExecuteFrame` | src/etl_core/engine.py:345-400 | running a node depends only on the outputs of the nodes it reads: its edges' sources and its references' targets |
| `NodeExecution.ReadsAreAncestors` | src/etl_core/engine.py:298-330 | in an accepted pipeline everything a node reads is an ancestor of it |
| `NodeExecution.GatherSucceeds` | src/etl_core/engine.py:370-377 | the inputs are gathered exactly when every incoming edge has its stream; the only failure is an unavailable input |
| `NodeExecution.GatherInputs` | src/etl_core/engine.py:370-377 | the input loop returns the streams per port in edge order, or the first unavailable edge |
| `Iterators.ExtractField` | src/etl_core/nodes/iterator.py:104-113 | the loop over the upstream records gives one value per record at the field, a node error at the first record without one, or the exception of `int` |
| `Iterators.FieldRaisesExactly` | src/etl_core/nodes/iterator.py:104-113 | a field raises something other than a node error on some records exactly when `int` rejects one of its segments |
| `Iterators.FieldRaisesOnDictsExactly` | src/etl_core/nodes/iterator.py:104-113 | on records that are dicts exactly when it rejects a segment after the first |
| `Iterators.CalmSourceNeverRaises` | src/etl_core/nodes/iterator.py:81-113 | `get_values` raises nothing but node errors when the step is not zero and the field has no rejected segment |
| `Iterators.WellIndexedFieldStays` | src/etl_core/nodes/iterator.py:48-53 | a raw config whose field is a plain text without rejected segment, or whose plain mode takes no field, never resolves to one with a field that raises, whatever its references give |
| `Iterators.RangeValuesAre` | src/etl_core/nodes/iterator.py:91-93 | the k-th value of a range is k steps from the start, and the values are exactly those before the end, for positive and negative steps |
| `Fanout.EveryRunIsOk` | src/etl_core/engine.py:454-513 | in every interleaving, at every moment: at most the cap in flight, and each iteration exactly where it would be if it ran alone |
| `Fanout.FinishedIsSequential` | src/etl_core/engine.py:487-513 | under continue-on-error, or when no iteration fails, every finished interleaving equals the sequential map in value order |
| `Fanout.ReportedFailuresAreTrue` | src/etl_core/engine.py:487-509 | in both modes the reported failures are sorted by index, truly failing iterations, and non-empty exactly when some iteration fails |
| `Fanout.NeverStuck` | src/etl_core/engine.py:457-505 | until all iterations have finished some iteration can take a step other than being cancelled |
| `Fanout.RunsAreBounded` | src/etl_core/engine.py:457-505 | every interleaving ends: the steps taken and the steps left never exceed the initial budget |
| `Fanout.RunIterations` | src/etl_core/engine.py:454-505 | an arbitrary scheduler drives the iterations to a finished state that some interleaving reaches |
| `Fanout.KeyedFlattensToConcat` | src/etl_core/engine.py:540-553 | flattening a port's `keyed` records gives exactly its `concat` records |
| `Fanout.CombinedModesAgree` | src/etl_core/engine.py:532-554 | over all ports of a member: same ports in both modes, and `keyed` flattens to `concat` |
| `Fanout.FanInMember` | src/etl_core/engine.py:532-555 | the fan-in loops compute the combined outputs and the number of participations in iteration order |
| `Fanout.FailureIndex` | src/etl_core/engine.py:469-484 | an iteration's failure carries that iteration's index and names a member of the scope as its own node |
| `EngineModel.JoinsAre` | src/etl_core/engine.py:524-568 | fan-in replaces exactly the members' outputs and results, and each member's result reports the first error recorded for it |
| `ContinueOnError.JoinBlames` | src/etl_core/engine.py:527-567 | after a fan-in a member failed exactly when some iteration failed in it, reports such a failure's error, and succeeded otherwise |
| `EngineModel.BelowIsLater` | src/etl_core/engine.py:621-641 | every descendant of a node comes later in the execution order |
| `EngineModel.AboveIsEarlier` | src/etl_core/engine.py:621-641 | every ancestor of a node comes earlier in the execution order |
| `EngineModel.ScopesApart` | src/etl_core/engine.py:273-296 | in an accepted pipeline distinct iterators are not in each other's scopes and their scopes do not meet |
| `FailFast.FailFastEnds` | src/etl_core/engine.py:630-682 | a finished fail-fast run has one result per node, fails exactly when some node failed, then exactly one did and its error is recorded, and outputs exactly for the succeeded nodes |
| `FailFast.FanoutAbortsOk` | src/etl_core/engine.py:507-522 | an aborting fan-out leaves exactly one failed node, the first failing iteration's, with everything else of the fan-out skipped |
| `FailFast.FanoutJoinsOk` | src/etl_core/engine.py:524-569 | a fan-out without failures gives every member a success and an output |
| `ContinueOnError.SequentialRunLaws` | src/etl_core/engine.py:412-419 | every accepted pipeline with `continue_on_error`, iterators included: one result per node; a node outside all scopes is skipped exactly when an ancestor failed; a scope member exactly when its iterator did not succeed; skips always have a failed ancestor; failures are recorded; outputs are exactly those of succeeded nodes and of scope members that failed in some iterations |
| `ContinueOnError.SeqStepOk` | src/etl_core/engine.py:630-675 | every node's turn keeps the invariant behind those laws |
| `ContinueOnError.ContinueJoins` | src/etl_core/engine.py:532-568 | fan-in keeps the invariant although it overwrites earlier skipped results of scope members |
| `ContinueOnError.ContinueFails` | src/etl_core/engine.py:647-662 | a failing node that skips its descendants keeps the invariant |
| `Meaning.RunIsMeaning` | src/etl_core/engine.py:630-675 | iterator-free, `continue_on_error`: final results and outputs are the recursive meaning of the graph and the errors come in execution order |
| `Meaning.SolutionIsUnique` | src/etl_core/engine.py:345-380 | the defining equation (skipped if a strict ancestor fails, else the node's own function of its ancestors' outputs) has one solution |
| `Meaning.TableSolves` | src/etl_core/engine.py:345-380 | the recursion over ancestors satisfies that equation at every node |
| `Meaning.OrderDoesNotMatter` | src/etl_core/engine.py:621-675 | results and outputs are the same for every topological order |
| `Meaning.NothingIsUnavailable` | src/etl_core/engine.py:371-376 | no node fails because something upstream has not run |
| `Meaning.UnavailableIsUnreachable` | src/etl_core/engine.py:371-376 | if classes produce the ports they declare, the input-unavailable branch is unreachable |
| `Modes.AgreeingTurn` | src/etl_core/engine.py:630-675 | until the abort a fail-fast run and a continue-on-error run are in the same state; from the abort on the fail-fast run is the other one cut short: its outputs, successes, errors and failed node are among the other's |
| `Modes.AgreementEnds` | src/etl_core/engine.py:630-682 | a fail-fast run fails exactly when the continue-on-error run would; if neither fails they are equal; its outputs, succeeded results and errors are the other's, and its failed node failed there too, outside scopes with the same result |
| `Modes.SameFailing` | src/etl_core/engine.py:487-509 | a finished fan-out reports failures exactly when its sequential execution has some, and is that execution otherwise |
| `ScopeInputs.ReadyScopeIsNeverStarved` | src/etl_core/engine.py:459-485 | every fail-fast run whose classes produce the ports they declare: when everything a scope reads from outside precedes its iterator, no iteration takes the input-unavailable branch or lacks a reference's output |
| `ScopeInputs.EveryMomentHasPorts` | src/etl_core/engine.py:532-554 | at every moment of every run the buffered outputs of every node hold the ports its class declares |
| `ScopeInputs.ReadyScopeNeverLacksOutput` | src/etl_core/engine.py:459-485 | the same without that assumption on classes, short of ports that a present node did not produce |
| `ScopeInputs.UnreadyScopeFailsEveryIteration` | src/etl_core/engine.py:371-376 | every fail-fast run: when something a scope reads from outside does not precede its iterator, every iteration fails, whatever the nodes do |
| `Samples.ValidationDoesNotSuffice` | src/etl_core/engine.py:638-641 | a pipeline that passes validation, in its own execution order, with nodes that never fail by themselves, iterating over any list of integers: every iteration fails |
| `Samples.DescendantOfFailureCanSucceed` | src/etl_core/engine.py:532-568 | a concrete continue-on-error run in which a descendant of a failed node is skipped first and ends succeeded |
| `Samples.AcceptedPipelineCanRaise` | src/etl_core/engine.py:360-363 | a concrete pipeline that passes validation and from whose every run, in both modes, an exception escapes |
| `FieldSample.RaisingFieldEscapes` | src/etl_core/engine.py:428-437 | for every literal field and record along which it raises: a pipeline of two nodes that passes validation and from whose every run, in both modes, the exception escapes |
| `FieldSample.RejectedFieldCanRaise` | src/etl_core/engine.py:428-437 | for every literal field with a rejected segment after the first there is a dict that makes such a pipeline raise, so the condition on fields is not too strong |
| `FieldSample.DoubleDashField` | src/etl_core/paths.py:22-23 | `a.--5` is such a field |
| `Iterations.OrderOfScopeDoesNotMatter` | src/etl_core/engine.py:459-485 | an iteration completes in one topological order of its scope exactly when it does in another, with the same outputs |
| `Reordering.ReadyOrderDoesNotMatter` | src/etl_core/engine.py:621-675 | continue-on-error with iterators: two topological orders in which every scope's outside inputs precede its iterator give the same outputs everywhere, the same results outside scopes, and failed members in the same fan-outs |
| `Reordering.EveryFreeNodeSays` | src/etl_core/engine.py:645-675 | at the end of a run a node outside all scopes is skipped because of a failed ancestor, or is its own function of the final outputs |
| `Reordering.EveryIteratorSays` | src/etl_core/engine.py:422-569 | at the end of a run a ready iterator is skipped, failed to produce its values, or it and its scope hold what its fan-out over the final outputs combines |
| `Engine.ExecutePipeline` | src/etl_core/engine.py:572-693 | a rejected pipeline runs nothing and returns one error per issue, in order, on the issue's node or the pipeline, the issues being exactly those true of it; any other runs in the least topological order and returns by the laws of its failure mode, for every interleaving, or an exception escapes: never if `int` can reject no index in its references and its iterators' fields, and under continue-on-error exactly when the sequential execution meets one |
| `Runs.EveryMomentIsOk` | src/etl_core/engine.py:630-675 | at every moment of every run, in both modes and for every interleaving, the run's invariant holds |
| `Runs.EveryRunIsLawful` | src/etl_core/engine.py:630-682 | every finished run obeys the laws of its mode |
| `Runs.TameRunsStayCalm` | src/etl_core/engine.py:359-363 | no exception escapes from any run of a pipeline in whose references and iterator fields `int` can reject no index, a condition on the configs alone |
| `Runs.TameWithoutIterators` | src/etl_core/engine.py:428-437 | in a pipeline without iterators the references alone decide that condition |
| `Runs.PlanNeverEscapes` | src/etl_core/engine.py:428-437 | preparing such an iterator and producing its values fails with node errors only, whatever ran before |
| `Runs.EscapeIsLenient` | src/etl_core/engine.py:359-363 | what escapes at some moment of a run in either mode escapes from the continue-on-error run |
| `Engine.RunState.RunTurns` | src/etl_core/engine.py:630-675 | the main loop on the mutable state is a run, and ends early exactly when an exception escapes |
| `Engine.RunState.Execute` | src/etl_core/engine.py:620-677 | a whole run on the mutable state: it ends early exactly when an exception escapes, and otherwise in a state that obeys the laws of its mode |
| `Engine.RunState.SkipNodes` | src/etl_core/engine.py:412-419 | exactly the given nodes without a result become skipped, nothing else changes |
| `Engine.RunState.RunNode` | src/etl_core/engine.py:645-675 | a plain node's turn: outputs and success, or its error, a failure, and skipped descendants or an abort |
| `Engine.RunState.RunIterator` | src/etl_core/engine.py:422-569 | a fan-out leaves one of the states that some interleaving of its iterations allows |
| `Engine.RunState.JoinMembers` | src/etl_core/engine.py:532-568 | the fan-in loop writes every member's combined outputs and result over any earlier one |
| `Engine.RunState.Turn` | src/etl_core/engine.py:630-675 | one turn: nothing if the node has a result, a skip after an abort, a fan-out, or running it |
| `Runs.TurnKeepsRunOk` | src/etl_core/engine.py:630-675 | every turn, in both modes and for every interleaving, keeps the run's invariant |
| `Runs.LawfulRunIsMeaning` | src/etl_core/engine.py:630-682 | iterator-free runs in both modes against the meaning: equal under continue-on-error or without failures; a fail-fast run fails exactly when the meaning has a failing node, namely with the first one along the order: what precedes it succeeded, what follows is skipped |
| `RunStream.EmittedLogsArePrefix` | src/etl_server/routers/runs.py:114-160 | in every interleaving of one worker and any pollers, each poller's emitted log rows are a gap-free, duplicate-free prefix of the committed rows, and so their events of the run's events |
| `RunStream.DoneComesAfterEverything` | src/etl_server/routers/runs.py:135-166 | `done` is last, comes after every event of the run, and carries the final status and every persisted error |
| `RunStream.EveryTraceIsOk` | src/etl_server/worker.py:95-197 | every reachable state keeps the invariant: committed rows mirror a prefix of the events, a terminal status implies everything is committed, cursors stand at row boundaries |
| `RunStream.FinishPersistsAllErrors` | src/etl_server/worker.py:177-197 | finishing persists exactly the engine's errors, with all events committed before |
| `RunStream.FinishedRunGetsDone` | src/etl_server/routers/runs.py:119-166 | a poll round that starts after the run has finished ends with `done`, carrying the final status and all errors, after every event of the run |
| `RunStream.CrashedRunNeverEnds` | src/etl_server/worker.py:176-181 | once an exception has escaped from the engine, in every continuation the run stays RUNNING without errors and no poller is ever told that it is done |
| `RunStream.CrashedRoundTimesOut` | src/etl_server/routers/runs.py:165-172 | a round of such a poller closes it exactly when its polls are used up, and then with a timeout |
| `LiveStream.FollowRun` | frontend/src/api/sse.ts:55-69 | end to end, for every interleaving, moment, poller and cut of its stream into chunks: the logs the browser has received show a prefix of the committed rows, id and sequence number included, and all events of the run once it has received `done`, which is last and carries the final status and all errors |
| `RunStream.SystemStepOk` | src/etl_server/worker.py:150-174 | every step of the worker, the flusher or a poller keeps the invariant |
| `Sse.ReadPrintedStream` | frontend/src/api/sse.ts:55-69 | the printed frames of any event list, cut into chunks anywhere, are read back as exactly that list in order |
| `Sse.ArrivedIsPrefix` | frontend/src/api/sse.ts:60-68 | what has arrived of a printed stream delivers a prefix of its events |
| `Sse.ReadStream` | frontend/src/api/sse.ts:57-69 | what the reader delivers depends only on the text received, not on how it is cut into chunks |
| `Sse.DrainAppend` | frontend/src/api/sse.ts:60-68 | draining the buffer in two instalments takes off the same frames and leaves the same rest |
| `Sse.StreamDrains` | src/etl_server/routers/runs.py:26-27 | a printed stream drains into its events and leaves an empty buffer |
| `Sse.FrameParses` | frontend/src/api/sse.ts:13-39 | a printed frame parses back to its event |
| `Sse.ParseFrame` | frontend/src/api/sse.ts:13-39 | the line loop takes the last event name and all data lines, and rejects what is not a known event with parsable data |
| `Sse.DrainBuffer` | frontend/src/api/sse.ts:62-68 | the inner loop delivers the events of exactly the complete frames and keeps the rest |
| `Merge.JoinStreams` | src/etl_core/nodes/merge.py:106-148 | anything but two streams is a node error; two are joined, or reading a key raises |
| `Merge.HashJoin` | src/etl_core/nodes/merge.py:112-148 | the hash join raises exactly when reading some record's key raises, and otherwise equals the nested-loop join on the key, row for row and in the same order, in all three modes |
| `Merge.OuterKeepsRightRecords` | src/etl_core/nodes/merge.py:143-147 | an outer join adds, as a multiset, each right record whose key no left record has and each keyless right record exactly once, and nothing else |
| `Merge.NoLeftRecordLost` | src/etl_core/nodes/merge.py:125-142 | left and outer joins give every left record at least one row, each the record itself or combined with a right record of the same key |
| `Merge.LeftFieldFate` | src/etl_core/nodes/merge.py:131-139 | a left field keeps its value exactly unless a right field is renamed onto it, and then has that field's value |
| `Merge.LeftFieldSurvives` | src/etl_core/nodes/merge.py:131-139 | for every suffix, a left field not named like a right non-key field plus the suffix keeps its value |
| `Merge.LeftFieldCanBeLost` | src/etl_core/nodes/merge.py:136-137 | a concrete join in which renaming a right field overwrites a left field |
| `Merge.RenamedExactly` | src/etl_core/nodes/merge.py:133-139 | a right field is renamed exactly when the left record has its name or an earlier right field was renamed to it |
| `Merge.RenamedFieldStays` | src/etl_core/nodes/merge.py:136-137 | a renamed right field is in the combined record, under the suffixed name |
| `Merge.RightFieldFate` | src/etl_core/nodes/merge.py:133-139 | a right field that kept its name has its value there exactly unless a later right field is renamed onto it, and then that field's value is there |
| `Merge.RightFieldCanBeLost` | src/etl_core/nodes/merge.py:136-137 | a concrete join in which renaming one right field overwrites another |
| `Merge.BuildIndex` | src/etl_core/nodes/merge.py:115-123 | the index holds per key the right records with that key in order; keyless records are set aside; it raises exactly when some key does |
| `Merge.ComputeKey` | src/etl_core/nodes/merge.py:48-62 | the key loop gives one part per key path, none if the first path without a value is missing, and raises if that path has an index `int` rejects |
| `Merge.DeduplicatedIs` | src/etl_core/nodes/merge.py:93-100 | the union loses no canonical text and has one record per text |
| `Merge.Union` | src/etl_core/nodes/merge.py:93-100 | the loop with its `seen` set keeps the first record of every canonical text, in order |
| `Pagination.FetchAll` | src/etl_core/nodes/api_source.py:156-203 | at most `max_pages` requests in every mode; each page answers the request that follows from the previous page; without the warning the last page said it was the last; a failing request is the last one sent and asked for what follows from the pages before it |
| `Pagination.OffsetsSent` | src/etl_core/nodes/api_source.py:162-190 | at every request, answered or not, the offset is the number of records fetched so far |
| `Pagination.OffsetCanMissRecords` | src/etl_core/nodes/api_source.py:187-188 | a concrete honest server of two records and a client limit for which every fetch that ends without the warning misses one |
| `Pagination.OffsetIsFetched` | src/etl_core/nodes/api_source.py:162-190 | every request's offset is the number of records fetched before it |
| `Pagination.OffsetFetchesPrefix` | src/etl_core/nodes/api_source.py:171-190 | against a server that returns the requested slice the records are always a duplicate-free prefix of the data |
| `Pagination.OffsetIsComplete` | src/etl_core/nodes/api_source.py:186-203 | without the warning the result is the whole data exactly unless the client's limit exceeds the server's page size and there is more than one page |
| `Pagination.PagesAreComplete` | src/etl_core/nodes/api_source.py:191-203 | the same law for page numbers, with the expected page size for the limit |
| `Pagination.CursorsAreComplete` | src/etl_core/nodes/api_source.py:180-185 | a cursor fetch that was not truncated has all chunks in order |
| `RateLimiter.SlotsAreFeasible` | src/etl_core/http_client.py:103-110 | nobody is served before arriving and consecutive slots are at least an interval apart |
| `RateLimiter.SlotsAreEarliest` | src/etl_core/http_client.py:103-110 | no first-come-first-served schedule with that spacing serves anyone earlier |
| `RateLimiter.SlotsSpread` | src/etl_core/http_client.py:105-107 | slots n places apart are at least n intervals apart |
| `RateLimiter.WindowBound` | src/etl_core/http_client.py:94-110 | any window of length T holds at most floor(T/interval)+1 slots |
| `RateLimiter.Limiter.Acquire` | src/etl_core/http_client.py:103-110 | each acquisition appends the next slot of that schedule and sleeps exactly until it |
| `Schedules.EveryHistoryStaysArmed` | src/etl_server/routers/schedules.py:72-94 | after any sequence of create, update and tick steps an enabled schedule has a next run, computed from its present timing |
| `Schedules.EveryTickFires` | src/etl_server/scheduler.py:68-104 | over any non-decreasing tick times, a tick creates a run exactly when a cron instant lies after the previous tick or the creation and not after this one: an outage of any length gives one run |
| `Schedules.TickFires` | src/etl_server/scheduler.py:68-100 | one tick fires exactly when an instant has passed, and then waits for the first instant after now |
| `Schedules.CreatedScheduleFires` | src/etl_server/routers/schedules.py:36-45 | from its creation on, an enabled, valid, unedited schedule creates a run at exactly the ticks with a cron instant since the previous tick or the creation |
| `Schedules.UpdateRaisesExactly` | src/etl_server/routers/schedules.py:78-91 | after any history an update raises the error that the route does not map exactly when it leaves the timing alone and turns on a disabled schedule whose stored timing is invalid by now |
| `Schedules.ReenablingCanRaise` | src/etl_server/scheduler.py:96-98 | a concrete history that gets there: created, disabled by a tick once its timing is invalid, re-enabled |
| `Schedules.Schedule.Change` | src/etl_server/routers/schedules.py:78-91 | an update moves the row by the transition, or leaves it alone and reports the rejection |
| `Schedules.EnqueueDue` | src/etl_server/scheduler.py:68-104 | exactly the due schedules get one run each, and every schedule ticks |
| `Redaction.RedactedHidesSafe` | src/etl_core/redact.py:48-52 | the output of the sequential replacement contains no safe variant (star-free suffices) anywhere, whatever the other variants are |
| `Redaction.RedactedHidesAround` | src/etl_core/redact.py:48-52 | any string that contains a safe variant, itself safe or not, is hidden too |
| `Redaction.RedactSecrets` | src/etl_core/redact.py:32-52 | a redactor built from secrets and applied to a text: no safe variant of any secret survives, so no secret of redactable length without a star |
| `Redaction.RedactionIsIdempotent` | src/etl_core/redact.py:48-52 | with safe variants redacting twice is redacting once |
| `Redaction.HidesExactlyWhenSafe` | src/etl_core/redact.py:48-52 | one variant is hidden in every text exactly when it neither starts nor ends with `*` nor contains the mask |
| `Redaction.ListHidesExactly` | src/etl_core/redact.py:48-52 | after any safe variants, the last one is hidden in every text exactly when every text of bounded length from which it leaks by itself shows one of the others |
| `Redaction.OneSecretHidesExactly` | src/etl_core/redact.py:32-52 | so for the redactor of one secret, whose quoted and encoded forms are star-free and longer |
| `Redaction.StarHidesExactly` | src/etl_core/redact.py:48-52 | a variant with a single star in front, after safe ones, is hidden in every text exactly when one of the others occurs in it followed by its own letters |
| `Redaction.HiddenWithoutSafeInside` | src/etl_core/redact.py:48-52 | a concrete variant that is hidden in every text although it is not safe and contains no safe variant |
| `Redaction.LeaksFromShortPart` | src/etl_core/redact.py:51-51 | what leaks from a text leaks from a part of it no longer than the variant's length times itself plus two |
| `Redaction.StarFreeIsSafe` | src/etl_core/redact.py:32-46 | a variant without `*` is safe |
| `Redaction.ReplaceBringsNothing` | src/etl_core/redact.py:51-51 | replacing one variant removes it and brings in no other safe string that was not there |
| `Redaction.BuildRedactor` | src/etl_core/redact.py:32-46 | the patterns are exactly the variants of the secrets long enough, each once, the longest first |
| `Redaction.Redact` | src/etl_core/redact.py:48-52 | the loop computes the sequential replacement and hides every safe variant |
| `Layout.LayeredLayout` | frontend/src/pipelines/editor/layout.ts:11-52 | cyclic or not: every node placed, no two at one position, rows filled in declaration order; without a cycle a node's column is its longest incoming path, so every edge goes strictly right |
| `Layout.AssignLayers` | frontend/src/pipelines/editor/layout.ts:24-37 | the queue loop terminates on every graph; layers of finished nodes are longest paths, and without a cycle all nodes finish |
| `Layout.LayeringStep` | frontend/src/pipelines/editor/layout.ts:29-36 | finishing a node whose predecessors are finished fixes its layer at the longest path and pushes its successors right |
| `Layout.PlaceLeftovers` | frontend/src/pipelines/editor/layout.ts:38-41 | nodes the queue never reached go right of everything ordered |
| `Layout.AssignRows` | frontend/src/pipelines/editor/layout.ts:43-50 | every node takes the next free row of its layer |

## Left out

- Paths.SetPath: updates a value instead of a container in place, so aliasing between parts of the data is not modelled.
- Redaction.ListHidesExactly: asks all variants but the last to be safe, which covers every redactor of one secret; several unsafe variants together have only the sufficient conditions.
- Redaction.RedactSecrets: requires that quoting a secret gives a non-empty string; quoting and Base64 are uninterpreted.
- Reordering.ReadyOrderDoesNotMatter: does not say which of several failing members a failing iteration is blamed on; that is the first in the order.
- Pagination.FetchAll: treats the parameter names as distinct and the conversion of a body to records as part of the response.
- Fanout.RunIterations: iterations interleave between nodes; awaits inside one node's run are not visible because a node is a function.
- RunStream.EveryTraceIsOk: assumes one claimer per run and row ids that grow in commit order; the worker and pollers are steps on values, not objects.
- Digits outside ASCII in index segments, other than superscript and subscript ones.
- The iterator's config is read after its model has accepted it; that the model keeps the field and rejects a step of zero is part of `Runs.Tame`.
- Floating-point numbers are reals: no rounding, no infinities, no NaN. Time is real or integer.
- Durations, timestamps, log levels, message texts and error categories.
- `_primary` on an output without an `out` port (the first stream) is uninterpreted, as are Python's `str`, config models, JSON encoding, croniter and time zone data; JSON encoding is assumed to give one line that starts with `{` and parses back, a calendar to give the least instant strictly after a time.
- UTF-8 decoding across chunk borders: the encoder's output is ASCII, so chunks are text.
- Crashes of the worker's process, two workers claiming one run, a run row deleted while it is streamed.
- `request_with_retry`, authentication, SSRF policy, secrets, cryptography, database and file nodes, diagnostics, the transform expression language, CRUD routes, the command line, migrations and the React user interface: input/output, or only easy members.
