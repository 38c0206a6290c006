# CKOS, modelled and proved in Dafny

CKOS is an orchestration kernel: it runs workflows of tasks over runtimes it does not control, keeps a knowledge graph
and a document store, and answers queries over both. This project models its algorithms and state machines and proves
what they promise. Objects whose methods update their fields are classes here (`Task`, `Dag`, `Scheduler`, `Engine`,
`KnowledgeGraph`, `GraphRepo`, `FileStore`, `Parser`, `ReplayGuard`, `SearchCache`); loops are loops, proved against
functions or against properties stated outright; pure expressions are functions.

## What is modelled

- **Workflow execution** (`Tasks`, `Workflow`, `Definitions`, `Scores`, `Scheduling`, `Aging`, `Trace`, `Schedules`,
  `Execution`). Building and ordering step graphs, the dependency gate, scored dispatch with aging, and the run loop
  with bounded retry. What the runtimes, the verifier and the policy answer is an arbitrary function of the execution's
  number, so every statement about a run holds for every environment. `RunWorkflow` returns, as ghosts, what each task
  waits for, what decides the run's course, and what it published: which task starts next and how its attempt ends is
  a matter of what was published before.
- **Knowledge graph** (`Graph`, `PageRank`, `Traversal`, `Versioning`, `Sentences`, `Extraction`, `GraphFormat`,
  `GraphLock`, `GraphUpdates`). The power iteration as a Markov chain over the nodes that exist, breadth-first search
  against shortest path lengths, branch and merge by semantic identity, repeatable extraction, the text file, the locked
  load-modify-save protocol as interleaved steps of any number of threads and processes, crashes included, and both
  together.
- **Codecs and parsers** (`Text`, `LineText`, `FileFormat`, `FileRoundTrip`, `FileStores`, `Kql`, `KqlFilters`,
  `KqlQueries`, `KqlText`, `KqlParser`, `KqlExecution`, `KqlMeaning`). The document file format with its write-through
  index, and the query language: its grammar as functions on what is left of the tokens, a renderer, the proof that each
  undoes the other, and the tokenizer and the cursor-moving parser proved to compute the grammar; then what a query's
  conditions mean, what its answer is and when that is determined.
- **Retrieval** (`Metrics`, `Fusion`, `Caching`, `Replay`, `Chunks`). Rank metrics, reciprocal rank fusion, the
  least-recently-used cache, the replay window and chunking.
- `Results`, `Sequences`, `Ordering` and `RealSums` hold what the others share: options and results, facts about lists
  without repeats, sorting and what it leaves open, and finite sums over the reals.

Wherever the program walks over a hash map, the model takes the entries in an arbitrary order, so results hold for every
enumeration. Floating-point numbers are reals. Ids are minted by a function passed in that never repeats itself.

## Findings

- `run_workflow` can return `Ok` with results missing: a dependency preset on a task outside the workflow can never be
  met. `RunWorkflow` states exactly when all results are there, and `OutsideDependencyNeverRuns` gives the family.
- Personalized PageRank loses mass when a seed is repeated; it keeps it if and only if no present seed is
  (`SeedMass`, `PersonalizedPagerank`).
- The comment on source merging in fusion promises that sources survive a change of representative; the code discards
  those recorded before it. `SourcesComplete` gives the exact condition, `SourcesLost` an input.
- Deleting a document drops it from the index before the file is removed, so a failed removal leaves the two apart; a
  document with an empty id is written to a file that reopening does not list. `ReopeningFindsIndex` shows that these
  are the only two ways, and when a later operation mends them.
- Extracting from the same text again is meant to reuse its nodes and to add no parallel edges. It changes nothing if no
  name in the text is that of two nodes (`ExtractionIsIdempotent`); with two, it may pick the other one
  (`TwinsMayBreakIdempotence`), and changes nothing exactly if what it picks is trusted and linked already
  (`SecondPassExactly`).
- Ids with tabs or line ends come back from the graph file with blanks in their place, so two nodes can become one:
  `StoredFormComesBack` says what is loaded then, `NoNodeIsLostExactly` when no node is lost.
- A merge tells nodes apart by kind and name joined by a colon; with a colon in a custom kind two different nodes can
  pass for one (`IdentityMeans`, `IdentitiesMayClash`).
- The comment on ordering query results promises the same output whatever the graph's hash order; nodes of one
  confidence and name within the limit can come in either order. For selected nodes `SelectedAreDetermined` gives the
  exact condition and `AnswerCanDependOnWalk` a graph. Related nodes come in the order of edges from each selected node,
  so ties among them are open only between different selected nodes: `RelatedNodesAreDetermined` gives their condition.
- Breaking a lock judged stale is harmless exactly if no running writer holds it (`BreakingIsHarmlessExactly`);
  `BrokenLockAdmitsTwo` is a run where one does.
- Replay protection rests on the clock: an accepted envelope is accepted again exactly when a check in between found it
  aged out (`AcceptedAgainExactly`), which a clock that runs backwards allows (`BackwardClockAdmitsReplay`) and no other
  (`NeverAcceptedTwice`).
- Without aging a task can be passed over forever, unless it is the first in the queue of the highest score
  (`NoAgingStarves`, `FirstInLineIsNext`).

## Model

| member | source | states |
|---|---|---|
| Tasks.Task.TransitionTo | kernel/src/task.rs:196-209 | a legal step moves the state and counts an entry into `Retry`; an illegal one changes nothing and names both states |
| Tasks.ExecutionsMatchRetries | kernel/src/task.rs:64-80 | along every legal lifecycle the executions started equal the retries counted plus one exactly while an attempt is open or has just ended |
| Tasks.CompletedIsFinal | kernel/src/task.rs:59-80 | `Completed` ends every lifecycle and is the only state without a way out |
| Workflow.Dag.AddStep | workflow/src/lib.rs:60-73 | the step is appended, the ids of known handles are copied into the task (unknown ones skipped), and a graph built from its own handles stays self-contained |
| Workflow.Dag.TopologicalOrder | workflow/src/lib.rs:199-229 | on any dependency lists, repeats included: an order is returned exactly when every index is in range and there is no cycle, and it has every step once, after all it depends on |
| Workflow.Dag.ReadDependencies | workflow/src/lib.rs:200-213 | the two tables hold the in-degrees and the dependents; reading stops at the first index out of range |
| Workflow.Release | workflow/src/lib.rs:217-223 | emitting a step lowers the in-degree of its dependents once for each mention and readies exactly those that reach zero |
| Workflow.OrderExcludesCycle | workflow/src/lib.rs:199-229 | where there is an execution order, every index is in range and nothing depends on itself in a circle |
| Workflow.CycleDescends | workflow/src/lib.rs:199-229 | walking along a cycle only ever moves earlier in an execution order |
| Workflow.StuckStepsHaveCycle | workflow/src/lib.rs:224-228 | steps that all wait for one another contain a cycle |
| Workflow.UnfinishedHasCycle | workflow/src/lib.rs:224-228 | when the ready stack runs empty before all steps are out, the steps left contain a cycle |
| Workflow.EarlierDepsAreOrderable | workflow/src/lib.rs:190-198 | dependencies on earlier steps only always admit an order |
| Definitions.FromDefinition | workflow/src/lib.rs:103-167 | the workflow is built step by step as the text says, under the name the text gives it before its first step; errors are exactly those of the text, and whatever is accepted can be put in order and run to the end |
| Definitions.ReadingIsSound | workflow/src/lib.rs:103-167 | an accepted definition has different step names, dependencies on earlier steps only, and nothing in its names that writing would not keep |
| Definitions.DefinitionRoundTrip | workflow/src/lib.rs:89-167 | a definition reads back from its text exactly if it is one that reading can return |
| Definitions.ReadingIsWritable | workflow/src/lib.rs:103-167 | whatever text is read, the definition that comes out is one that can be written |
| Definitions.DepsRead | workflow/src/lib.rs:140-152 | names listed as dependencies resolve to the steps that bear them, in order |
| Definitions.DepsExactly | workflow/src/lib.rs:140-152 | a definition is refused exactly if a listed name is not that of an earlier step; otherwise each name gives the step that bears it, in order |
| Definitions.SpecTextRead | workflow/src/lib.rs:127-152 | capability and dependencies of a step are read back from its text |
| Scores.Norm | scheduler/src/lib.rs:109-115 | every factor, infinities and NaN included, is brought into [0, 1]; values already there stay |
| Scores.ScoreFactors.Score | scheduler/src/lib.rs:83-103 | every score lies in [0, 2], whatever the factors are |
| Scores.NormIsNearest | scheduler/src/lib.rs:105-115 | a number counts as the point of [0, 1] nearest to it, infinities as the ends, NaN as the low one |
| Scores.PrioritiesWeigh | scheduler/src/lib.rs:84-89 | with the same factors a more urgent task scores higher: from `Low` to `Normal` and from `Normal` to `High` by as much, from `High` to `Critical` by twice that |
| Scores.FactorsWeigh | scheduler/src/lib.rs:90-97 | raising a factor raises the score: deadline, importance, runtime fit and the three others as 6 to 5 to 3 to 2; all six together count as much as the priority from `Low` to `Critical`, which is 1 |
| Scores.FactorsAreApart | scheduler/src/lib.rs:83-98 | what one factor is worth depends neither on the others nor on the priority |
| Scores.ScoreExtremes | scheduler/src/lib.rs:83-115 | the score is 2 exactly for `Critical` with every factor in full, and 0 exactly for `Low` with none |
| Scores.SurpassingScores | scheduler/src/lib.rs:83-98 | at least as urgent with factors at least as good, and better in something, scores higher |
| Scheduling.Scheduler.SubmitScored | scheduler/src/lib.rs:171-177 | the task is queued last, stamped with the clock; as a step of the queue as a value |
| Scheduling.Scheduler.FindBest | scheduler/src/lib.rs:200-215 | the scan finds the first ready task with the highest effective score, and none only when no task is ready |
| Scheduling.Scheduler.DispatchNext | scheduler/src/lib.rs:200-217 | one cycle advances the clock and removes exactly the best ready task, which no ready task outdoes in priority, factors or waiting time without being behind it in another; with none ready the queue stays; as a step of the queue as a value |
| Scheduling.BestIsNotOutdone | scheduler/src/lib.rs:200-215 | the best of the ready tasks is outdone by none of them |
| Scheduling.Scheduler.WithAgingRate | scheduler/src/lib.rs:158-163 | a scheduler with the rate given, or 0 for a negative one |
| Scheduling.ValidIsWellFormed | scheduler/src/lib.rs:129-139 | the theorems about runs of steps apply to every scheduler |
| Scheduling.SwapRemoveContents | scheduler/src/lib.rs:216 | removal by swapping keeps every other entry, and moves only the last one |
| Aging.EffectiveIsKeyPlusClock | scheduler/src/lib.rs:208-209 | an effective score is a key that never changes plus a term of the clock alone |
| Aging.WaitingOrderIsFixed | scheduler/src/lib.rs:208-209 | the gap between two waiting tasks is the same at every clock |
| Aging.LowCatchesUp | scheduler/src/lib.rs:125-127 | at the default rate a `Low` task catches up with a `Critical` one of the same factors exactly once it has waited twenty ticks longer |
| Aging.NoLateOvertaking | scheduler/src/lib.rs:196-217 | a dispatched task was enqueued at most 2/rate ticks after any task that was ready with it |
| Aging.StepUsesUpOld | scheduler/src/lib.rs:196-217 | while a task has waited that long, every dispatch uses up an entry queued before it had |
| Aging.BoundedOvertaking | scheduler/src/lib.rs:196-217 | no starvation over any stream of arrivals: after waiting more than 2/rate ticks a ready task is dispatched before as many dispatches have happened as tasks were queued then |
| Aging.NoAgingStarves | scheduler/src/lib.rs:158-163 | with rate 0 there is no bound: from any state, a task without the highest score, or with it but behind another that has it, is passed over n times in some run, for every n |
| Aging.FirstInLineIsNext | scheduler/src/lib.rs:196-217 | otherwise it is not passed over at all: whatever arrives or completes first, the next dispatch takes it |
| Trace.UnfinishedHasReady | sdk/src/engine.rs:351-352 | no deadlock: in a runnable workflow, unfinished work always contains a ready task |
| Trace.FinishedIsRunnable | sdk/src/engine.rs:328-393 | a run that finished ranks its tasks, so only runnable workflows finish |
| Trace.CompletionKeepsInv | sdk/src/engine.rs:377-378 | a completed attempt keeps every task's events, the order of completions and the start-after-dependencies rule |
| Trace.RetryKeepsInv | sdk/src/engine.rs:432-441 | a retried attempt keeps the same, with one more failed round |
| Trace.LastFailure | sdk/src/engine.rs:366-376 | a third failure leaves a trace of exactly three failed rounds |
| Trace.TotalBound | sdk/src/engine.rs:58 | all retries together are bounded by twice the number of tasks |
| Execution.Engine.Execute | sdk/src/engine.rs:187-309 | state and events tell the same story in every case: denied, unroutable, illegal state, runtime failure, verification failure, success |
| Execution.Engine.Requeue | sdk/src/engine.rs:432-441 | a failed task is queued again as a fresh copy with one more attempt and the same priority and capability, stamped with the clock, exactly while fewer than two retries are used |
| Execution.Engine.RunWorkflow | sdk/src/engine.rs:328-393 | for every environment: every task that starts is worth most, by score and waiting, of all that can start then, and its attempt ends as the environment says; `Ok` means results in dependency order, each completed, the completion event once and last, and all tasks present exactly if the workflow is runnable; `Err` never announces completion and names what the last attempt failed in; with good answers only, the results come by score; unorderable exactly for an index out of range or a cycle |
| Execution.Engine.Drain | sdk/src/engine.rs:351-390 | the dispatch loop ends, after at most 3n executions, with nothing left that can run or with a task given up on; every start is that of the task that goes first |
| Execution.Engine.RunRound | sdk/src/engine.rs:351-390 | one round records a completion, sends a failed task round again, or gives up, as the environment's answer says |
| Execution.Engine.SubmitAll | sdk/src/engine.rs:333-349 | every step's task is queued once, as a copy with its dependencies, its factors and the priority it has or else that of the agent that serves it |
| Execution.Engine.CopyFor | sdk/src/engine.rs:336-346 | a copy keeps a priority of its own; a default one becomes that of the serving agent, if there is one |
| Execution.BestGoesFirst | scheduler/src/lib.rs:196-217 | the best entry of the queue is that of the task that goes first: worth most of all tasks whose dependencies have completed |
| Execution.FollowedNext | sdk/src/engine.rs:351-390 | a round keeps every start that of the task that went first, and every attempt ending as the environment said |
| Schedules.StraightIsByScore | sdk/src/engine.rs:351-390 | if nothing fails nobody has waited longer than another, and each result belongs to the task with the highest score of those that could start |
| Execution.InvIsWellTraced | sdk/src/engine.rs:58 | at any point the events of each task are failed rounds, then at most one success, and starts plus pending tasks stay within 3n |
| Execution.FinishRun | sdk/src/engine.rs:391-392 | when nothing more can run, publishing completion gives a completed run |
| Execution.CompleteIffRunnable | sdk/src/engine.rs:351-392 | when nothing queued can run, everything is done exactly if the workflow is runnable |
| Execution.AbandonedRun | sdk/src/engine.rs:366-389 | giving up on a task gives an aborted run whose error is the policy's, the routing's, the runtime's or the verifier's exactly as the last attempt failed there |
| Execution.SelfContainedRuns | workflow/src/lib.rs:60-73 | a workflow built from its own handles, without preset dependencies, is runnable |
| Execution.OutsideDependencyNeverRuns | kernel/src/task.rs:172-175 | a dependency on a task outside the workflow makes it not runnable, so `Ok` then leaves work out |
| Graph.KnowledgeGraph.AddNode | graph/src/lib.rs:201-216 | a node under a new id with confidence at most 100 |
| Graph.KnowledgeGraph.BumpConfidence | graph/src/lib.rs:228-232 | confidence rises to the floor, never above 100 through the floor and never down |
| Graph.KnowledgeGraph.Connect | graph/src/lib.rs:249-255 | an edge is appended; neither end has to exist |
| Graph.KnowledgeGraph.RemoveNode | graph/src/lib.rs:261-270 | the node, its outgoing edges and exactly the edges that enter it are gone |
| Graph.NamedKindsComeBack | graph/src/lib.rs:80-110 | named kinds of nodes and edges come back from their tokens |
| PageRank.PagerankCore | graph/src/lib.rs:444-500 | the loop computes the iterates of the chain of live links for the damping given, or the end of [0, 1] it lies beyond, for any enumeration of the nodes |
| PageRank.Round | graph/src/lib.rs:463-497 | one round over the nodes in any order is one step of the chain |
| PageRank.Visit | graph/src/lib.rs:470-492 | a node's rank is split over its live links, or set aside when it has none |
| PageRank.Pagerank | graph/src/lib.rs:394-406 | the ranks for the damping given are non-negative and sum to exactly 1, dangling nodes and dead edges included; without damping or iterations they are uniform; an empty graph gives nothing |
| PageRank.PersonalizedPagerank | graph/src/lib.rs:416-435 | the ranks for the damping given on the chain that teleports to the seeds; they are non-negative and sum to at most 1, to exactly 1 if and only if no present seed is repeated; without present seeds nothing |
| PageRank.ClampIsNearest | graph/src/lib.rs:454 | the damping used is the point of [0, 1] nearest to the one asked for |
| PageRank.NoDampingRestarts | graph/src/lib.rs:454-497 | without damping the ranks are the restart distribution |
| PageRank.OneMoreIteration | graph/src/lib.rs:386-394 | the ranks for k and k+1 iterations differ by at most 2·damping^(k+1) |
| PageRank.RanksApproach | graph/src/lib.rs:386-394 | the ranks after k iterations are within 2·damping^k of any distribution that an iteration leaves alone |
| PageRank.LiveTargetsAre | graph/src/lib.rs:470-479 | a node is counted once for every edge that points at it, if it exists |
| PageRank.SeedMass | graph/src/lib.rs:422-434 | the shares of the present seeds sum to 1 exactly when none is repeated |
| PageRank.RowSum | graph/src/lib.rs:470-492 | what a node passes on sums to what it has |
| PageRank.NextKeepsDistribution | graph/src/lib.rs:444-500 | a step keeps ranks non-negative and summing to 1 |
| PageRank.IterateIsDistribution | graph/src/lib.rs:444-500 | so does every number of steps |
| PageRank.MissingMassStaysMissing | graph/src/lib.rs:422-434 | a teleport that sums to less than 1 never gains mass |
| PageRank.Contraction | graph/src/lib.rs:444-500 | a step brings any two rank vectors closer in L1 by the damping factor |
| PageRank.StepsShrink | graph/src/lib.rs:386-394 | iterates k and k+1 differ by at most 2·d^(k+1) |
| PageRank.IterateApproaches | graph/src/lib.rs:386-394 | the k-th iterate is within 2·d^k of any stationary distribution |
| PageRank.StationaryIsUnique | graph/src/lib.rs:444-500 | below damping 1 there is at most one stationary vector |
| Traversal.TraverseWithHops | graph/src/lib.rs:524-547 | exactly the present nodes other than the start within the hop limit, each once, with its shortest distance, in order of distance; those of a search of one hop in the order of the start's edges |
| Traversal.LevelsComplete | graph/src/lib.rs:531-545 | everything some path reaches within the finished levels has been visited at no greater distance |
| Traversal.NewNodeDistance | graph/src/lib.rs:537-543 | a target not visited before is exactly one hop beyond the current level |
| GraphLock.FileIsAlwaysOneSave | graph/src/store.rs:128-192 | over every run of any number of processes, bare saves, broken locks and crashes included: the graph file is the first one or the text of one complete save |
| GraphLock.StepKeepsIntact | graph/src/store.rs:128-137 | every step keeps scratch files apart, each holding a prefix of its writer's own text |
| GraphLock.NoUpdateIsLost | graph/src/store.rs:194-209 | over every interleaving of `update` calls, crashes, I/O errors at any point (while acquiring included), lock files that cannot be removed, and the recovery from crashed holders, as long as no running writer's lock is judged stale: at most one running holder; the file is the composition of the renamed updates in lock order; every update that reported success is in it once and none that reported failure |
| GraphLock.BreakingIsHarmlessExactly | graph/src/store.rs:66-74 | after any such run, breaking a lock leaves mutual exclusion intact over everything that may follow exactly if no running writer held it |
| GraphLock.RunIsSerial | graph/src/store.rs:54-100 | the invariant behind it: what a holder carries was computed from the file as it still is |
| GraphLock.StepKeepsInOrder | graph/src/store.rs:199-209 | every step keeps the renames in lock order and the file equal to their composition |
| GraphLock.BrokenLockAdmitsTwo | graph/src/store.rs:66-74 | a run in which a running writer's lock is broken and two hold it at once |
| GraphFormat.LoadOfSave | graph/src/store.rs:141-260 | loading what was saved inserts exactly the written nodes and connects exactly the written edges, each in the form the text gives it |
| GraphFormat.StoredFormComesBack | graph/src/store.rs:141-260 | saving a graph and loading it gives its stored form, for any ids and every order of nodes and edges: under each id as the text keeps it one of the nodes with that id, and from it all their edges; if no two ids become one, that is all of the graph |
| GraphFormat.StoredFormIsFinal | graph/src/store.rs:105-108 | storing what was stored changes nothing further |
| GraphFormat.NoNodeIsLostExactly | graph/src/store.rs:105-108 | for any ids, no node is lost in saving and loading exactly if no two ids become one |
| GraphUpdates.UpdatesCompose | graph/src/store.rs:194-260 | the graph loaded after a run is the first one changed by each renamed update in lock order, every change followed by the text's stored form, for any ids |
| GraphUpdates.LoadedIsKeyed | graph/src/store.rs:213-260 | whatever a file says, nodes and edges of the loaded graph stand under their own ids |
| GraphFormat.Save | graph/src/store.rs:141-172 | the text written lists every node once, by id, and every edge, by ends and kind; it is the one text of the graph |
| GraphFormat.SavedTextIsStable | graph/src/store.rs:145-169 | the file is byte-stable: two saves of one graph give the same text, whatever the order of its tables |
| Ordering.SortedAgree | graph/src/store.rs:161-169 | two sorted arrangements of the same elements differ only between elements the order does not tell apart |
| Ordering.AheadComeFirst | sdk/src/kql.rs:561-574 | in a sorted list an element stands behind exactly those that come before it under every tie-break |
| Ordering.SortIsStable | sdk/src/kql.rs:563-570 | sorting leaves tied elements in the order in which they came |
| Ordering.FirstDifferenceDecides | sdk/src/kql.rs:569-570 | texts are compared by the first character in which they differ; a prefix goes first |
| GraphFormat.Load | graph/src/store.rs:213-260 | the loops compute the loaded graph; edges are connected after all nodes |
| GraphFormat.NodeLineRead | graph/src/store.rs:149-159 | a node's line reads back as the node in stored form |
| GraphFormat.FieldsAreKept | graph/src/store.rs:105-108 | what fits into fields is kept as it is: named kinds, confidences up to 100, dates and provenances that are not empty |
| GraphFormat.SanitizedAt | graph/src/store.rs:105-108 | tabs and line ends become blanks; every other character stays where it is |
| GraphFormat.OtherLinesSayNothing | graph/src/store.rs:222-227 | comments, blank lines and lines that are neither a node's nor an edge's change nothing |
| GraphFormat.ListedByEnds | graph/src/store.rs:161-169 | edges are listed by where they start, those of one start by where they end, those of one pair by kind |
| GraphFormat.EdgeLineRead | graph/src/store.rs:170-177 | an edge's line reads back as the edge in stored form |
| Kql.ParseOr | sdk/src/kql.rs:379-389 | parsing a filter consumes at least one token when it succeeds |
| KqlFilters.OrRoundTrip | sdk/src/kql.rs:372-434 | parsing a rendered filter gives it back and leaves the rest, with only the parentheses that NOT > AND > OR requires |
| KqlFilters.AndRoundTrip | sdk/src/kql.rs:391-401 | the same where a list of `AND` may stand |
| KqlFilters.NotRoundTrip | sdk/src/kql.rs:403-434 | the same for a single operand |
| KqlFilters.OrSound | sdk/src/kql.rs:379-389 | a parsed filter is well formed, and parsing stops at the first token that cannot continue it |
| KqlFilters.AndSound | sdk/src/kql.rs:391-401 | the same at the level of `AND` |
| KqlFilters.NotSound | sdk/src/kql.rs:403-434 | the same for a single operand |
| KqlQueries.QueryRoundTrip | sdk/src/kql.rs:291-370 | parsing the tokens of a rendered query gives the query back |
| KqlQueries.FiltersRoundTrip | sdk/src/kql.rs:357 | several `FILTER` clauses are collected in order |
| KqlQueries.SelectorRoundTrip | sdk/src/kql.rs:302-326 | the `FIND` selector is read back, and ends before the first clause |
| KqlQueries.ClausesSound | sdk/src/kql.rs:340-370 | whatever the clauses, the query returned is well formed, with `RETURN` filled in |
| KqlMeaning.ClausesAreTaken | sdk/src/kql.rs:307-311 | the words that end a selector are exactly those that start a clause |
| KqlText.TokensRoundTrip | sdk/src/kql.rs:179-247 | the tokens of a written list are read back |
| KqlText.TokensSound | sdk/src/kql.rs:179-247 | reading gives words without blanks and specials, and strings without quotes |
| KqlText.TextRoundTrip | sdk/src/kql.rs:291-370 | for every query that parsing can return, reading the written query gives it back |
| KqlText.ParseSound | sdk/src/kql.rs:291-370 | whatever text is read, a query that comes out is one the renderer covers |
| KqlText.ReadingIsNormal | sdk/src/kql.rs:291-370 | writing a query that was read and reading it again changes nothing |
| KqlParser.ReadTokens | sdk/src/kql.rs:179-247 | the tokenizer's loop computes the tokens, or fails exactly on an unterminated string |
| KqlParser.ReadToken | sdk/src/kql.rs:182-243 | one token and where the next may start |
| KqlParser.Parser.EatKeyword | sdk/src/kql.rs:272-280 | advances exactly over a matching keyword |
| KqlParser.Parser.FilterOr | sdk/src/kql.rs:379-389 | the loop computes the grammar's filter and leaves the cursor after it |
| KqlParser.Parser.FilterAnd | sdk/src/kql.rs:391-401 | the same for `AND` |
| KqlParser.Parser.FilterNot | sdk/src/kql.rs:403-409 | the same for `NOT` |
| KqlParser.Parser.FilterAtom | sdk/src/kql.rs:411-434 | the same for parentheses and comparisons |
| KqlParser.Parser.Order | sdk/src/kql.rs:439-455 | direction, with optional `BY` and `DESC` by default |
| KqlParser.Parser.Date | sdk/src/kql.rs:465-471 | only well-formed dates with month and day in range |
| KqlParser.Parser.Returns | sdk/src/kql.rs:479-498 | targets joined by plus signs |
| KqlParser.Parser.Clauses | sdk/src/kql.rs:340-370 | clauses in any order until the tokens end |
| KqlParser.ParseQuery | sdk/src/kql.rs:291-370 | the whole parser computes what the grammar says, error by error |
| Text.UnsignedAre | sdk/src/kql.rs:473-477 | numbers are read exactly from digits after at most one plus sign, within their type's range |
| Text.DigitsAre | sdk/src/kql.rs:473-477 | the digits are the ten from 0 to 9, each printed as itself |
| KqlExecution.SpellingsAgree | sdk/src/kql.rs:540-556 | a relation is found under every spelling that differs in case and punctuation only |
| KqlMeaning.SquashConcat | sdk/src/kql.rs:538-545 | only letters and digits of a relation's name count, in lower case |
| KqlExecution.FindSelected | sdk/src/kql.rs:643-650 | exactly the nodes that match the selector, every filter and the time bounds, each once |
| KqlMeaning.ComparisonsPair | sdk/src/kql.rs:98-106 | `>` and `<=` exclude each other and leave nothing out, as do `<` and `>=`; `=` is both of `<=` and `>=` |
| KqlMeaning.AboveGrows | sdk/src/kql.rs:98-106 | the lower the bound, the more is above it |
| KqlMeaning.FiltersJoin | sdk/src/kql.rs:576-583 | `AND` admits what both sides admit, `OR` what either does, `NOT` what the other does not |
| KqlMeaning.FiltersNarrow | sdk/src/kql.rs:585-587 | every `FILTER` clause has to hold |
| KqlMeaning.DatesArePrintedDays | graph/src/lib.rs:40-57 | the dates accepted are exactly the printed days of years 0 to 9999, months 1 to 12 and days 1 to 31 |
| KqlMeaning.DatesCompare | sdk/src/kql.rs:589-593 | printed days compare as text the way they follow each other |
| KqlMeaning.TimeBounds | sdk/src/kql.rs:594-612 | `BEFORE` keeps the nodes dated earlier than its day and `AFTER` those dated later; undated nodes pass only without bounds |
| KqlMeaning.SelectorMeans | sdk/src/kql.rs:614-626 | a selector names a kind, up to case, and a text that occurs in the name, up to lower-casing |
| KqlMeaning.ShownAlike | sdk/src/kql.rs:628-636 | two nodes are shown alike exactly if they differ in nothing but their ids and how their kinds are spelled |
| Text.EqualApartFromCase | sdk/src/kql.rs:616 | texts are equal apart from case exactly if they are letter by letter |
| KqlExecution.Neighbors | sdk/src/kql.rs:667-671 | one hop, by traversal or along edges of the named kind: the answers among what is found come in the order of the edges |
| KqlExecution.FindRelated | sdk/src/kql.rs:652-692 | the admitted nodes of the related kind that one hop leads to from the selected nodes, each where it is found first, told apart by id |
| KqlExecution.RelatedIdsAre | sdk/src/kql.rs:652-692 | those are exactly the nodes of the right kind, admitted, that an edge leads to from some selected node other than themselves, each once |
| KqlExecution.OrderAndLimit | sdk/src/kql.rs:558-574 | what was found, the more trusted first unless `ASC` is asked for, equally trusted ones by name and then as they came, cut at the limit |
| KqlExecution.AnswerIsTop | sdk/src/kql.rs:561-574 | an answer stands in the order asked for, and leaves nothing out that would have to stand before what it shows |
| KqlExecution.Execute | sdk/src/kql.rs:636-697 | the answer shows the selected nodes as they are walked and the related ones as they are found from them; each list in the order asked for, as many as the limit allows, and none left out that would have to stand before one shown |
| KqlExecution.SelectedAreDetermined | sdk/src/kql.rs:558-574 | the answer of selected nodes is the same for every walk of the node table exactly when no nodes of one confidence and name that are shown differently come within the limit |
| KqlExecution.RelatedNodesAreDetermined | sdk/src/kql.rs:558-560 | the related nodes shown are the same for every walk exactly when no node tied with a shown one and ranked after it can be led to before it |
| KqlExecution.RelatedAnswerIsDetermined | sdk/src/kql.rs:558-574 | the related answer is the same for every walk if no node tied with a shown one, ranked after it and shown differently, can be led to before it; and only then, where no two related nodes are shown alike |
| KqlExecution.AlikeNodesMayHideRivals | sdk/src/kql.rs:558-574 | a graph where a rival takes the place of a node shown alike and the answer stays the same, so that the condition is not necessary when nodes are shown alike |
| KqlExecution.AnswerCanDependOnWalk | sdk/src/kql.rs:558-560 | a graph of two nodes and a limit of one where either may be shown |
| FileFormat.UnescapeEscape | memory/src/file_store.rs:201-264 | unescaping undoes escaping, for keys and for values |
| FileFormat.OtherEscapesStay | memory/src/file_store.rs:236-264 | unknown escapes and a final backslash stay as they are |
| FileFormat.EscapedIsOneLine | memory/src/file_store.rs:201-235 | escaped text has no line ends, and an escaped key no colon |
| FileFormat.WriteEscaped | memory/src/file_store.rs:201-235 | the loop computes the escaped text |
| FileFormat.ReadEscaped | memory/src/file_store.rs:242-264 | the loop computes the unescaped text, unknown escapes kept |
| FileRoundTrip.HeaderEnds | memory/src/file_store.rs:288-294 | the first blank line of a written file is the one after the header, whatever the body |
| LineText.LinesOfJoined | memory/src/file_store.rs:302-306 | the header's lines are the written ones |
| FileRoundTrip.FieldCut | memory/src/file_store.rs:266-268 | a field line is cut at its own delimiter and its value unescaped |
| FileRoundTrip.EmbeddingRoundTrip | memory/src/file_store.rs:279-282 | an embedding is read back, the empty one included |
| FileRoundTrip.MetaAllApplied | memory/src/file_store.rs:283-285 | metadata is rebuilt whatever order it was written in |
| FileRoundTrip.RoundTrip | memory/src/file_store.rs:271-337 | reading undoes writing for every document: any characters anywhere, any order of the metadata |
| FileFormat.OtherLinesSayNothing | memory/src/file_store.rs:302-333 | header lines without a delimiter or with an unknown key are ignored |
| FileFormat.NothingStated | memory/src/file_store.rs:293-300 | a file without header fields is a document with nothing but its id and its body |
| LineText.LineEnds | memory/src/file_store.rs:302 | lines end with a line feed, or a carriage return and a line feed |
| Text.SplitOnceIsFirst | memory/src/file_store.rs:294 | texts are cut where the delimiter occurs first |
| FileStores.Serialize | memory/src/file_store.rs:271-290 | the text written is the document's, with the metadata in some order |
| FileStores.Deserialize | memory/src/file_store.rs:293-337 | the line loop computes the document read |
| FileStores.FileStore.Open | memory/src/file_store.rs:103-133 | the index holds exactly the readable document files, in whatever order they are listed, and unreadable ones are counted |
| FileStores.FileStore.Write | memory/src/file_store.rs:158-163 | a successful write updates file and index together; a failed one leaves both, up to a scratch file; an index that mirrors the directory still does exactly unless an empty id was written |
| FileStores.FileStore.Read | memory/src/file_store.rs:165-167 | answers from the index, with a document that is on disk under that id |
| FileStores.FileStore.Delete | memory/src/file_store.rs:169-177 | removes from both; when the file cannot be removed the index has already lost the document and no longer mirrors the directory |
| FileStores.ApplyAt | memory/src/file_store.rs:158-177 | an operation settles whether index and directory agree on a document it affects, and leaves every other document alone |
| FileStores.ReopeningFindsIndex | memory/src/file_store.rs:103-177 | after any run of writes and deletes, failed ones and empty ids included, reopening the directory rebuilds exactly the live index if and only if for each document the last operation that did something to it is neither a deletion whose file stayed nor a write under the empty id |
| Versioning.GraphRepo.Commit | graph/src/versioning.rs:105-111 | appends a version on the current tip and moves only the current branch |
| Versioning.GraphRepo.Branch | graph/src/versioning.rs:114-116 | a branch at the head; nothing else moves |
| Versioning.GraphRepo.Checkout | graph/src/versioning.rs:119-126 | switches exactly to known branches |
| Versioning.GraphRepo.Log | graph/src/versioning.rs:129-137 | the loop lists the ancestry of the head |
| Versioning.AncestryDescends | graph/src/versioning.rs:129-137 | a log goes strictly down along parents to version 0 |
| Versioning.AncestryIsStable | graph/src/versioning.rs:105-111 | later commits never change a version's log |
| Versioning.GraphRepo.Merge | graph/src/versioning.rs:141-229 | commits the merge on the current branch; earlier snapshots and other tips are unchanged; an unknown branch changes nothing |
| Versioning.MergeGraphs | graph/src/versioning.rs:141-227 | the loops compute a merge: nodes by identity, attributes by strategy, edges by triple, conflicts reported once each, in the order of their identities |
| Versioning.MergeHasEachIdentityOnce | graph/src/versioning.rs:147-208 | the merge has every identity of either side exactly once and no other |
| Versioning.MergeEdges | graph/src/versioning.rs:211-226 | the triples of the result are those of both sides, each once; edges with a missing end are left out |
| Versioning.HigherConfidenceKeepsMaximum | graph/src/versioning.rs:167-190 | with unique identities the higher-confidence strategy keeps the maximum |
| Versioning.MergedFromBoth | graph/src/versioning.rs:161-206 | of two nodes of one identity the merge keeps our kind and name, and the attributes of ours, of theirs, or of theirs where they are strictly more trusted, as the strategy says |
| Versioning.MergedFromOne | graph/src/versioning.rs:188-206 | a node of one side only is kept with its kind, name and attributes |
| Versioning.ConflictsAre | graph/src/versioning.rs:169-182 | a conflict is reported exactly where attributes differ, with both confidences and the one kept |
| Versioning.OnlyConflicts | graph/src/versioning.rs:169-195 | conflicts are about identities of both sides, and what is new from theirs is counted |
| Versioning.IdentityMeans | graph/src/versioning.rs:63-66 | nodes of kinds without colons are the same exactly if kind and lower-cased name are |
| Versioning.IdentitiesMayClash | graph/src/versioning.rs:63-66 | two nodes of different kinds and names that a merge takes for one, by a colon in a kind |
| Versioning.SameTriple | graph/src/versioning.rs:211-222 | two edges say the same exactly if they join the same identities with the same kind |
| Versioning.SelfMergeIsQuiet | graph/src/versioning.rs:162-200 | merging a graph with itself reports no conflict and adds nothing |
| Versioning.ConnectAddsTriple | graph/src/versioning.rs:219-224 | connecting adds exactly the edge's triple |
| Sentences.ParseSentence | graph/src/extract.rs:139-169 | the loop computes the parse: longest runs of entity words without leading stop words, and the lower-cased words between each two |
| Sentences.ParseIsSound | graph/src/extract.rs:120-169 | one gap for each pair of neighbouring entities; entities are runs of entity words not starting with a stop word |
| Sentences.PiecesConcat | graph/src/extract.rs:145-167 | a sentence may be parsed in parts that do not cut a run |
| Sentences.PiecesAre | graph/src/extract.rs:145-167 | a run of entity words is the phrase of those after its leading stop words, if any are left; other words are said in lower case |
| Sentences.JoinWordsConcat | graph/src/extract.rs:145-167 | the words of a phrase and of a gap are joined by single blanks |
| Sentences.RelationMeans | graph/src/extract.rs:173-196 | authorship goes before dependency, that before implementation, that before reference, wherever their phrases stand; a text without any only relates |
| Extraction.CountMentions | graph/src/extract.rs:284-297 | names are counted over all sentences, case aside |
| Extraction.ConfidenceFor | graph/src/extract.rs:208-210 | confidence never exceeds 100 |
| Extraction.ConfidenceGrows | graph/src/extract.rs:206-210 | 45 for one mention and 15 more for each further one; 100 exactly from the fifth on |
| Extraction.EnsureNodes | graph/src/extract.rs:310-336 | on any graph: each counted name gets one node, an old one of that name reinforced (any of them, where there are several) or a new one, and the report counts both |
| Extraction.SpellingIsFirst | graph/src/extract.rs:318-325 | a new node is named as its name is spelled where it is mentioned first |
| Extraction.LinkNeighbours | graph/src/extract.rs:342-363 | neighbours are linked in order, each new edge with the kind its gap names |
| Extraction.LinkTogether | graph/src/extract.rs:365-382 | other pairs of a sentence are linked as related, first-mentioned first, unless they were linked before |
| Extraction.LinkSentences | graph/src/extract.rs:338-383 | the pairs connected afterwards are those before and those the sentences ask for, with at most one edge each, of the kind that the first sentence to ask for the pair gives it |
| Extraction.Extract | graph/src/extract.rs:273-386 | the whole pass on any graph, parallel edges and names alike included: nodes, then edges with their kinds |
| Extraction.ExtractConcepts | graph/src/extract.rs:265-386 | parses exactly the sentences given and runs the pass, on any graph |
| Extraction.ExtractionKeeps | graph/src/extract.rs:273-386 | no node is lost, no confidence lowered, edges only appended and never from a node to itself; distinct names stay distinct and single pairs single |
| Extraction.ExtractionIsIdempotent | graph/src/extract.rs:299-307 | a second pass over the same sentences, wherever they are said to come from, changes nothing and adds no node and no edge, if no name they mention is that of two nodes |
| Extraction.SecondPassExactly | graph/src/extract.rs:299-307 | on any graph a second pass adds no node, and leaves the graph as it is exactly if the nodes it picks are trusted enough and linked already |
| Extraction.TwinsMayBreakIdempotence | graph/src/extract.rs:299-307 | two nodes alike up to case and one sentence naming them: a second pass may pick the other one and raise its confidence, too |
| Replay.ReplayGuard.Verify | sdk/src/security.rs:156-182 | checks in order signature, freshness and nonce, forgetting only what aged out |
| Replay.FreshExactly | sdk/src/security.rs:160-167 | an envelope is fresh exactly if neither its timestamp nor the clock is ahead by more than the window |
| Replay.MemoryExactly | sdk/src/security.rs:168-176 | whatever the clock does, the guard remembers exactly the accepted nonces that no later check found aged out |
| Replay.ReplayedExactly | sdk/src/security.rs:156-182 | whatever the clock does, a signed fresh envelope is turned away exactly when its nonce was accepted earlier and not found aged out since |
| Replay.AcceptedAgainExactly | sdk/src/security.rs:168-180 | whatever the clock does, an accepted envelope is accepted again while fresh exactly when a check in between found it aged out |
| Replay.ForgettingLosesNothing | sdk/src/security.rs:168-176 | with a clock that does not run backwards: exactly when its nonce was accepted earlier in an envelope still inside the window |
| Replay.NeverAcceptedTwice | sdk/src/security.rs:153-155 | with a clock that does not run backwards no envelope is accepted twice |
| Replay.BackwardClockAdmitsReplay | sdk/src/security.rs:170-174 | a run whose clock steps back far enough: an envelope is accepted twice |
| Caching.SearchCache.Touch | sdk/src/retrieval.rs:830-835 | the key moves to the back of the queue |
| Caching.SearchCache.Get | sdk/src/retrieval.rs:838-845 | a hit exactly for the most recently touched keys, with the value put last; hits count as uses |
| Caching.SearchCache.Put | sdk/src/retrieval.rs:848-856 | the queue is always the most recently touched distinct keys, as many as fit, and the entries are theirs |
| Caching.SearchCache.Evict | sdk/src/retrieval.rs:852-856 | the loop ends, and keeps the back of the queue |
| Caching.RecentMeans | sdk/src/retrieval.rs:813-857 | a key is among the n most recent exactly when fewer than n distinct keys were touched after it |
| Caching.TouchedWindow | sdk/src/retrieval.rs:830-856 | touching a key moves the window by at most one |
| Metrics.Evaluate | sdk/src/eval.rs:159-168 | the loops over first occurrences compute all five scores |
| Metrics.ScoresBounded | sdk/src/eval.rs:40-141 | all five metrics lie in [0, 1] for every ranking, repeats included |
| Metrics.CountsMean | sdk/src/eval.rs:49-75 | precision and recall count the different relevant documents in the top, of its places and of all relevant ones |
| Metrics.CutoffIs | sdk/src/eval.rs:49-55 | the top is what stands before the place asked for, in a shorter ranking all of it |
| Metrics.ReciprocalRankMeans | sdk/src/eval.rs:77-86 | the reciprocal rank is that of the first relevant document |
| Metrics.AveragePrecisionGains | sdk/src/eval.rs:129-141 | each hit adds the precision at its place, shared among all relevant documents |
| Metrics.HitsAre | sdk/src/eval.rs:40-55 | a hit is a place where a relevant document stands for the first time |
| Metrics.RepeatsNeverHelp | sdk/src/eval.rs:32-45 | collapsing repeats never lowers any metric |
| Metrics.FullScores | sdk/src/eval.rs:40-141 | exactly when nDCG, recall and average precision are 1 |
| Metrics.BetterScoresHigher | sdk/src/eval.rs:40-141 | more relevant documents, or the same ones earlier, never lower a metric |
| Metrics.HitsAscend | sdk/src/eval.rs:40-55 | the m-th distinct relevant hit stands at position m or later |
| Metrics.HitsCount | sdk/src/eval.rs:49-55 | there is one hit for each relevant document in the ranking |
| Metrics.NdcgBound | sdk/src/eval.rs:89-117 | nDCG is at most 1, and 1 only for a perfect top, using only that the discount is positive and decreasing |
| Metrics.AveragePrecisionBound | sdk/src/eval.rs:129-141 | average precision is at most 1, and 1 only when all relevant documents come first |
| Metrics.CollapsingIsBetter | sdk/src/eval.rs:32-45 | without repeats no top hit stands later, at any cutoff |
| Fusion.FuseRrf | sdk/src/retrieval.rs:463-539 | fused scores sum to the worth of every input hit; the result holds the `limit` largest scores in descending order, equal ones by title |
| Fusion.Gather | sdk/src/retrieval.rs:463-483 | each identity has the worth of its hits, shown as its best hit |
| Fusion.EarlierIsWorthMore | sdk/src/retrieval.rs:466-468 | every place is worth something and an earlier one more: the inverse of its number, if the first is number 61 |
| Fusion.NodesAreTheirNames | sdk/src/retrieval.rs:453-461 | graph nodes are told apart by their lower-cased names |
| Fusion.GatheringConserves | sdk/src/retrieval.rs:463-483 | gathering keeps the score mass |
| Fusion.BestIsFirstMaximum | sdk/src/retrieval.rs:477-479 | the hit shown is the first with the highest raw score |
| Fusion.SourcesComplete | sdk/src/retrieval.rs:473-481 | a result records all its sources exactly when those before its best hit occur again from there on |
| Fusion.SourcesLost | sdk/src/retrieval.rs:473-481 | a better hit in a later list discards the sources recorded before it |
| Fusion.FoldNodes | sdk/src/retrieval.rs:485-522 | graph nodes fold exactly into the only document of the same name, in any order |
| Fusion.DocumentsSurvive | sdk/src/retrieval.rs:448-452 | every document among the hits gives exactly one entry, under its own id |
| Fusion.NodesFoldOrSurvive | sdk/src/retrieval.rs:453-461 | a graph node is missing only when it names exactly one document, which has its score |
| Fusion.Rank | sdk/src/retrieval.rs:524-538 | the `limit` largest scores, largest first, equal ones by title; nothing left out scores higher |
| Chunks.Chunk | memory/src/chunk.rs:29-36 | for every text and strategy the chunks say what the text says, white space aside, and none is blank; they are the paragraphs, the windows that are not blank, or the units packed in order so that no chunk takes what does not fit and none leaves what does |
| Chunks.Recursive | memory/src/chunk.rs:241-256 | the chunks hold exactly the units of the text in order; no chunk exceeds the target, and none could have taken the next unit |
| Chunks.Atomize | memory/src/chunk.rs:201-237 | units of at most the target, losing nothing: paragraphs, else sentences, else packed words, else windows |
| Chunks.AtomizeSentence | memory/src/chunk.rs:212-233 | words packed toward the target, over-long ones cut into windows |
| Chunks.WordsAreRuns | memory/src/chunk.rs:212-214 | words are the longest runs without white space |
| Chunks.Sentences | memory/src/chunk.rs:134-148 | cuts after every sentence end and nowhere else, giving the list of sentences |
| Chunks.Adaptive | memory/src/chunk.rs:150-187 | the chunks hold exactly the short paragraphs and the sentences of the long ones, in order; none takes a unit that does not fit and none leaves one that does, so they stay within two characters of the target unless they are a single sentence |
| Chunks.ParagraphsFacts | memory/src/chunk.rs:116-122 | paragraphs lose only white space |
| Chunks.ParagraphsAre | memory/src/chunk.rs:116-122 | paragraphs are what stands between empty lines, trimmed and not blank |
| Text.WhitespaceIs | memory/src/chunk.rs:116-122 | white space is the twenty-five characters of Unicode's White_Space |
| Chunks.WindowsFacts | memory/src/chunk.rs:190-197 | windows are as long as asked, but for the last, and say what the text says |
| Chunks.WindowsCover | memory/src/chunk.rs:190-197 | one after the other, the windows are the text |
| Chunks.OverlapStart | memory/src/chunk.rs:89-114 | the loops compute where the window begins |
| Chunks.WindowStartFacts | memory/src/chunk.rs:66-114 | the window reaches back by at most the overlap and does not begin inside a word unless everything from the raw start on is one word |
| Chunks.ChunkWithOverlap | memory/src/chunk.rs:43-64 | each chunk after the first is its base chunk behind the carried tail of the one before |
| Chunks.OverlapBounded | memory/src/chunk.rs:43-64 | an overlapped chunk ends with its base chunk and is at most twice the overlap and one blank longer; what it carries ends the chunk before |

## Left out

- Execution.Engine.RunWorkflow: requires distinct task ids and tasks as they are created (state `Created`, no attempts);
  ids are minted per task, and a task taken over from an earlier run is not modelled.
- GraphLock.NoUpdateIsLost: assumes that process ids are not reused while a scratch file of theirs is left; when a lock
  is judged stale is a matter of clocks and is not modelled, only whether its holder is still running then.
- FileRoundTrip.RoundTrip: number printing and parsing is assumed to be an inverse pair without commas, line ends and
  empty texts; NaN components are excluded.
- Sentences.ParseSentence: how a sentence is cut into units and which words count as entities or stop words is given
  from outside; katakana segmentation and organization suffixes are not modelled.
- Metrics.NdcgBound: the discount is any positive decreasing function; that the logarithm gives one is not proved.
- Text normalisation, case folding and character classes: Unicode tables are given from outside, except White_Space.
- Floating-point rounding, NaN ranks and overflow of counters: arithmetic is over reals and unbounded integers, except
  where a parsed number is checked against its type's range.
- The audit log, telemetry, reflection and the rationale texts of results.
- Policy rules, capability tokens, identities, planners, messaging and runtime selection.
- HMAC-SHA256 (FIPS 180-4 and section 2 of RFC 2104): a tag is any function of message, nonce and timestamp.
- Mean average precision and mean reciprocal rank: plain means of bounded values.
- Document search, memory scoring, consolidation and garbage collection.
- Centrality lists, DOT output and orphan removal of the graph.
- The HTTP server with its cache coherence, the dashboard and the command line.
- Path names beyond a file's stem: ids are taken to be valid single file names.
