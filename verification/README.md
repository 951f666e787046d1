# Sparkflow: graph kernel, scheduler, retries

Sparkflow runs workflows: a definition lists tasks and what each depends on, a scheduler hands out tasks whose
dependencies have succeeded, workers execute them with retries, and a store keeps the state of every run. This project
models the parts that carry algorithms and state, and proves what they promise.

| file | what it models |
|---|---|
| `Ordering.dfy` | byte-wise string order, the library sorts |
| `Graphs.dfy` | the dependency relation as a value: chains, reachability, cycles, depth |
| `KahnOrders.dfy`, `KahnRun.dfy` | what the FIFO version of Kahn's algorithm returns, and its loop invariant |
| `DagTypes.dfy`, `EdgeMaps.dfy` | statuses, tasks, edge maps with duplicate edges |
| `DagSearch.dfy`, `Dag.dfy` | class `DAG` of `pkg/dag/dag.go`, with the recursive searches |
| `Parser.dfy` | `buildDAG` of `pkg/dag/parser.go`, from the decoded record on |
| `Store.dfy` | the in-memory store |
| `RunMachine.dfy` | one run as a state machine over `Schedule`, start and report steps |
| `Keys.dfy` | idempotency keys, and when they tell tasks apart |
| `Views.dfy`, `Scheduler.dfy` | class `FIFOScheduler`; each of its operations is a step of that machine for every run |
| `Outcomes.dfy` | what a run comes to, in whatever order its tasks are executed |
| `LocalRun.dfy` | the `run` command of `sparkflowctl` and its loop |
| `Retry.dfy`, `DeadLetter.dfy`, `Worker.dfy` | backoff, bounded retries, the dead letter queue, `executeTask` |
| `Deployment.dfy` | a scheduler and a worker over one store, with the history of every run |

How the parts meet:

- The graph algorithms (sort, cycle search, two closures, roots and leaves) are methods on the mutable task and edge
  maps. Each is compared with `Graphs`, where everything is defined by paths, and so they agree with one another.
- Iterating over a Go map is an arbitrary choice (`:|`). Where the result should not depend on it, the contract fixes
  the result uniquely (`KahnOrders.KahnOrderUnique`, `Dag.ReadyListingUnique`, lists in lexicographic order).
- `RunMachine` has no heap and no store. In `Deployment` every run in the store has a history of its own, and each
  operation of the scheduler and the worker is proved to extend the histories by the machine's steps. So the theorems over
  all action sequences hold for the runs in the store (`Deployment.Deployment.RunIsSafe`, `Deployment.FinishedForGood`,
  `Deployment.FailureForGood`). Submitting a DAG under an ID that has live runs requires the tasks of those runs.
  The class `Deployment` stands for the processes that share a store; the original has no type for them.
- What the operations compute is also said by fields and positions, apart from the functions that their bodies use:
  orders by `Ordering.Precedes` and `DagTypes.GoesBefore`, a call to `Schedule` by the records it changes
  (`Scheduler.CallMakes`), outcomes by registry and replies (`LocalRun.Told`, `Worker.EndsAsScripted`), built tasks by the
  record (`Parser.TaskAsWritten`), delays in closed form (`Retry.ClosedForm`).
- Run and instance IDs, the clock, random draws, executor results and cancellations are parameters, quantified over.
- Loop bodies of long Go functions are methods of their own here, with the same statements in the same order.

## What the code does that its documentation does not say

- A delay is capped at `MaxBackoff` only while the uncapped value fits a `Duration`; beyond that the conversion may come
  out negative and passes the cap (`Retry.CapHoldsIffFits`; `Retry.DelayMayGoNegative` gives the 35th delay of a
  one-second policy).
- Jitter comes after the cap, so a delay may exceed `MaxBackoff`, by up to a quarter: the tenth delay of the default
  policy may be six minutes with a cap of five (`Retry.JitterExceedsCap`). It cannot exactly without jitter, or while the
  delay before jitter is below about four fifths of the cap (`Retry.JitterKeepsCapExactly`).
- A failed, cancelled or skipped task with a successor leaves its run Running for ever, and `sparkflowctl run` then polls
  for ever (`RunMachine.FailureInsideNeverEnds`, `LocalRun.RunLocal`; `LocalRun.PollsForEver` gives the two-task case).
- A run whose tasks ended Cancelled or Skipped, none Failed, ends as Success (`RunMachine.FinishedMeansEnded`, `RunMachine.CancelledEndsInSuccess`).
- The "FIFO" scheduler returns instances of newer runs before those of older ones (`Scheduler.FIFOScheduler.Schedule`).
- `ListRuns` ignores an offset that lies past the end, and so returns the first page again (`Store.OffsetPastTheEnd`).
- An idempotency key does not determine its parts for arbitrary strings. As run IDs are UUIDs, two tasks can share a key
  only if one DAG ID is the other followed by a dash and a UUID that is also the ID of a run of the other DAG
  (`Keys.EqualUuidKeys`, `Keys.UuidsToldApartExactly`): it takes a coincidence of UUIDs, and without one the key index is
  exact (`Deployment.Deployment.IndexIsExact`).
- A successful result that comes with an error is retried, but if it is the last one the task ends in Success
  (`Worker.SuccessExactly`). A negative retry count leaves the task Running (`Worker.HowTasksEnd`).

## Model

| member | source | states |
|---|---|---|
| Dag.DAG.constructor | pkg/dag/dag.go:118-130 | an empty DAG with version 1 and room for 16 concurrent tasks |
| Dag.DAG.AddTask | pkg/dag/dag.go:133-142 | succeeds exactly for a new non-empty ID; the map gains that one task or nothing, and the error names the reason |
| Dag.DAG.AddEdge | pkg/dag/dag.go:145-154 | succeeds exactly if both ends are tasks; the target is then appended to the source's list, else nothing changes |
| Dag.DAG.BuildEdgesFromDependencies | pkg/dag/dag.go:157-168 | succeeds exactly if all dependencies exist; edges are then the dependency lists inverted, multiplicity for multiplicity; an error names a real missing dependency |
| Dag.DAG.LinkDependencies | pkg/dag/dag.go:159-166 | one task's dependencies become edges, each as often as listed |
| EdgeMaps.InvertsGraph | pkg/dag/dag.go:157-168 | inverted edges describe the same relation as the dependency lists |
| Dag.DAG.CountInDegrees | pkg/dag/dag.go:209-218 | in-degrees count edges with multiplicity |
| Dag.DAG.LowerDegrees | pkg/dag/dag.go:236-241 | takes one off per edge listed; exactly the targets that reach zero join the queue, once, in ID order |
| Dag.DAG.ReleaseTargets | pkg/dag/dag.go:234-241 | one round keeps the loop invariant and sorts the target list of the emitted task, and no other |
| EdgeMaps.SortRound | pkg/dag/dag.go:229-242 | after each round every in-degree is the number of edges, with multiplicity, from tasks not yet emitted |
| KahnRun.FrontierStep | pkg/dag/dag.go:229-242 | emitted and queued tasks are, after each round, exactly those whose predecessors are all emitted, in key order |
| KahnRun.FrontierEnd | pkg/dag/dag.go:229-248 | when the queue runs dry exactly the tasks that neither lie on a cycle nor behind one have been emitted |
| Dag.DAG.Drain | pkg/dag/dag.go:228-242 | the main loop ends with an empty queue, the frontier invariant, and the emitted tasks' target lists sorted |
| Dag.DAG.TopologicalSort | pkg/dag/dag.go:208-249 | succeeds exactly on acyclic graphs, with duplicate edges or not; in the result every edge points forward, a task whose last predecessor is placed earlier comes first, and of two tasks with the same last predecessor the one with the lexicographically smaller ID; nothing else has these properties; the error counts exactly the tasks not behind a cycle; the edges stay the same multisets, and exactly the emitted tasks' lists are left in lexicographic order |
| Ordering.IdLessIsLexicographic | pkg/dag/dag.go:226-235 | the recursive string comparison is the lexicographic order: one string ends, or has the smaller character, where the two part |
| KahnOrders.KahnOrderByPositions | pkg/dag/dag.go:220-242 | the Kahn order in terms of positions alone, both directions |
| Dag.SortedSequenceUnique | pkg/dag/dag.go:220-242 | same tasks and same edges as multisets give the same sequence, whatever order maps are iterated in |
| KahnOrders.KahnOrderUnique | pkg/dag/dag.go:220-242 | a graph has at most one Kahn order |
| KahnOrders.KahnOrderIsLayered | pkg/dag/dag.go:220-242 | nothing comes out after a task of a deeper layer |
| KahnOrders.KahnOrderByDepth | pkg/dag/dag.go:220-242 | the length of the longest dependency chain never decreases along the sorted sequence |
| Graphs.LayerIsDepth | pkg/dag/dag.go:208-249 | layers, defined by rounds, are the tasks with equally long longest dependency chains, defined by paths |
| Graphs.AcyclicIffRanked | pkg/dag/dag.go:206-207 | no closed path exists exactly if a numbering grows along every edge |
| KahnOrders.TopologicalOrderIsAcyclic | pkg/dag/dag.go:206-207 | a graph that can be put in topological order has no cycle |
| DagSearch.CycleSearch.Dfs | pkg/dag/dag.go:270-297 | from a white node: a genuine cycle, or the node and all it leads to finished with falling finish numbers, the gray path restored |
| DagSearch.CycleSearch.Visit | pkg/dag/dag.go:273-293 | an edge to a gray node closes a cycle, to a white node searches on, to a black node is finished already |
| DagSearch.CycleSearch.Reconstruct | pkg/dag/dag.go:274-284 | following parents rebuilds the cycle completely: the empty-parent break is never taken early |
| DagSearch.CycleSearch.SearchFrom | pkg/dag/dag.go:306-314 | all listed nodes finished, or a cycle |
| DagSearch.ReverseCycleIsCycle | pkg/dag/dag.go:252-253 | what the search reports refutes acyclicity |
| DagSearch.FinishedIsAcyclic | pkg/dag/dag.go:252-253 | when all nodes have finished there is no cycle |
| Dag.DAG.DetectCycle | pkg/dag/dag.go:253-315 | empty exactly on acyclic graphs; otherwise a closed walk against the edges whose nodes are distinct but for the end point, self-loops included |
| Dag.DAG.Validate | pkg/dag/dag.go:171-204 | succeeds exactly on well-formed DAGs; each error is reported exactly when its check is the first to fail, and a cycle error carries a genuine cycle |
| Dag.DAG.CheckEdgeEnds | pkg/dag/dag.go:179-189 | succeeds exactly if every key and every target of the edge map is a task; an error names a stray one |
| Dag.DAG.GetRoots | pkg/dag/dag.go:318-340 | exactly the tasks without incoming edges, in lexicographic order of IDs |
| Dag.DAG.GetLeaves | pkg/dag/dag.go:343-362 | exactly the tasks without outgoing edges, in lexicographic order of IDs |
| DagSearch.Walker.Walk | pkg/dag/dag.go:369-378 | marks only what is reachable, and all successors of what it marks; ends on cyclic graphs too |
| DagSearch.ReachedAll | pkg/dag/dag.go:380-384 | such a walk has visited exactly what is reachable by one or more edges |
| Dag.DAG.GetDownstream | pkg/dag/dag.go:365-385 | exactly the tasks reachable by one or more edges, in lexicographic order of IDs, the start among them only if it lies on a cycle |
| Dag.DAG.GetUpstream | pkg/dag/dag.go:388-416 | exactly the tasks that reach the given one, in lexicographic order, so it is the converse of GetDownstream |
| Dag.DAG.ReverseEdges | pkg/dag/dag.go:389-395 | the reversed map lists exactly the reversed edges |
| Graphs.ReversedReach | pkg/dag/dag.go:389-410 | reachability over reversed edges is reversed reachability |
| Dag.DAG.ReadyTasks | pkg/dag/dag.go:420-447 | lists exactly the pending tasks whose dependencies are all stored as Success; a higher priority comes first, and with equal priorities the lexicographically smaller ID |
| Dag.ReadyListingUnique | pkg/dag/dag.go:420-447 | there is only one such list |
| RunMachine.ReadyOrderByFields | pkg/dag/dag.go:440-445 | the dispatch order of the machine in terms of priorities and lexicographic IDs |
| Parser.ParseRetryPolicy | pkg/dag/parser.go:197-229 | fails exactly on a malformed duration; otherwise the record's retry count and conditions, its durations and factor where given, else 10 s, 5 min and 2.0 |
| Parser.BuildTask | pkg/dag/parser.go:163-195 | fails exactly on malformed durations; otherwise the record's fields, and its own retry policy if it has one, the inherited one only if it has none |
| Parser.BuildConfig | pkg/dag/parser.go:104-137 | fails exactly on malformed durations; otherwise the record's configuration, with 16 for a missing concurrency |
| Parser.AddTasks | pkg/dag/parser.go:139-148 | all records are added, or the first unacceptable one is reported with its reason |
| Parser.LinkAndValidate | pkg/dag/parser.go:150-160 | accepts exactly coherent task sets and produces the inverted dependency lists as edges; otherwise reports the first failing check, with a real missing dependency, cycle or task without executor |
| Parser.BuildDAG | pkg/dag/parser.go:87-161 | accepts a record exactly if its ID is not empty, it has tasks, their IDs are not empty and distinct, no duration is malformed, dependencies exist, executors are named and the relation is acyclic; the DAG then holds each record's task field by field, with its own retry policy or else the DAG-wide default, and edges with the multiplicities of the dependencies; otherwise a malformed configuration, the first unacceptable task, or the first failing check on the whole is reported |
| Parser.BuildableByFields | pkg/dag/parser.go:104-160 | acceptance in terms of the record's fields, both directions |
| Parser.RejectsExactly | pkg/dag/parser.go:150-160 | each error about the tasks as a whole is reported exactly when its check is the first to fail: unknown dependency, empty ID, no tasks, cycle, missing executor |
| Parser.HoldsGraph | pkg/dag/parser.go:139-153 | the built tasks depend on one another as the record says |
| Parser.ValidateCommand | cmd/sparkflowctl/main.go:81-129 | the sort never rejects what was built, and the order shown is the one Kahn order of the record's relation, by positions and lexicographic IDs |
| Store.MemoryStore.SaveDAG | pkg/store/memory.go:33-58 | replaces the one definition, nothing else |
| Store.MemoryStore.CreateRun | pkg/store/memory.go:130-145 | adds the run exactly if its ID is new |
| Store.MemoryStore.UpdateRun | pkg/store/memory.go:160-172 | replaces the run exactly if it exists |
| Store.MemoryStore.ListRuns | pkg/store/memory.go:174-202 | exactly the runs with the asked DAG ID and status, each once, none created after an earlier listed one; of these the page that starts at a positive offset within the list, with at most a positive limit of members |
| Store.OffsetPastTheEnd | pkg/store/memory.go:194-199 | an offset past the end yields the first page |
| Store.MemoryStore.CreateTaskInstance | pkg/store/memory.go:204-220 | adds the instance exactly if its ID is new; the key index stays the exact inverse while keys are unique |
| Store.MemoryStore.UpdateTaskInstance | pkg/store/memory.go:235-246 | replaces the instance exactly if it exists; the key index stays exact while the key does not change |
| Store.MemoryStore.ListTaskInstances | pkg/store/memory.go:248-265 | exactly the instances of one run, each once, in lexicographic order of task IDs |
| Store.MemoryStore.GetTaskInstanceByIdempotencyKey | pkg/store/memory.go:267-283 | agrees with a scan of all instances when the index is exact, and never reports an inconsistent index |
| Keys.EqualKeys | pkg/scheduler/scheduler.go:107 | with run IDs of one length, equal keys belong to one task of one run, or the DAG IDs clash |
| Keys.ClashingKeys | pkg/scheduler/scheduler.go:107 | wherever DAG IDs clash there are runs and tasks with one key |
| Keys.ToldApartExactly | pkg/scheduler/scheduler.go:107 | so keys tell the tasks of two DAGs apart exactly when their IDs do not clash |
| Keys.UuidsDoNotOverlap | pkg/scheduler/scheduler.go:83 | no UUID agrees with another one from one of its dashes on |
| Keys.EqualUuidKeys | pkg/scheduler/scheduler.go:83-107 | with UUIDs for run IDs, keys of different tasks are equal only if the longer DAG ID contains the ID of the other task's run |
| Keys.UuidsToldApartExactly | pkg/scheduler/scheduler.go:83-107 | keys then tell the tasks of two DAGs apart exactly unless one ID is the other with a dash and a UUID after it |
| Keys.KeysStayUnique | pkg/scheduler/scheduler.go:98-112 | while run IDs have one length and no two DAG IDs clash, no two stored instances share a key |
| Keys.UuidKeysStayUnique | pkg/scheduler/scheduler.go:98-112 | with UUIDs for run IDs it is enough that no DAG ID contains the ID of another DAG's run |
| Scheduler.FIFOScheduler.Submit | pkg/scheduler/scheduler.go:82-125 | a new running run with exactly one new pending instance per task, its record given in full (attempt 1, the key from DAG, run and task ID); earlier runs and instances as before; the definition indexed; the key index stays exact if keys are unique |
| Scheduler.FIFOScheduler.CreateInstances | pkg/scheduler/scheduler.go:98-112 | one new pending instance for each task handled so far, in whatever order; succeeds with fresh IDs |
| Scheduler.SubmittedView | pkg/scheduler/scheduler.go:82-125 | the submitted run starts in the machine's initial state, and no other run notices |
| Scheduler.FIFOScheduler.FindDag | pkg/scheduler/scheduler.go:144-158 | the indexed definition before the stored one, which is then indexed; no run's definition changes |
| Scheduler.FIFOScheduler.RegisterDAG | pkg/scheduler/scheduler.go:276-284 | the definition is saved and replaces the indexed one, for live runs too; no other definition changes |
| Scheduler.FIFOScheduler.QueueTask | pkg/scheduler/scheduler.go:168-180 | the one pending instance of the task, if any, becomes queued in list and store and is returned |
| Scheduler.FIFOScheduler.QueueReady | pkg/scheduler/scheduler.go:166-181 | exactly the ready tasks' pending instances become queued, returned in the order of the ready list |
| Scheduler.PickedIsDispatchList | pkg/scheduler/scheduler.go:166-181 | what is returned is exactly what can be dispatched, in priority order |
| Scheduler.FIFOScheduler.CompleteRun | pkg/scheduler/scheduler.go:183-212 | Running turns to Failed or Success exactly when all instances have ended, Failed exactly if one Failed |
| Scheduler.FIFOScheduler.ScheduleRun | pkg/scheduler/scheduler.go:137-212 | one run makes the machine's step; other runs' records and instances are untouched |
| Scheduler.FIFOScheduler.Schedule | pkg/scheduler/scheduler.go:127-216 | in every running run with a definition exactly the pending instances whose dependencies all have instances in Success are queued and returned, by falling priority and then lexicographic ID, and the run ends exactly when all its instances have ended, Failed exactly if one is; other runs are left alone; so every run makes one step of its machine; what is returned is what is stored, no instance twice, those of newer runs first; an exact key index stays exact |
| Scheduler.CallByInstances | pkg/scheduler/scheduler.go:127-216 | the machine's steps of all runs, said of the instance records one by one |
| Scheduler.NextRun | pkg/scheduler/scheduler.go:137-213 | a run's round does not disturb the steps of the runs before and after it |
| Scheduler.FIFOScheduler.ReportCompletion | pkg/scheduler/scheduler.go:218-239 | overwrites status and error of the one instance; an error exactly if it does not exist |
| Views.UpdateIsStep | pkg/scheduler/scheduler.go:218-239 | a new record for one instance is the machine's start or report in its run if its status makes that move, and nothing in other runs |
| RunMachine.StepKeepsInv | pkg/scheduler/scheduler.go:160-231 | every step keeps: whatever has left Pending has all direct dependencies in Success, and a finished run has only ended tasks |
| RunMachine.LeadsKeepsInv | pkg/scheduler/scheduler.go:160-231 | so does every run, and terminal statuses never change |
| RunMachine.UpstreamSucceeded | pkg/dag/dag.go:420-438 | in every reachable state all transitive upstream tasks of a task that has left Pending are in Success |
| RunMachine.FailureBlocksDownstream | pkg/scheduler/scheduler.go:160-181 | once a task is unsuccessful nothing downstream is queued in any continuation |
| RunMachine.FailureInsideNeverEnds | pkg/scheduler/scheduler.go:183-212 | an unsuccessful task with a successor keeps the run Running in every continuation |
| RunMachine.FinishedIsFinal | pkg/scheduler/scheduler.go:128-137 | after the run has ended no action changes it and nothing is dispatched |
| RunMachine.FinishedMeansEnded | pkg/scheduler/scheduler.go:183-212 | a finished run has only ended tasks and is Failed exactly if one of them Failed |
| RunMachine.CancelledEndsInSuccess | pkg/scheduler/scheduler.go:194-207 | a run whose only task was cancelled ends in Success |
| RunMachine.DispatchOrder | pkg/scheduler/scheduler.go:166-181 | over every run no task is dispatched twice, each stands after all its dependencies, and exactly what has left Pending was dispatched |
| RunMachine.DispatchesAreTopological | pkg/scheduler/scheduler.go:166-181 | once all tasks have been dispatched the concatenated lists are a topological order of the DAG |
| RunMachine.TerminalWasReported | pkg/scheduler/scheduler.go:218-231 | a terminal status is there because it was reported |
| RunMachine.DispatchAfterReports | pkg/scheduler/scheduler.go:160-181 | the Success reports of all dependencies come before the call that returns a task |
| RunMachine.QuietMeansBlocked | pkg/dag/dag.go:420-438 | when nothing is under way and nothing can be dispatched, exactly the tasks downstream of an unsuccessful one wait |
| RunMachine.QuietRunEnds | pkg/scheduler/scheduler.go:183-212 | then the next call ends the run exactly if no unsuccessful task has a successor |
| RunMachine.NoDeadlock | pkg/dag/dag.go:420-447 | in an acyclic DAG with nothing under way and nothing unsuccessful, all is done or something can be dispatched |
| RunMachine.StepCostsWork | pkg/scheduler/scheduler.go:160-231 | each status change lowers the sum of status ranks |
| RunMachine.BoundedWork | pkg/scheduler/scheduler.go:160-231 | a run of n tasks makes at most 3n status changes |
| Outcomes.AncestorsByDeps | pkg/dag/dag.go:427-433 | all ancestors succeed exactly if the direct dependencies and their ancestors do |
| Outcomes.QuietIsFinal | pkg/scheduler/scheduler.go:160-231 | however starts, reports and calls interleave: once nothing is under way and nothing can be dispatched, exactly the tasks with only successful ancestors have been executed, with their outcomes |
| Outcomes.QuietEndsExactly | pkg/scheduler/scheduler.go:183-212 | then the next call ends the run exactly if every task with successors succeeds, as Failed exactly if a task failed |
| Outcomes.OrderDoesNotMatter | pkg/scheduler/scheduler.go:160-231 | two runs of one DAG with the same outcomes end in the same statuses, whatever happened in between |
| LocalRun.RoundDispatches | cmd/sparkflowctl/main.go:169-174 | round k can dispatch exactly the tasks of depth k all of whose ancestors succeed |
| LocalRun.RoundOnStatuses | cmd/sparkflowctl/main.go:169-234 | one round of scheduling and reporting turns the statuses after k rounds into those after k + 1 |
| LocalRun.RoundsSuffice | cmd/sparkflowctl/main.go:176-188 | all tasks have ended after k rounds exactly if there are at most k levels and every task with successors succeeds |
| LocalRun.ExecutedInTheEnd | cmd/sparkflowctl/main.go:191-233 | once every level has had its round, exactly the tasks with only successful ancestors have their outcome and the others are still Pending |
| LocalRun.EndedStatus | pkg/scheduler/scheduler.go:202-207 | the run ends Failed exactly if some task failed |
| LocalRun.ReportOne | cmd/sparkflowctl/main.go:192-232 | only status and error of the one instance change: Failed if its executor is not registered, Failed with the message if the execution returned an error, else what the executor returned |
| LocalRun.ReportAll | cmd/sparkflowctl/main.go:191-233 | after the reports exactly the dispatched tasks have their outcome |
| LocalRun.Call | cmd/sparkflowctl/main.go:170-174 | the call of round k returns the stored instances of exactly the tasks that are due |
| LocalRun.Round | cmd/sparkflowctl/main.go:169-234 | one turn of the loop, seen through store and scheduler, is one round of the statuses; it stops exactly when all tasks have ended |
| LocalRun.Launch | cmd/sparkflowctl/main.go:151-161 | the submitted run is in the state before round 0 |
| LocalRun.RunLocal | cmd/sparkflowctl/main.go:150-235 | for all outcomes: call k dispatches exactly depth k behind successful ancestors; with L levels the loop ends in call L (the last of L + 1) exactly if every task with successors succeeds; otherwise no number of rounds ends it; a dispatched task is stored as Failed if its executor is not registered or its execution returned an error, else as its executor said, the others Pending; a loop that has ended has ended in Failed exactly if some task lacks an executor, had an execution error or returned Failed |
| LocalRun.CalledAreExecuted | cmd/sparkflowctl/main.go:169-234 | after any number of rounds exactly the dispatched tasks have an outcome, and it is their own |
| LocalRun.RunCommand | cmd/sparkflowctl/main.go:131-235 | the command starts exactly for an acceptable record, and then all that is said of the loop holds for the record's own tasks and dependencies; once it ends, the run is Success exactly if each task of the record has a registered executor that returned neither an error nor Failed |
| LocalRun.PollsForEver | cmd/sparkflowctl/main.go:176-188 | two tasks, the second after the first, and the first fails: no number of rounds ends the loop |
| LocalRun.ExecutedExactly | cmd/sparkflowctl/main.go:169-234 | the calls of a loop that reaches all levels dispatch exactly the tasks all of whose transitive ancestors succeed |
| LocalRun.LevelsExist | cmd/sparkflowctl/main.go:169-189 | an acyclic DAG has a number of levels, at most the number of tasks |
| LocalRun.LevelsMeasureChains | cmd/sparkflowctl/main.go:169-189 | that number is the number of tasks in the longest dependency chain |
| LocalRun.AllSucceedByDepth | cmd/sparkflowctl/main.go:169-234 | when every task succeeds call k dispatches exactly the tasks whose longest chain has k dependencies, and the run ends in Success |
| Retry.CapHoldsIffFits | pkg/retry/retry.go:68-85 | the cap holds whatever an overflowing conversion yields exactly if the uncapped delay fits a Duration |
| Retry.DelayInClosedForm | pkg/retry/retry.go:63-98 | while in range, a delay is the initial backoff (fixed), times the factor to the attempt (exponential) or plus the factor times the attempt (linear), rounded down and cut at the cap, then taken between 3/4 and 5/4 times by the random draw |
| Retry.DelayMayGoNegative | pkg/retry/retry.go:74-85 | a concrete policy whose 35th delay may come out as the most negative Duration |
| Retry.DelayNegativeExactly | pkg/retry/retry.go:64-95 | a delay is negative exactly if the capped one before jitter is; none before the first attempt |
| Retry.IdealMonotone | pkg/retry/retry.go:70-80 | uncapped delays never shrink and are never negative |
| Retry.CappedMonotone | pkg/retry/retry.go:68-85 | while delays fit they never decrease, never exceed the cap and stay at it once reached |
| Retry.JitterBounds | pkg/retry/retry.go:87-97 | jitter moves a delay by at most a quarter, so at most 1.25 times the cap; without jitter the delay is the capped one |
| Retry.JitterKeepsCapExactly | pkg/retry/retry.go:82-97 | no draw takes a delay above the cap exactly without jitter, or while five times the capped delay is at most four times the cap plus one |
| Retry.JitterExceedsCap | pkg/retry/retry.go:50-97 | the default policy's tenth delay is six minutes for a draw of 0.9, with a cap of five |
| Retry.GeometricSum | pkg/retry/retry.go:74-76 | the exponential delays add up to the geometric closed form up to the truncation of each term |
| Retry.PlainSumBelowCap | pkg/retry/retry.go:74-85 | below the cap that holds of the delays themselves |
| Retry.Do | pkg/retry/retry.go:115-139 | makes at most MaxRetries + 1 calls; goes on exactly after failures with a retry left that the check, if any, accepts, and uncancelled waits; succeeds exactly if such attempts lead to a success; makes all MaxRetries + 1 if all fail; wait i is delay i in closed form |
| Retry.WaitsBounded | pkg/retry/retry.go:118-126 | n waits add up to at most n times 1.25 times the cap |
| Retry.TotalJoins | pkg/retry/retry.go:118-126 | waits add up |
| Retry.WaitsWithinRetries | pkg/retry/retry.go:115-139 | all waits add up to at most MaxRetries times 1.25 times the cap |
| DeadLetter.DeadLetterQueue.constructor | pkg/retry/retry.go:159-167 | empty, with a positive bound, 10000 by default |
| DeadLetter.DeadLetterQueue.Push | pkg/retry/retry.go:170-184 | appends the entry; a full queue loses exactly its oldest, any other nothing |
| DeadLetter.DeadLetterQueue.Pop | pkg/retry/retry.go:187-198 | removes and returns the oldest entry, if there is one |
| DeadLetter.DeadLetterQueue.Clear | pkg/retry/retry.go:229-233 | everything held is cleared, in order |
| DeadLetter.DeadLetterQueue.Conservation | pkg/retry/retry.go:170-233 | after any operations: pushed = popped + evicted + cleared + held, the queue is the last part of the push history within its bound, and pops are a subsequence of what left, in push order |
| DeadLetter.PopsInOrder | pkg/retry/retry.go:187-198 | pops come out in the order of the pushes |
| DeadLetter.DeparturesAddUp | pkg/retry/retry.go:170-233 | every departure is one of the three kinds |
| Worker.Worker.Begin | internal/worker/worker.go:147-154 | the first write: Running, if the store knows the instance |
| Worker.Worker.Complete | internal/worker/worker.go:156-261 | from the lookups to the last write, in whatever state the store is by then, field by field: Failed with its message for a missing DAG, task or executor, else what the retry loop makes of it; exactly one dead letter, with the stored error and attempt, when the loop ends in Failed without being cancelled, and none otherwise |
| Worker.Worker.ExecuteTask | internal/worker/worker.go:136-261 | both in a row, field by field: with maxRetries R and no cancelled wait R + 1 executions if none of these succeeds, else up to the first success, one without a policy, none for a negative R; status and error of the last reply; attempt number the executions made; wait i the initial backoff times the factor to the i, capped, within a quarter; the dead letters |
| Worker.Worker.Attempts | internal/worker/worker.go:176-231 | executions go on until one succeeds, they run out, or a wait is cancelled; the attempt number and the waits |
| Worker.Worker.Finish | internal/worker/worker.go:233-255 | the last reply decides the stored status and error; one dead letter exactly if it is Failed |
| Worker.Worker.FailTask | internal/worker/worker.go:263-268 | the instance is stored as Failed with the message |
| Worker.StopsOnce | internal/worker/worker.go:184-231 | the number of executions is determined by the replies and cancellations |
| Worker.SuccessExactly | internal/worker/worker.go:217-248 | the task ends in Success exactly if an allowed attempt succeeds, or the last reply pairs a successful result with an error |
| Worker.EndsByFields | internal/worker/worker.go:176-261 | what the executions make of an instance, in terms of the retry count and the replies |
| Worker.WaitsByFields | internal/worker/worker.go:184-213 | the waits in terms of the policy's own fields: exponential, with jitter |
| Worker.Worker.ExecutedByFields | internal/worker/worker.go:156-261 | the same for a begun instance, lookups and dead letter included |
| Worker.HowTasksEnd | internal/worker/worker.go:176-255 | with well-behaved executors it ends terminal exactly if the retry count is not negative, in Success exactly if one of the executions 0 to maxRetries would succeed; without cancellation and success exactly maxRetries + 1 executions, one without a policy; the attempt number equals the executions made |
| Worker.TaskWaitsBounded | internal/worker/worker.go:184-213 | a task's waits add up to at most MaxRetries times 1.25 times MaxBackoff |
| RunMachine.LeadsSplits | pkg/scheduler/scheduler.go:127-239 | the actions determine the state, so a longer history of a run continues from every state it passed through |
| Deployment.SubmitExplained | pkg/scheduler/scheduler.go:82-125 | a submission starts a history and extends no other |
| Deployment.ScheduleExplained | pkg/scheduler/scheduler.go:127-216 | a call to Schedule extends every history by one step, if live runs have the definition they were submitted with |
| Deployment.UpdateExplained | pkg/scheduler/scheduler.go:218-239 | a start or a report extends the history of its run and no other |
| Deployment.Deployment.Submit | pkg/scheduler/scheduler.go:82-125 | keeps all histories true and adds that of the new run; earlier runs and instances are as before |
| Deployment.Deployment.Schedule | pkg/scheduler/scheduler.go:127-216 | keeps all histories true, each longer by this call and what it returned for the run; the returned instances are stored, queued and distinct, newer runs first; otherwise the table is as before |
| Deployment.Deployment.Report | pkg/scheduler/scheduler.go:218-239 | a terminal report on a dispatched instance that has not ended extends its run's history; only status and error of that instance change |
| Deployment.Deployment.Begin | internal/worker/worker.go:147-154 | taking up a queued instance extends its run's history by a start; no other instance changes |
| Deployment.Deployment.Complete | internal/worker/worker.go:156-261 | ending a begun instance, after any other operations, extends its run's history by a report; a negative retry count leaves instance and history as they were; no other instance changes, and a letter is sent exactly if its retry loop ended in Failed |
| Deployment.Deployment.Execute | internal/worker/worker.go:136-261 | `executeTask` as a whole extends its run's history by a start and a report; no other instance changes |
| Deployment.Deployment.ExecuteAll | internal/worker/worker.go:121-134 | all instances that a call returned are executed, each comes to what its replies make of it, and no other instance changes |
| Deployment.Deployment.Save | pkg/store/memory.go:33-58 | saving a definition changes no live run's definition and no history |
| Deployment.Deployment.Register | pkg/scheduler/scheduler.go:276-284 | registering a definition keeps all histories true if live runs of its ID have the same tasks |
| Deployment.Deployment.RunIsSafe | pkg/scheduler/scheduler.go:127-239 | in every state of the store, each run has dispatched no task twice and none before its dependencies, exactly what has left Pending, only behind upstream tasks in Success; a finished run has only ended tasks |
| Deployment.Deployment.QuietRunIsSettled | pkg/scheduler/scheduler.go:160-212 | a run in the store at rest is where its outcomes put it, in whatever order workers reported, and the next call ends it exactly if no inner task failed |
| Deployment.FinishedForGood | pkg/scheduler/scheduler.go:128-137 | whatever operations follow, a run that has ended keeps its statuses and dispatches nothing |
| Deployment.FailureForGood | pkg/scheduler/scheduler.go:160-200 | whatever operations follow, nothing behind an unsuccessful task is dispatched, and with a task behind it the run stays Running |
| Deployment.Deployment.IndexIsExact | pkg/store/memory.go:204-283 | in every state of the store the key index is exact, unless a DAG ID contains the ID of another DAG's run |

## Left out

- Executors, `internal/spark`, `internal/hadoop`: an execution is a parameter that gives a result per attempt.
- `pkg/store/postgres.go`: SQL against a library; the in-memory store is the semantics modelled here.
- `pkg/consensus`, `internal/server`, `pkg/observability`, the server and worker binaries, the Python SDK: wiring and serialisation.
- The other `sparkflowctl` commands, printing, sleeping and file reading.
- YAML decoding and `time.ParseDuration`: the model starts from the decoded record; a duration is absent, a number of nanoseconds, or malformed.
- Cron schedules (the rest of `RegisterDAG`, `Start`, `Stop`): they only trigger submissions and scheduling steps.
- Description, schedule, `Config` maps, labels, parameters, tags, output bytes, metrics, and all time stamps but a run's creation time.
- UUIDs: IDs are parameters; `Submit` is claimed to succeed when they are unused and distinct.
- `ListDAGs` and `DeleteDAG`.
- `DeadLetterQueue.Peek`, `Len` and `List`, and the entries' creation times: they would add only easy members.
- Mutexes and interleaving inside a method: operations are atomic, there is one scheduler, and no `Schedule` runs inside a `Submit`.
- `Worker.Submit`, the heartbeat loop and `Pool.Dispatch`, and what makes the execution loop stop: channels and goroutines.
- Sharing of maps between copies of a DAG: `GetDAG` returns values here, and the scheduler's cached copy is its own object. `FIFOScheduler.Submit` keeps the caller's object, as the original does.
- `sort.Slice` and `sort.Strings` are a function that returns a sorted rearrangement; how ties are broken is not modelled (where it could show, comparisons separate different IDs). `ListRuns` leaves ties open.
- Floating point: factors and jitter are real numbers; conversions to `Duration` truncate, and an out-of-range conversion yields a value quantified over. The 64-bit wrap of `MaxRetries + 1` and of edge counts is not modelled.
- Error texts other than the worker's stored messages (without the escapes of quoted names): errors are data with their arguments. Which of several faulty edges, dependencies or executors is reported depends on map iteration and is left open.
- LocalRun.RunLocal: the original loop has no bound; here it makes at most `rounds` turns and the theorem speaks of every `rounds`. Outcomes are assumed terminal.
- Deployment.Deployment.Report: the whole-run theorems assume reports that are terminal, for dispatched tasks that have not ended; `ReportCompletion` itself accepts anything, and the contract of `FIFOScheduler.ReportCompletion` says so.
- Deployment.Deployment.Submit: the whole-run theorems assume that a DAG ID keeps its tasks while runs of it are live, here and in `Register`; `Submit` and `RegisterDAG` themselves overwrite the definition, and their contracts in `FIFOScheduler` say so. IDs are assumed fresh, and the store is used by nobody else.
- Dag.DAG.TopologicalSort: the sort, the closures and roots and leaves assume edges between tasks, which `AddEdge`, `BuildEdgesFromDependencies` and `Validate` establish; `Validate` itself assumes nothing about edges.
