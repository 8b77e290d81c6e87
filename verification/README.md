# Verification of the load engine

A Dafny model of the parts of flowroutine that decide what runs and what is
counted, with proofs of what they promise. `dafny verify dfyconfig.toml` checks
the whole project.

**Execution plans.** A plan is a control-flow graph of scenario, branch, join
and loop steps. `Walks` defines walks and reachability, `GraphSearch`, `Words`,
`Bitset` and `Dominators` are the worklist and fixpoint algorithms, each proved to
compute the set of nodes its name promises. `PlanDefinition`, `PlanChecks`,
`PlanBinding` and `PlanCompiler` compile a plan and accept exactly the plans
that meet declarative conditions. `Machine`, `Iteration`, `Variables` and
`Worker` are the interpreter: a program counter, loop counters, a stack
of active routes and a stack of variable frames. `CapturedValues` and `ValueRuns`
say which values they hold, and `IterationEnds` what ends an iteration.
`TransitionBounds`, `TransitionLimit`, `JoinDiscipline`, `ForeignEntry`,
`Freshness`, `TemplateScope`, `TemplateRuns`, `ScopeKeys` and `ScopeRuns` prove
what the checks imply for every run, and `CompiledRuns` states it for the plans
that compile. `SimplePlans`, `ClosedLoops`,
`AcceptedLoops` and `KeyCollision` show what goes wrong in plans that compile.
`Template` cuts texts into literals and variables and renders them.

**The canvas.** `CanvasReading`, `CanvasGraph`, `CanvasPlan` and `CanvasChecks`
are the structured front end: reading a drawing, the request that each assertion
judges, the plan that is emitted, and the validation, which accepts exactly the
canvases that meet declarative conditions. `Embedding`, `FrontEnd` and
`FrontEndAgreement` prove that the compiler accepts what the front end emits,
`DrawnPlan` that weights and rounds come through, and `CanvasCompiler` follows a
canvas to its compiled plan.

**Load.** `LoadProfile` and `LoadSchedule` are the piecewise linear profile and
its integral, `Arrivals` the dispatcher of arrivals, `VuScheduler` the
scheduler of virtual users with its workers as interleaved atomic steps,
`RetiredContext` what its schedules can do to the contexts of workers,
`VuControls` the loops of that scheduler, which take these steps, and `Pacer`
the permit pacer. `Latency` and `Stats` are the latency histogram and
the statistics shards.

**Distributed runs.** `Sharding` and `ShardedLoad` divide a load,
`WorkerProtocol` is the worker server with its goroutines, `ReusedRun` what
happens to run ids that are used again, `WorkerServer` the
sections of that server, which take the steps of the protocol, `Coordinator` the
two phases of starting a run over an unreliable network, `Aggregate`,
`TotalLatencies`, `BranchTotals`, `StepTotals`, `StepSums` and `RunMetrics` add
up what the workers report.

**Metric history.** `MetricHistory` and `BoundedHistory` keep a bounded summary
of all points.

## What the proofs found

- Front end and plan compiler accept loops that enter a branch region from
  outside. At run time the unmatched join ends the iteration silently
  (`AcceptedLoops.LoopBackToJoinMismatches`). Asking that every join of a loop
  body be owned by a branch of the same body is not enough to rule this out
  (`AcceptedLoops.ClosedBodiesAreNotEnough`). The exact condition is that a branch
  region is entered through its branch only, and every loop body reached from a
  region belongs to it: `Regions.NoForeignEntry`. It can be checked on the plan,
  and it holds if and only if no run meets an unmatched join, also when each
  branch takes the same route whenever it runs
  (`ForeignEntry.JoinDisciplineIsExact`). The results on joins and on template
  names carry it as a premise; dominators, the freshness of verdicts, and that the
  limit on transitions is large enough do not need it.
- The key of a route is the id of its branch, a colon and its own id, and ids
  may contain colons. Two nested routes can share a key, and entering the inner
  one then clears the values of the outer one: a plan compiles, no capture
  fails, and a request does not find the value that a request before it on every
  path has captured (`KeyCollision.NestedKeysCollide`). Values are safe if and
  only if nested routes have different keys, whatever is stored
  (`ScopeKeys.ScopeKeysAreExact`), and also for what runs store themselves
  (`ScopeRuns.StoredValuesAreExact`).
- A worker that is retired by force while it sleeps keeps its cancelled context,
  and when it is activated again it iterates under that context. A schedule can
  do this if and only if it lowers a worker, leaves it low until a tick at least
  the grace later, and raises it again
  (`RetiredContext.CancelledContextIsExact`).
- The last section of a stop request compares run ids but not generations. With
  a run id used twice it can end a later run while its engine goes on running.
  Engines stay owned if and only if the ids that are prepared are all different
  (`ReusedRun.OwnershipIsExact`).
- Sums of buckets stop at the largest counter, so that at that value an
  overflowing sum goes unnoticed (`Aggregate.OverflowGoesUnnoticed`): exactly
  when a sum leaves the range of the counters
  (`Aggregate.ValidationIsExact`).
- The checks on the status counts of a request step compare the first count of a
  code with the last one reported before. A row that lists a code twice can be
  followed by one with a smaller count, and totals go back
  (`StepTotals.RepeatedCodeGoesBack`): exactly if something was listed for a code
  before its last count (`StepTotals.CountsForwardExactly`).
- A bounded history with a single bucket that is given negative and other times
  doubles its width until it overflows to infinity, and only then ends merging;
  no other history of times in range does so
  (`BoundedHistory.BoundedMetricHistory.Add`).

## Model

| member | source | states |
|---|---|---|
| GraphSearch.ExecutionPredecessors | internal/engine/execution_plan.go:379-387 | the predecessor lists are exactly the reversed edges |
| GraphSearch.FirstUnreachable | internal/engine/execution_plan.go:389-407 | accepts exactly when every step is reached by some walk from the entry, and otherwise names one that is not |
| GraphSearch.ExecutionCycleNode | internal/engine/execution_plan.go:446-473 | reports no node exactly when no walk returns to its start; a reported node lies on or behind a cycle |
| GraphSearch.ReverseReachable | internal/engine/execution_plan.go:475-488 | marks exactly the nodes from which a walk leads to the target |
| GraphSearch.ForwardUntil | internal/engine/execution_plan.go:490-505 | returns exactly the nodes reached by walks that avoid the stop node; the worklist terminates |
| Dominators.ExecutionDominators | internal/engine/execution_plan.go:574-608 | the in-place bitset fixpoint terminates, and bit d of node v is set exactly when every walk from the entry to v visits d |
| Bitset.IntersectInto | internal/engine/execution_plan.go:574-608 | the words after the loop hold exactly the common bits |
| Bitset.EqualBits | internal/engine/execution_plan.go:618-625 | word equality is equality of the bit sets |
| PlanChecks.ValidateBoundedExecutionLoops | internal/engine/execution_plan.go:409-444 | passes exactly when the graph without loop bodies is acyclic and every body returns to its loop, holds no loop and does not hold the exit; also the size of each body |
| PlanChecks.ValidateStructuredBranches | internal/engine/execution_plan.go:507-572 | passes exactly when joins and branches correspond one to one, routes stay apart up to their join, cannot bypass it, and nested branches join inside |
| PlanDefinition.IndexSteps | internal/engine/execution_plan.go:159-178 | accepts exactly valid, distinct ids and numbers them |
| PlanDefinition.CompileSteps | internal/engine/execution_plan.go:192-275 | accepts exactly resolvable definitions; the steps have targets, weights and limits in range, and every route has a metric number of its own, in the order of the plan |
| PlanBinding.CompilePlannedScenarioSteps | internal/engine/execution_plan.go:55-138 | accepts exactly 1 to 512 steps with distinct ids and consistent capture scopes, in one loop; every step says what its draft says, and requests and assertions are numbered by how many came before, so that every assertion has a slot of its own |
| PlanBinding.AttachPlannedAssertions | internal/engine/execution_plan.go:627-661 | succeeds exactly when every assertion names a request that dominates it, and then each request holds, in plan order, the assertions it judges |
| PlanBinding.ValidatePlannedTemplates | internal/engine/execution_plan.go:663-711 | succeeds exactly when each template name is a runtime variable or is captured by another request that dominates the use |
| PlanCompiler.CompileExecutionPlan | internal/engine/execution_plan.go:140-319 | succeeds exactly for the plans that meet the declarative conditions, among them the limit on transitions, and then hands over the bound plan |
| PlanCompiler.ComputeBound | internal/engine/execution_plan.go:305-317 | the limit is one transition a step, and for each loop its iterations times the size of its body plus one |
| Worker.SelectExecutionRoute | internal/engine/execution_runtime.go:62-71 | the loop that subtracts weights picks the route whose interval of weights holds the residue |
| Machine.SelectionIsProportional | internal/engine/execution_runtime.go:62-71 | a route is picked exactly for as many residues as its weight |
| Machine.EveryRouteSelectable | internal/engine/execution_runtime.go:62-71 | every route of a resolved branch is picked by some selection value |
| TransitionBounds.GuardNeverTruncates | internal/engine/execution_runtime.go:13-58 | whatever the routes and outcomes, a run that still has a step to execute has made fewer transitions than the limit: the guard never cuts a scenario short |
| TransitionLimit.LimitIsSumOfMost | internal/engine/execution_plan.go:305-317 | the limit is not too large: it is the sum, over all steps, of how often a run executes the step at most, and one more for each step that runs in rounds of a loop only |
| TransitionLimit.MostExists | internal/engine/execution_runtime.go:13-58 | for each step there is a run that executes it most often, and none does so more often |
| TransitionLimit.StraightRunUsesLimit | internal/engine/execution_plan.go:305-317 | without branches the run in which every step continues has a step to execute until it has made as many transitions as the limit allows, less the steps that run in rounds only, and then it is at its end |
| CompiledRuns.CompiledLimitIsSharp | internal/engine/execution_plan.go:305-317 | so it is for the limit of every plan that compiles |
| CompiledRuns.CompiledStraightRun | internal/engine/execution_plan.go:305-317 | and for the run of every plan that compiles without branches |
| JoinDiscipline.RunsAreDisciplined | internal/engine/execution_runtime.go:32-48 | if no route is entered from elsewhere, in every run each executed join is that of the innermost active route, and routes nest as the plan does |
| ForeignEntry.JoinDisciplineIsExact | internal/engine/execution_runtime.go:43-45 | no run meets an unmatched join if and only if no branch region is entered except through its branch; the same holds for the runs in which each branch keeps its route |
| ForeignEntry.ForeignEntryMismatches | internal/engine/execution_runtime.go:43-71 | a plan with an entry into a region from elsewhere has a run that meets an unmatched join, although one number for each branch decides its route whenever it runs |
| AcceptedLoops.LoopBackToJoinMismatches | internal/engine/execution_plan.go:409-444 | for all valid names: a canvas whose loop body is a join meets every condition of the front end, the plan it emits compiles, and some run of it ends silently at that join |
| AcceptedLoops.ClosedBodiesAreNotEnough | internal/engine/execution_plan.go:409-444 | closed loop bodies do not rule this out: such a canvas is accepted, its plan compiles and ends at an unmatched join, although each body holds every join together with its branch |
| AcceptedLoops.NamesExist | internal/engine/execution_plan.go:409-444 | there are such names |
| ClosedLoops.NoForeignEntryClosesLoops | internal/engine/execution_plan.go:507-572 | the exact condition implies that loop bodies are closed |
| Iteration.RunsProject | internal/engine/execution_runtime.go:5-60 | the control part of every run with data is a run of the control machine |
| Variables.WorkerVariables.Lookup | internal/engine/engine.go:75-93 | a runtime value hides all others; otherwise the innermost frame that holds the name decides, its iteration values before its run values, then the iteration, then the run |
| ValueRuns.LatestCaptureIsFound | internal/engine/engine.go:79-93 | inside a route a name has the value that the response of the request gave it that captured it there last, whatever is stored elsewhere; a name of the run has the first one given |
| ValueRuns.ValuesHaveOrigins | internal/engine/engine.go:70-153 | in every run the maps of the iteration, those of open routes among them, hold only what this iteration has captured under their names, and run values are never replaced |
| Variables.WorkerVariables.SetVariable | internal/engine/engine.go:104-123 | writes the innermost frame or the worker maps; a run-scoped value is never overwritten |
| Variables.WorkerVariables.InvalidateCapture | internal/engine/engine.go:125-133 | forgets an iteration-scoped value of the innermost frame only |
| Variables.WorkerVariables.Push | internal/engine/engine.go:135-149 | opens a frame whose iteration values are empty and whose run values are those kept for the key |
| Variables.WorkerVariables.Pop | internal/engine/engine.go:151-156 | closes the innermost frame, if there is one |
| Variables.WorkerVariables.CaptureVariables | internal/engine/engine.go:629-672 | sets every eligible capture or invalidates them, in the two passes of the source |
| CapturedValues.RequestCaptures | internal/engine/engine.go:629-672 | after a request each name it captures for the iteration has what the response gives to that capture, or nothing if the response does not fill all that are wanted, and a name of the run keeps the first value given; no other map changes |
| CapturedValues.RequestSpares | internal/engine/engine.go:629-672 | names that a request does not capture are left alone |
| Worker.WorkerRuntime.RunRequestStep | internal/engine/engine.go:381-464 | verdicts and variables after a request, in all of its outcomes |
| Worker.WorkerRuntime.RunIteration | internal/engine/execution_runtime.go:5-60 | the loop with its counters, active routes and variables computes the run of the machine on the same inputs, and ends because the run ends; it is reported as not completed exactly if a request or a delay was cancelled |
| IterationEnds.AssertionDecides | internal/engine/engine.go:356-372 | in every run an assertion ends the iteration exactly if it is in stop mode and the latest run of its request did not get a response that passes it; otherwise the plan goes on with the next step |
| IterationEnds.EndOfIteration | internal/engine/execution_runtime.go:13-58 | an iteration is cancelled exactly if a request or a delay of it was, stopped exactly if an assertion in stop mode read a verdict that is not true, and ended by a join exactly if it did not match |
| Freshness.AssertionReadsFreshVerdict | internal/engine/engine.go:356-372 | when an assertion executes, the request it is bound to has run in this iteration, and the verdict read was written by its latest run |
| Freshness.DominatorHasRun | internal/engine/execution_plan.go:653-655 | when a step executes, every step that dominates it has executed before in the same run |
| TemplateScope.JoinBypassesInside | internal/engine/execution_plan.go:663-711 | a request inside a branch region does not dominate what follows the join: some walk avoids it |
| TemplateRuns.ProducedNameIsFound | internal/engine/execution_plan.go:663-711 | a name captured by a dominating request is found by the lookup, because the frame that holds it is still open |
| TemplateRuns.AcceptedRequestRenders | internal/engine/engine.go:75-93 | a request of an accepted plan finds every template name unless a capture of it has failed in the iteration |
| ScopeKeys.ScopeKeysAreExact | internal/engine/engine.go:135-149 | over all runs, and all values that may be stored when a branch runs: taking its route keeps every value held outside routes or under the open ones, if and only if nested routes have different scope keys |
| ScopeKeys.BranchKeepsOpenValues | internal/engine/execution_runtime.go:32-38 | in every run with its data, no value held outside routes or under the open ones is lost by taking another route, when nested keys differ |
| ScopeRuns.StoredValuesAreExact | internal/engine/engine.go:135-149 | over the values that runs themselves store: in plans whose routes open with a scenario step, no run of any scenario loses a value if and only if nested routes have different keys |
| KeyCollision.NestedKeysCollide | internal/engine/execution_plan.go:245-248 | for all ids that collide: a plan that compiles and has no foreign entry, and a run without a failed capture whose request does not find the token that a dominating request captured |
| KeyCollision.KeysCanCollide | internal/engine/execution_plan.go:245-248 | there are such ids |
| CompiledRuns.CompiledPlanFacts | internal/engine/execution_plan.go:140-319 | every plan that compiles meets the premises of the run-time results that do not concern foreign entries and keys |
| CompiledRuns.CompiledAssertionsAreFresh | internal/engine/execution_plan.go:627-661 | freshness of verdicts for every plan that compiles and every run of it |
| CompiledRuns.CompiledAssertionsDecide | internal/engine/engine.go:356-372 | so an assertion of every plan that compiles goes by the request that its definition names |
| CompiledRuns.CompiledScenarioIsKept | internal/engine/execution_plan.go:627-661 | binding changes nothing else about the steps of the scenario, and an assertion is counted with the request it judges |
| CompiledRuns.CompiledRequestsRender | internal/engine/execution_plan.go:663-711 | rendering for every plan that compiles, has no foreign entry and distinct nested keys |
| Template.CompileTemplate | internal/engine/template.go:25-76 | compiles exactly the texts made of literals and delimited valid names, into those literals and names, each name listed once in order of use |
| Template.PartsAreUnique | internal/engine/template.go:31-69 | a text is made of such parts in one way only |
| Template.Render | internal/engine/template.go:82-106 | succeeds exactly when every variable has a value, and appends literals and values in order |
| Template.RenderingPutsValuesInPlace | internal/engine/template.go:82-106 | for any values: the compiled text is its literals with the delimited names between them, and the rendering is the same literals with the values of these names |
| Template.SegmentsBound | internal/engine/template.go:44-61 | the listed names, which the plan checks look at, are what decides whether rendering succeeds |
| CanvasGraph.PrecedingRequests | frontend/src/graphCompiler.ts:717-733 | the backward search finds exactly the requests from which a walk leads to the assertion without another request in between |
| CanvasGraph.ResolveAssertionRequests | frontend/src/graphCompiler.ts:710-751 | an assertion is resolved exactly when there is one such request |
| CanvasGraph.LastRequestOnEveryWalk | frontend/src/graphCompiler.ts:734-748 | the chosen request is the last request on every walk from the entry to the assertion |
| CanvasReading.ReadCanvas | frontend/src/graphCompiler.ts:109-169 | reads exactly the drawings whose node ids differ and whose connections are between nodes and differ, and lists each connection once |
| CanvasChecks.LoopBodies | frontend/src/graphCompiler.ts:572-617 | passes exactly when every body returns to its loop, holds no loop and does not hold the exit |
| CanvasChecks.BranchDefinitions | frontend/src/graphCompiler.ts:619-708 | passes exactly when joins and branches correspond one to one by trimmed, non-empty ids, routes stay apart and close up to their join, nested branches join inside, and the weights are valid |
| CanvasChecks.ValidateScenarioGraph | frontend/src/graphCompiler.ts:95-286 | accepts a canvas exactly when some entry, engine and terminal meet all conditions, and finds these, the nodes before the engine and the request of each assertion |
| CanvasChecks.CompileScenarioGraph | frontend/src/graphCompiler.ts:84-286 | a plan is emitted for exactly the canvases that are accepted: no accepted node is refused by the emission |
| CanvasPlan.BuildExecutionPlan | frontend/src/graphCompiler.ts:753-825 | one definition for each node of the order, or a refusal when some node cannot be emitted |
| DrawnPlan.PlanIsAsDrawn | frontend/src/graphCompiler.ts:827-863 | in the compiled plan every route leads to its target with the weight that the canvas gives it, or 1, and has its name; every branch has its join, and every loop its body and number of rounds |
| DrawnPlan.SelectionsFollowWeights | frontend/src/graphCompiler.ts:857-862 | as many selection values, of each total weight, lead from a branch to a target as the weight of the target on the canvas |
| FrontEnd.PlanEmbeds | frontend/src/graphCompiler.ts:762-823 | the two graphs of the emitted plan are those of the canvas, restricted to the nodes that lead to the engine |
| FrontEndAgreement.AcceptedCanvasIsWellStructured | frontend/src/graphCompiler.ts:572-708 | the plan of an accepted canvas passes reachability, loop and branch checks of the compiler |
| FrontEndAgreement.ChosenRequestAccepted | frontend/src/graphCompiler.ts:710-751 | the request chosen for an assertion dominates it in the emitted plan, so the compiler accepts the binding |
| FrontEndAgreement.FrontEndPlanAccepted | internal/engine/execution_plan.go:284-316 | of the checks on a resolved emitted plan exactly those on template names and on the number of transitions can still fail |
| FrontEndAgreement.DefinitionResolves | internal/engine/execution_plan.go:192-274 | an emitted definition resolves exactly when it is within the size and name limits that only the compiler checks: no reference dangles |
| CanvasCompiler.DeliveryCompiles | internal/engine/execution_plan.go:140-319 | the plan emitted for an accepted canvas, with the scenario of its nodes, compiles if and only if it fits the size and name limits of the compiler and passes its checks on template names and transitions |
| CanvasCompiler.FittingCompiles | internal/engine/execution_plan.go:140-319 | within these limits every emitted plan resolves, so that only template names and the number of transitions are left to decide |
| CanvasCompiler.CompileCanvas | frontend/src/flowModel.ts:110-133 | front end and engine one after the other: canvas validation, emission, scenario and plan compilation succeed together exactly under these conditions, and then every target has the weight, and every loop the rounds, that the canvas gives it |
| Latency.BucketIndex | internal/engine/stats.go:432-446 | binary search returns the one bucket whose bounds enclose the value |
| Latency.PercentileLatency | internal/engine/stats.go:239-255 | the upper bound of the first bucket at which the running count reaches the share that the percentile asks for, 0 without samples, and the last bound when the counts never reach it |
| Latency.PercentileIsExactToBucket | internal/engine/stats.go:239-255 | that bound is the smallest of the table with at least the share of the samples, and at least one, at or below it |
| Latency.PercentileHoldsRank | internal/engine/stats.go:239-255 | and its bucket holds the sample of the rank, which is the least number that makes up the share, in the sorted list of samples |
| Latency.MergedHistogram | internal/distributed/aggregate.go:516-518 | adding the counts of two histograms gives the histogram of both lists of samples |
| Stats.StatsShard.RecordSuccess | internal/engine/stats.go:295-317 | counts the request and its bytes, and keeps status counts, histogram, sum, smallest and largest of all recorded so far |
| Stats.StatsShard.RecordFailure | internal/engine/stats.go:327-368 | the same for failures, each kind in its own counter |
| Stats.StatsShard.RecordStatusCode | internal/engine/stats.go:349-353 | the counters count exactly the tracked codes among those recorded; others are ignored |
| Stats.StatsShard.RecordScenarioAssertionFailure | internal/engine/stats.go:374-383 | the counter of the kind, and either the count-only counter or that of failed assertions |
| Stats.StatsShard.RecordCaptureFailure | internal/engine/stats.go:422-425 | a failed capture is a failed assertion too |
| Stats.StatsShard.RecordTemplateFailure | internal/engine/stats.go:427-430 | so is a failed template |
| Stats.TakeSnapshot | internal/engine/stats.go:187-237 | a snapshot of quiescent shards shows what one shard would that had recorded everything: each counter is the sum over the shards, status counts, histogram, sum, extremes, and percentiles exact to the bucket; its counters balance |
| MetricHistory.BucketsAreGroups | frontend/src/metricHistory.ts:60-78 | buckets are exactly the groups of points by floor(time / width), each with the first, last, least and greatest values of its group |
| MetricHistory.CandidatesSuffice | frontend/src/metricHistory.ts:97-104 | rebuilding wider buckets from the kept points alone summarises all points ever added |
| BoundedHistory.BoundedMetricHistory.Add | frontend/src/metricHistory.ts:43-52 | any point can be added: the summary stays exact as long as no cutoff was used, and the width doubles only where the points fall into too many groups; if times are below half the largest number, it becomes infinite exactly when a single bucket would have to hold both signs |
| BoundedHistory.MixesStill | frontend/src/metricHistory.ts:97-104 | as long as the width is finite, a rebuild keeps buckets of both signs apart |
| BoundedHistory.InfiniteIsOne | frontend/src/metricHistory.ts:65-66 | with an infinite width all points share one bucket |
| BoundedHistory.BoundedMetricHistory.Shrink | frontend/src/metricHistory.ts:49-51 | the merging loop ends for every history, at the latest when the doubled width is infinite, with at most the allowed number of buckets |
| BoundedHistory.BoundedMetricHistory.Prune | frontend/src/metricHistory.ts:84-95 | drops exactly the leading buckets whose last point is before the cutoff |
| BoundedHistory.BoundedMetricHistory.Values | frontend/src/metricHistory.ts:54-65 | at most maxPoints of the points, in order of time; without cutoffs each point lies between shown values in every reading |
| Pacer.RateLimiter.OnTick | internal/engine/rate_limiter.go:67-92 | a tick offers its permits and the carried remainder, and the channel keeps at most its capacity |
| Pacer.OfferedIsOwed | internal/engine/rate_limiter.go:18-39 | after k ticks exactly floor(k * rps / 1000) permits were offered above 1000 per second, and k below |
| Pacer.WindowBound | internal/engine/rate_limiter.go:46-93 | between two moments no more is granted than one capacity and what the ticks between them owe, whatever the waiters do |
| Pacer.RateIsKept | internal/engine/rate_limiter.go:46-93 | in numbers: not more than two permits beyond what one tick more would give at the rate |
| Pacer.AllIsGranted | internal/engine/rate_limiter.go:46-93 | nothing is lost while the waiters keep up: what the ticks owe is granted, waiting, or lost to an ended context |
| Pacer.SecondOwesRate | internal/engine/rate_limiter.go:28-36 | any thousand consecutive ticks owe exactly the rate |
| Pacer.TotalBound | internal/engine/rate_limiter.go:40-93 | from the start on, at most one permit more is granted than is owed |
| Pacer.RateLimiter.Take | internal/engine/rate_limiter.go:45-63 | a permit is taken when there is one and the context has not ended; it is lost if the context has ended by then |
| LoadSchedule.CompileLoadProfile | internal/engine/profile.go:47-139 | accepts exactly the valid profiles and compiles them |
| LoadSchedule.TargetAt | internal/engine/profile.go:170-186 | the loop over the stages computes the piecewise linear target: within a stage the straight line from the target before to its own, and the last target afterwards |
| LoadSchedule.TargetIsLinear | internal/engine/profile.go:170-186 | within each stage, which begins when the durations before it are over, the target is on that line |
| LoadSchedule.VirtualUsersAt | internal/engine/profile.go:188-197 | the nearest whole number, within 0 and the number of workers |
| LoadSchedule.PeakIsEnough | internal/engine/profile.go:96-106 | in profiles of virtual users the limit of workers never binds |
| LoadSchedule.ArrivalsThrough | internal/engine/profile.go:199-227 | the sum over the stages is the area under the target up to that time, or up to the end, rounded down with the epsilon |
| LoadProfile.AreaIsIntegral | internal/engine/profile.go:199-222 | over any stretch of time and for any bounds of the target the area grows within these bounds: it is the integral of the target |
| LoadSchedule.ArrivalsMonotone | internal/engine/profile.go:199-227 | arrivals never decrease with time |
| LoadSchedule.ArrivalsAreFloor | internal/engine/profile.go:226-226 | the integral rounded down, or one more exactly when the epsilon lifts it over the next whole number |
| Arrivals.Dispatcher.Dispatch | internal/engine/scheduler.go:252-275 | as many arrivals begin as there are idle workers and room for new ones; only the rest is dropped |
| Arrivals.Dispatcher.DrainReady | internal/engine/scheduler.go:240-251 | everything reported is taken, in whatever order |
| Arrivals.Dispatcher.Run | internal/engine/scheduler.go:277-305 | over any events up to the deadline, begun and dropped iterations add up to the arrivals through the whole duration, and live workers never exceed the limit |
| VuScheduler.DrainCutsNothing | internal/engine/scheduler.go:170-209 | over all interleavings: when the workers were all seen idle after the deadline, the cancellation cuts no iteration and none starts later |
| VuScheduler.ForcedOnlyAfterGrace | internal/engine/scheduler.go:160-168 | a worker is retired by force only after it was inactive for the whole grace, on the clock of the scheduler |
| VuScheduler.ActiveMatchesTarget | internal/engine/scheduler.go:44-58 | between ticks exactly the first workers up to the target are active, and an active sleeper has been woken |
| VuScheduler.StepKeeps | internal/engine/scheduler.go:44-209 | the invariant behind these, kept by every atomic step |
| RetiredContext.CancelledContextIsExact | internal/engine/scheduler.go:44-58 | a schedule of targets lets an active worker iterate under an ended context, in some interleaving, if and only if it lowers a worker, leaves it low until a tick at least the grace later, and raises it again |
| RetiredContext.ActiveContextIsLive | internal/engine/scheduler.go:121-158 | in every interleaving the context of an active worker is live unless the schedule revives that worker |
| RetiredContext.RevivedIteratesInVain | internal/engine/scheduler.go:121-158 | every schedule that revives a worker has an interleaving in which it iterates in vain |
| RetiredContext.ReactivatedUnderCancelledContext | internal/engine/scheduler.go:121-158 | there is such a schedule: one worker with a grace of 10, lowered at 10 and raised at 30 |
| VuControls.Controls.Reconcile | internal/engine/scheduler.go:44-58 | exactly the workers below the target are active afterwards, and the loops are steps of the interleaved machine |
| VuControls.Controls.Raise | internal/engine/scheduler.go:45-49 | only the workers between the old and the new target are woken, and they are due for retirement no more |
| VuControls.Controls.Lower | internal/engine/scheduler.go:50-56 | only the workers above the new target are told to stop, and they become due after the grace |
| VuControls.Controls.ForceRetiredWorkers | internal/engine/scheduler.go:160-168 | in whatever order the due workers are visited: the inactive ones lose their context, all are due no more, and nothing else changes |
| VuControls.Controls.AllIdle | internal/engine/scheduler.go:202-209 | tells whether no worker is busy |
| Sharding.ShardConfigs | internal/distributed/shard.go:10-82 | never fails on a valid configuration with at least one worker; every shard is valid, there are as many as the load allows, and what is not divided is the same in every shard |
| Sharding.SplitsAddUp | internal/distributed/shard.go:84-90 | the parts of a number add up to it |
| Sharding.SplitsEven | internal/distributed/shard.go:84-90 | parts differ by at most one |
| Sharding.LimitsKept | internal/distributed/shard.go:52-61 | connections, rate limits and users are divided without loss |
| Sharding.ProfileTotalsKept | internal/distributed/shard.go:62-74 | so are the targets of every stage and the workers of arrival profiles |
| ShardedLoad.TargetsAddUp | internal/engine/profile.go:170-186 | any division of a profile that keeps its totals at the stage ends adds up at every instant between |
| ShardedLoad.ShardTargetsAddUp | internal/distributed/shard.go:62-70 | the targets of the shards add up to the original at every instant |
| ShardedLoad.ShardArrivals | internal/distributed/shard.go:62-70 | the arrivals of n shards are at most n - 1 below those of the original and at most 1 above |
| ShardedLoad.ShardsCompile | internal/distributed/shard.go:10-82 | the compiled profiles of the shards of an accepted configuration are such a division, and there are at most as many as users |
| ShardedLoad.ShardedLoadAddsUp | internal/distributed/shard.go:10-82 | so the load of an accepted configuration adds up at every instant after sharding and compilation, and its arrivals stay within these bounds |
| WorkerProtocol.EnginesAreOwned | internal/distributed/worker.go:201-239 | with new run ids and any interleaving, an engine runs only for the current generation while scheduled or running, or its goroutine is committed to stopping it |
| WorkerProtocol.StaleStepsAreHarmless | internal/distributed/worker.go:201-239 | no goroutine or stop request of an older generation changes the server |
| WorkerProtocol.RunningWasStarted | internal/distributed/worker.go:216-230 | a running server was started by the goroutine of its own run, and the start of an engine never fails |
| WorkerProtocol.StepKeeps | internal/distributed/worker.go:128-329 | the invariant behind these, kept by every section and every wait |
| ReusedRun.OwnershipIsExact | internal/distributed/worker.go:309-313 | for every sequence of non-empty run ids: all runs that prepare exactly these, in order, keep every engine owned if and only if no id occurs twice |
| ReusedRun.RepeatedIdLosesEngine | internal/distributed/worker.go:309-313 | wherever an id is used again some run leaves an engine that nobody stops; if it is the last id, the server says it is stopped |
| WorkerServer.Server.HandlePrepare | internal/distributed/worker.go:128-156 | the section is the step of the protocol: it is refused exactly while a run is scheduled or running, and otherwise begins a new generation |
| WorkerServer.Server.HandleStart | internal/distributed/worker.go:170-196 | the section is the step of the protocol: accepted exactly for the prepared run within the window |
| WorkerServer.Server.ClaimRun | internal/distributed/worker.go:220-230 | the section is the step of the protocol: a run that is claimed is running in its own generation |
| WorkerServer.Server.EndRun | internal/distributed/worker.go:232-238 | the section is the step of the protocol |
| WorkerServer.Server.MarkFailed | internal/distributed/worker.go:319-329 | the section is the step of the protocol |
| WorkerServer.Server.HandleStop | internal/distributed/worker.go:277-304 | the section is the step of the protocol: the known run is found, and its engine is stopped exactly when it was running |
| WorkerServer.Server.FinishStop | internal/distributed/worker.go:309-313 | the section is the step of the protocol |
| WorkerServer.SectionsApply | internal/distributed/worker.go:201-329 | in every reachable state with new run ids the sections may be entered |
| Coordinator.AllPreparedBeforeAnyStart | internal/distributed/coordinator.go:106-141 | if an engine of the run is running, every worker has accepted its preparation and returned the digest of its own shard, and the plan installed for the running engine has that digest, whatever messages were lost, late or repeated |
| Coordinator.FinishedRunIsStarted | internal/distributed/coordinator.go:106-170 | a run that is handed to the caller was prepared and started at every worker, and every worker has answered both |
| Coordinator.FailedRunIsStopped | internal/distributed/coordinator.go:197-204 | when a run is given up, every worker was sent a request to stop it, unless the call to it failed |
| Aggregate.ValidateSnapshot | internal/distributed/aggregate.go:282-296 | decides the checks on one snapshot, with sums that stop at the largest counter |
| Aggregate.ValidationIsExact | internal/distributed/aggregate.go:573-582 | the checks let an inconsistent snapshot pass exactly when a sum leaves the range of the counters |
| Aggregate.OverflowGoesUnnoticed | internal/distributed/aggregate.go:573-582 | there is such a snapshot |
| Aggregate.ValidateMonotonic | internal/distributed/aggregate.go:324-334 | accepts exactly the snapshots of which no entry went back |
| Aggregate.AggregateSnapshots | internal/distributed/aggregate.go:432-443 | the totals of machine counters are the exact sums whenever these fit |
| Aggregate.ExactIsConsistent | internal/distributed/aggregate.go:494-522 | totals of consistent snapshots are consistent: successes, samples, buckets and status codes stay within their bounds |
| RunMetrics.Run.TakeSnapshot | internal/distributed/aggregate.go:80-148 | per worker a reply is accepted exactly if it is valid, names the steps and routes of the run and does not go back; otherwise the last accepted one is kept and marked stale |
| RunMetrics.Run.Watch | internal/distributed/aggregate.go:80-148 | over any rounds of replies, failures and regressions the totals shown, those of each branch route and those of each step never go back as long as they fit the counters; status counts of steps, if no reply lists a code again; the totals are consistent |
| RunMetrics.TotalsGrow | internal/distributed/aggregate.go:437-443 | totals grow with the snapshots they are made of, also when a worker reports for the first time |
| RunMetrics.BranchTotalsGrow | internal/distributed/aggregate.go:453-468 | so do the totals of each branch route |
| BranchTotals.AggregateBranches | internal/distributed/aggregate.go:453-468 | the map holds for every route the sum of its counters over all rows of all workers, modulo the counters |
| BranchTotals.TotalsBalance | internal/distributed/aggregate.go:316-320 | totals of valid rows are valid: no more successes than requests, and the failures are the difference |
| RunMetrics.StepTotalsGrow | internal/distributed/aggregate.go:444-452 | the totals of each step grow with the rows they are made of |
| StepTotals.ValidateStep | internal/distributed/aggregate.go:297-315 | decides the checks on the counters, buckets and status counts of a step |
| StepTotals.StepMovesForward | internal/distributed/aggregate.go:387-421 | accepts exactly the rows of which no counter or bucket went back, and which list every code again, the first time with no less than the last time before |
| StepTotals.CountsForwardExactly | internal/distributed/aggregate.go:409-420 | these checks keep status counts from going back, whatever is accepted next, if and only if nothing was listed for a code before its last count |
| StepTotals.RepeatedCodeGoesBack | internal/distributed/aggregate.go:409-420 | there are accepted rows whose status counts go back |
| StepSums.AggregateSteps | internal/distributed/aggregate.go:444-452 | every number of every step is the sum over all rows of all workers, modulo the counters |
| StepSums.TotalsBounded | internal/distributed/aggregate.go:297-315 | totals of valid rows count no more successes, failures, samples and answers of one status than requests |
| TotalLatencies.TotalPresentsAll | internal/distributed/aggregate.go:494-522 | if every worker presents the latencies it has recorded, the totals present all of them together: histogram, number, sum, smallest and largest |
| TotalLatencies.AggregateLatencies | internal/distributed/aggregate.go:432-474 | the percentiles of the totals are exact to the bucket for the samples of all workers |

## Left out

- HTTP, TLS, response parsing, URL and header validation, JSON paths, files and windows: outcomes of requests, eligibility and values of captures, and verdicts of assertions are inputs of a run.
- The hash that selects routes: its value is an input; the selection from it is modelled. Where runs are shown to exist, one number for each branch decides its route; that the hash takes these numbers for some worker and iteration is not shown.
- The statistics that steps record while they run, the latency sample countdown and the last status: they do not influence control or variables.
- The linear scenario without a plan, in the engine and in the front end: one path, without branches, joins and loops.
- Texts and codes of errors and of front-end issues: a refusal is modelled, the message is not. Where the compiler would return one of several errors first, the model may name another.
- PlanBinding.CompilePlannedScenarioSteps: the parsing of requests, targets and assertions and the default names of steps are not modelled; ids, captures and scopes are inputs.
- The front end collects all issues and goes on; the model stops at the first. It also numbers nodes instead of sorting ids, so the order of emitted steps is any order that begins with the entry.
- CanvasReading.ReadCanvas: unknown kinds of nodes are not modelled, and targets are in the order of the connections instead of that of their ids; the results hold for any order.
- CanvasPlan.BuildExecutionPlan: the text form of route weights is not modelled; weights are a map from target ids.
- Interleaving of goroutines is modelled by atomic steps on values, because Dafny methods run one at a time. The loops of the scheduler and the sections of the worker server are methods too and take these steps; the workers of the scheduler and the coordinator are steps only.
- Contexts, timers and channels: a step may happen at any time at which the source allows it; nothing is said about how soon.
- VuControls.Controls.ForceRetiredWorkers: the loop is followed while the workers stand still; other orders of steps are those of `VuScheduler`.
- VuScheduler.ForcedOnlyAfterGrace: time is that of the ticks, which may be older than the moment at which they are handled.
- Waiting for arrival workers after the deadline: it only ends the run.
- Cancelled arrival runs: the conservation result is about runs that reach their deadline.
- Rounding of floating-point numbers and the power function of the bucket table: numbers are real or whole, and the table is any strictly increasing one that ends at the largest counter. The overflow of the width of a metric history is modelled.
- Wrap-around of statistics counters in a shard and of metric counters in the front end: they are unbounded there. In aggregation wrap-around is modelled, and results are stated for totals that fit.
- Stats.TakeSnapshot: about shards at rest, not while workers record; its counters are merged in one loop each, where the source has one loop for all.
- RunMetrics.Run.TakeSnapshot: smallest and largest latencies and percentiles of steps, and the order of steps and routes in the totals, are not modelled; those of the run are.
- TransitionLimit.LimitIsSumOfMost: about plans without foreign entries; with one, an unmatched join may cut short the runs that would execute a step most often.
- ValueRuns.ValuesHaveOrigins: that no request captures one name twice is a premise, because the parsing of requests, which refuses this, is not modelled.
- ScopeRuns.StoredValuesAreExact: about plans whose routes open with a scenario step; where a route opens with another branch, a shared key may find nothing to lose.
- The ramp of configurations without a profile when it is sharded: each shard begins its ramp at one user, so the sum of the curves differs from the original.
- Clock offsets, start times and the health details other than reachability, staleness and state.
- BoundedHistory.BoundedMetricHistory.Add: with cutoffs only the bounds on size and membership are kept, because merging after a cutoff forgets points that an older one had outshone.
- Undo, import and export, plan storage, sanitising and the user interface: not about what runs or what is counted.
