# Agent hub verification model

A Dafny model of the parts of the agent hub where several pieces of state have to agree: the
fleet scheduler over a dependency graph and the repository it writes, the hub's independent
reader of the same graph, the location registry, the local review loop, the protocol that
starts work once per request, and two small printers and parsers. `dafny verify dfyconfig.toml`
checks everything.

## How it is organised

| file | models |
|---|---|
| `Options.dfy`, `Ordering.dfy`, `Text.dfy` | optional values, byte-wise string order and sorting, white space |
| `Graphs.dfy` | walks, cycles, ranks, longest chains |
| `Plans.dfy` | accepting and layering a fleet plan |
| `World.dfy` | what a fleet's children do to their branches: the step system, and code layering |
| `Development.dfy` | a node's develop run as the program carries it out, step by step a run of `World` |
| `Scheduler.dfy`, `Progress.dfy` | the layered scheduler as a step system, the recursive rule every schedule obeys, and that it gets done |
| `Workflow.dfy`, `FleetTotals.dfy`, `FleetRuns.dfy` | the fleet workflow as the loops that run it; what its total counts; what its children leave in the repository |
| `Reader.dfy` | the hub's own ordering, status derivation and aggregate |
| `Agreement.dfy` | reader against scheduler at every reachable state |
| `Tokens.dfy` | token figures, printed and scraped back |
| `Revisions.dfy`, `Dismissals.dfy` | state revisions; dismissals as a run of changes, checks and writes |
| `Forests.dfy`, `Locations.dfy` | parent links and loops; the location registry |
| `Steering.dfy` | which of the operator's decisions counts |
| `Review.dfy`, `ReviewLoops.dfy`, `Pilot.dfy` | one review pass and the stash; the whole loop; the pilot's passes and their chain |
| `Launching.dfy` | starting work exactly once per request |
| `Extraction.dfy` | isolating a JSON object in prose |

Code that mutates state is a class or a loop with invariants here too: the colouring search, the
depth memos, a checkout being seeded, the worktree with its stash, the dismissal table, the launch
store and the orchestrator. Protocols that interleave (children of a fleet, concurrent starts) are
step systems, and the theorems about them range over every run. Children, activities, agents and operators answer through parameters.

## Assumptions

- Digests do not collide on the values compared: stated as a premise wherever it is used, and only
  about the places, streams or launches at hand. A digest printed in hexadecimal has no slash.
- A clean git merge reaches the union of both histories. A resolved conflict is accepted only when
  the dependency is an ancestor of HEAD.
- Agents only add commits on top of HEAD; they may leave changes uncommitted.
- Each activity takes effect once; its answer is the one left after its retries. The start protocol
  is the exception: there a reply may be lost with or without the effect.
- A failed stash pop keeps the entry; what it leaves in the tree besides is given.
- Nobody else pushes to or pops from the stash while a pass has an entry in it. Worktrees of one repository
  share their stash, so this is an assumption about what else runs there.
- A `char` is one Unicode scalar value. In `Revisions.dfy` a string is a sequence of bytes. Token
  figures are bounded by Go's 64-bit int where they are parsed; elsewhere integers do not overflow.
- Rendering of instants is injective and starts with a digit.

## Where the code and its own description differ

- `RaceOutcome`, `SecondExecution`, `CrashAndRetryRunsTwice`: the description says that the same request
  identity always names the same execution and that two racing requests cannot both win. A request can begin
  two executions: exactly if another submission of it takes effect, when one has begun, while nothing runs under
  the identity of the submitted kind; the kind is the other one, or the execution has closed
  (`BeginsAfterClosing`). `RepeatStartsNothing` says what does hold.
- `AnsweredPlace`: a repeat is to describe the run like the first answer did. It is described from the
  recorded directory alone, so its place has no parent even where the first answer's had one; and a call that
  lost the race names its own place.
- `SeedBlockedIsClean`, `BlockedButDirty`, `ReviewBlockedIsClean`, `ReviewedButDirty`: a blocked node is said to
  be left clean. If the agent's last attempt concluded the merge itself, there is nothing to abort, and what it
  left uncommitted stays; and nobody cleans up after the agents of a review that does not converge.
- `UsageReportedExactly`, `UnpublishedWorkStrandsChanges`: the pilot's row is to carry the pass's own usage. A
  pass that fails after its agent answered reports none of it.

## Worth knowing

- `RunRevisionExact`: a run's revision leaves out who started it and its instructions, which the overview does
  not show.
- `RecordMovesOnlyBlocked`: the recorded breakdown is what turns a blocked node from failed into waiting for
  input; it moves nothing else.
- `FailedRowNamesEnding`: a run cancelled while it summarises itself fails, and its row names the ending all
  the same.
- `PilotLeavesExactly`: a pilot pass that cannot push leaves the developer's changes in the stash.
- `TokensThroughProse`, `SummaryHidesFigure`, `NoNodeHidesItsFigure`: a summary that already reports a figure
  would hide the appended one; no summary an awaited node returns does.

## Model

| member | source | states |
|---|---|---|
| `Plans.ValidatePlan` | internal/fleet/domain.go:70-104 | Accepts a plan if and only if it is well formed and acyclic, and refuses every other one for its first defect: of the first bad node, else the first bad edge, else a cycle it has. |
| `Plans.CheckNodes` | internal/fleet/domain.go:74-89 | Stops at the first node whose id is blank, no slug or repeated, or whose prompt is blank, and names that defect. |
| `Plans.CheckEdges` | internal/fleet/domain.go:90-99 | Stops at the first dependency that is the node itself or no node, and passes exactly when there is none. |
| `Plans.DefectsInOrder` | internal/fleet/domain.go:74-99 | What a refusal names is true of the first bad node or edge, and nothing that is looked for before it is. |
| `Plans.RefusalUnique` | internal/fleet/domain.go:66-69 | Apart from which cycle is shown, a plan is refused in one way. |
| `Plans.FindCycle` | internal/fleet/domain.go:110-154 | A non-empty answer is a closed walk along real dependency edges, an empty one means the graph is acyclic: sound and complete on any plan. |
| `Plans.CycleSearch.Visit` | internal/fleet/domain.go:123-144 | The colouring search returns a cycle or blackens the node with a rank above all its dependencies, never forgetting a colour; terminates because white ids run out. |
| `Plans.CycleSearch.CycleFrom` | internal/fleet/domain.go:128-134 | An edge into a node on the current path closes a cycle: the path from that node on, followed by it. |
| `Graphs.AcyclicHasRank` | internal/fleet/domain.go:110-154 | The empty answer provides a topological rank: every acyclic graph has one. |
| `Plans.TopoLayers` | internal/fleet/domain.go:161-200 | Refuses exactly what ValidatePlan refuses; otherwise layer i lists, ascending, exactly the nodes whose longest dependency chain has length i, and no layer is empty. |
| `Plans.ChainMemo.Compute` | internal/fleet/domain.go:170-184 | The memoised recursion terminates on a ranked graph and returns the length of the longest chain; earlier memo entries stay. |
| `Plans.ComputeDepths` | internal/fleet/domain.go:185-190 | Every node gets its longest chain length, and the maximum is attained. |
| `Plans.FillLayers` | internal/fleet/domain.go:191-198 | Bucketing by depth and sorting yields the listing of each depth class. |
| `Plans.NoLengthGap` | internal/fleet/domain.go:161-200 | Chain lengths have no gap: a node at depth d has some node at every smaller depth below it, so no layer is empty. |
| `Plans.LayeringUnique` | internal/fleet/domain.go:161-200 | A graph has one layering. |
| `Plans.LayersIgnoreOrder` | internal/fleet/domain.go:161-200 | Permuting or repeating nodes or dependencies leaves the layers unchanged. |
| `Plans.DependenciesBelow` | internal/fleet/domain.go:156-200 | Every dependency of a node in a layer lies in a strictly earlier one. |
| `Ordering.LessMeans` | internal/fleet/domain.go:192-198 | The order of identifiers: the first difference decides, and a proper prefix comes first. |
| `Reader.DependencyOrder` | internal/agenthub/domain.go:690-728 | The round-based sort, on any plan with unique ids, computes the rounds of nodes whose dependencies are already placed. |
| `Reader.DependencyOrderExact` | internal/agenthub/domain.go:690-728 | On any graph the order lists once each, dependencies first, exactly the nodes from which no cycle is reachable. |
| `Reader.OrderIsLayers` | internal/agenthub/domain.go:690-728 | On every accepted plan the reader's order is the concatenation of the scheduler's layers. |
| `Reader.StatusFromDependencies` | internal/agenthub/domain.go:666-684 | An unstarted node is paused behind any unsuccessful dependency, todo when all are done, and waiting otherwise. |
| `Reader.DeriveNodeStatuses` | internal/agenthub/domain.go:637-661 | The statuses satisfy the defining equations: a known outcome decides, a node behind a cycle waits, and any other is explained by its dependencies' own derived statuses. |
| `Reader.DerivedUnique` | internal/agenthub/domain.go:637-661 | Those equations have one solution, so the order of evaluation does not matter. |
| `Reader.OutcomeDecides` | internal/agenthub/domain.go:141-158 | A known outcome reads as its own status and claims no more than is known: what is outside the vocabulary reads as failed; a node nothing is known of waits behind a cycle. |
| `Reader.DerivedMeans` | internal/agenthub/domain.go:619-684 | On any plan and whatever is known, an unstarted node reads paused exactly behind a node known not to have succeeded, reached past nodes nothing is known of, and todo exactly when every dependency is known to have succeeded. |
| `Reader.AggregateStatus` | internal/agenthub/domain.go:578-608 | The aggregate obeys the stated precedence over the node statuses. |
| `Reader.AggregateUnique` | internal/agenthub/domain.go:578-608 | The precedence determines the aggregate. |
| `Reader.AggregateIs` | internal/agenthub/domain.go:562-608 | The aggregate by which statuses occur: failed, waiting for input, in progress, paused, all done, some done, none. |
| `World.NodeBranchInjective` | internal/fleet/domain.go:210-212 | Within one fleet different nodes write different branches. |
| `World.DependencyBranchesCover` | internal/fleet/domain.go:219-227 | The branches merged are exactly those of the direct dependencies, one each. |
| `World.DependencyBranchesInOrder` | internal/fleet/domain.go:214-227 | They are merged in the order of the dependencies' ids, however the plan lists them. |
| `World.OwnBranchOnly` | internal/fleet/workflow.go:229-246 | A step of one child leaves every other node's branch alone. |
| `World.InvStep` | internal/codereview/workflow.go:507-753 | Every step of every child and of the scheduler keeps the invariant: nodes start only on successful dependencies, are skipped only behind a fallen one, and each branch holds what its phase has merged. |
| `World.SettledStays` | internal/fleet/workflow.go:213-279 | A node that succeeded, fell or was skipped stays so in every later state. |
| `World.CodeLayering` | internal/codereview/workflow.go:597-617 | In every interleaving, when a develop agent has started, its history contains the pinned base and the whole final branch of every direct and transitive dependency, each of which landed a commit beyond its own seed and ended its review converged. |
| `World.LayeringLasts` | internal/codereview/workflow.go:720-753 | From then on the dependency's branch never moves and the node's branch keeps containing it. |
| `Development.Checkout.MergeDependency` | internal/codereview/activities.go:487-503 | A clean merge reaches both histories, a conflict is left in progress, and any other git error is an error. |
| `Development.Checkout.TryResolve` | internal/codereview/activities.go:525-560 | A resolution is accepted exactly when no unmerged path and nothing uncommitted is left and the dependency is reachable from HEAD. |
| `Development.Checkout.AbortMerge` | internal/gitcli/gitcli.go:300-310 | Restores a merge in progress and changes nothing when there is none. |
| `Development.SeedBranch` | internal/codereview/workflow.go:722-751 | The result and the history are those the events determine; a blocked checkout is left with conflicts or changes exactly when the last attempt had concluded the merge and left some. |
| `Development.BlockedButDirty` | internal/codereview/workflow.go:711-719 | An agent that concludes the merge and leaves something uncommitted: the node is blocked, and its tree is not clean. |
| `Development.SeedAllContains` | internal/codereview/workflow.go:720-753 | A seeded history holds what it started from and every branch merged. |
| `Development.SeedAllExactly` | internal/codereview/workflow.go:720-753 | Seeding blocks or fails exactly as the first branch that cannot be merged does, and succeeds exactly when there is none. |
| `Development.MergesExactly` | internal/codereview/workflow.go:722-751 | Over what git and the two attempts answer: when a merge is done, when it blocks, and what it costs. |
| `Development.SeedingCosts` | internal/codereview/workflow.go:726-753 | Seeding costs the sum of what its merges cost. |
| `Development.SeedBranches` | internal/codereview/workflow.go:720-753 | The loop's result, tokens and history are those the events determine, and each iteration is a step of the world. |
| `Development.EnsureDeveloped` | internal/codereview/activities.go:460-478 | Passes exactly when the agent landed a commit beyond its base and left nothing uncommitted. |
| `Development.DevelopAndReview` | internal/codereview/workflow.go:597-699 | From a seeded branch on, the end is what the events determine, a run cancelled while it summarises included; every step is one of the world's, and a node its review blocks leaves the tree its review left. |
| `Development.ReviewLands` | internal/codereview/workflow.go:762-784 | The awaited review succeeds if and only if some pass of it converges. |
| `Development.LandsExactly` | internal/codereview/workflow.go:507-709 | Over the events: a run lands if and only if every dependency is merged, the agent answers, lands a commit of its own and leaves nothing uncommitted, the run is not cancelled while it summarises, and the review converges; it reports what seeding and developing cost. |
| `Development.FailsUnreviewed` | internal/codereview/workflow.go:617-648 | A run whose agent errs, or whose work does not stand up to the check, fails whatever a review would have said. |
| `Development.BlocksExactly` | internal/codereview/workflow.go:722-784 | Over the events: a run blocks if and only if seeding does, or what landed is reviewed to an end other than convergence. |
| `Development.SeedBlockedIsClean` | internal/codereview/workflow.go:597-617 | A node blocked by seeding is left clean if and only if, at the branch it stopped at, there was a merge to abort or the last attempt had left nothing. |
| `Development.ReviewBlockedIsClean` | internal/codereview/activities.go:224-230 | A node blocked by its review is left clean if and only if neither an agent nor a failed pop left anything in its tree since the review began, or since a pass that moved everything into the stash and left it there. |
| `Development.ReviewedButDirty` | internal/codereview/activities.go:224-230 | A node whose review nobody steers, whose passes never converge, and whose last reviewer leaves something uncommitted: blocked, and not clean. |
| `Development.DevelopWorkflow` | internal/codereview/workflow.go:507-709 | The end is the one the events determine, so is whether a blocked run leaves a clean tree, the run is a run of the world's step system, one whose agent errs reaches no review, and a landed one holds the base, every dependency and a commit of its own. |
| `Scheduler.SchedStep` | internal/fleet/workflow.go:213-279 | Every launch, skip, await, barrier and child step keeps the scheduler's invariant and is a step (or a stutter) of the scheduler without layers. |
| `Scheduler.LayeredRefinesGreedy` | internal/fleet/workflow.go:213-279 | A run of the layered scheduler, seen from the world, is a run of the one that starts a node as soon as its dependencies allow. |
| `Scheduler.SettledByRule` | internal/fleet/workflow.go:213-279 | Under any scheduling, whatever has settled has settled as the recursive rule says: skipped if some dependency did not succeed, else as its own child ended. |
| `Scheduler.FinishedByRule` | internal/fleet/workflow.go:208-288 | For every completion order a finished run has settled each node exactly once, with the rule's status, in an order that depends on the plan and the outcomes alone. |
| `Scheduler.BarrierChangesNothing` | internal/fleet/workflow.go:255-279 | The layer barrier gives the same statuses as any completed run of the start-when-ready scheduler with the same child outcomes. |
| `Progress.NeverStuck` | internal/fleet/workflow.go:213-279 | In every reachable state the scheduler can move if and only if it has not finished and does not await a child that is still at work. |
| `Progress.MovesAreBounded` | internal/fleet/workflow.go:213-279 | However its children take their time, a run has at most two scheduler moves for each node and one for each layer; every move lowers a measure nothing else raises. |
| `Progress.FinishedRunExists` | internal/fleet/workflow.go:208-288 | Every run is the beginning of a finished one. |
| `Workflow.BlockingDependency` | internal/fleet/workflow.go:313-322 | No blocker exactly when all dependencies succeeded; otherwise the least unsuccessful one by id. |
| `Workflow.BlockerOf` | internal/fleet/workflow.go:222-230 | A blocker is found exactly for the nodes the recursive rule skips, and it is the one the rule names. |
| `Workflow.LaunchLayer` | internal/fleet/workflow.go:220-252 | A layer's launch records the skipped nodes with their blockers, in layer order, and starts exactly the others. |
| `Workflow.CollectLayer` | internal/fleet/workflow.go:255-279 | Awaiting a layer records every started child, classifying seed conflicts and unconverged reviews as blocked and reading the tokens out of the summary. |
| `Workflow.RunLayers` | internal/fleet/workflow.go:213-281 | The nested loops settle every node by the rule, in the fixed settle order. |
| `Workflow.FleetWorkflow` | internal/fleet/workflow.go:152-305 | Refuses without a worktrees directory, then invalid plans, then a missing base, in that order and exactly then; otherwise each child starts from the resolved base, is told its own node's prompt, branch and branches to merge, works in the fleet's directories and awaits its review; every result, detail and token figure is as the rule says, and a cancelled run says so and keeps them. |
| `Workflow.ChildrenAreApart` | internal/fleet/workflow.go:232-249 | Children handed what they have to be share no workflow and no branch, and each is told to merge exactly its own dependencies' branches. |
| `Workflow.SummarizeFleet` | internal/fleet/domain.go:305-351 | The four counts are how often each status occurs among the results, they partition them, and the figure is the sum of the tokens. |
| `Workflow.NodeTokensSurvive` | internal/codereview/workflow.go:785-798 | A node's develop-step figure survives its trip through the awaited summary. |
| `Workflow.NoNodeHidesItsFigure` | internal/fleet/domain.go:272-278 | No summary an awaited node returns reports a figure before the appended one, so the figure parsed is always the develop step's. |
| `Workflow.FleetTotalIsDevelopTokens` | internal/fleet/workflow.go:270-275 | The fleet's total is exactly the develop-step tokens of the succeeded nodes. |
| `FleetTotals.FleetReadsEnd` | internal/fleet/workflow.go:255-271 | The fleet classifies a develop run by its answer exactly as the run ended: success if and only if it landed, blocked if and only if it blocked. |
| `FleetTotals.FigureIsCost` | internal/fleet/workflow.go:270-275 | The figure read off the answer of a run that landed is what its seeding and developing cost. |
| `FleetTotals.FleetTotalIsCost` | internal/fleet/workflow.go:270-275 | With develop runs for children, the fleet's total is what seeding and developing cost in the runs that landed, and nothing else. |
| `FleetRuns.FleetLayersCode` | internal/fleet/workflow.go:207-279 | From the program's own loops: with develop runs that do what their children were handed, the branch of every node that succeeded holds the base the workflow resolved, a commit no dependency has, and the whole branch of every direct and transitive dependency, each of which succeeded. |
| `FleetRuns.ServedIsBuilt` | internal/fleet/workflow.go:229-246 | One succeeded node is built on the resolved base and on every branch it was told to merge. |
| `Tokens.GroupThousands` | internal/codereview/domain.go:235-249 | The loop that writes a comma before every third remaining digit computes the grouping of the number, sign included. |
| `Tokens.GroupedStrips` | internal/fleet/domain.go:364-378 | Removing the commas gives the digits back. |
| `Tokens.GroupedFigureStrips` | internal/codereview/domain.go:228-249 | Without the commas the whole figure is back, its sign included. |
| `Tokens.GroupedCommas` | internal/codereview/domain.go:235-249 | Counted from the right, exactly every fourth character is a comma. |
| `Tokens.MatchIsShape` | internal/fleet/domain.go:279-279 | The greedy scan finds a match exactly where the pattern token usage[^:]*:\s*([\d,]+)\s*tokens has one, with that group. |
| `Tokens.ParsesExactly` | internal/fleet/domain.go:285-295 | Reads the value of the first figure reported; nothing where there is none, or one that is no number or out of range. |
| `Tokens.TokensThroughProse` | internal/fleet/domain.go:285-295 | Reading back an appended figure gives that figure, unless the summary before it already reports one of its own, and then exactly that one: for every summary. |
| `Tokens.TokensSurvive` | internal/codereview/domain.go:228-231 | A figure appended to a summary that does not contain the words is read back exactly. |
| `Tokens.SummaryHidesFigure` | internal/fleet/domain.go:285-295 | A summary, though none that a node returns, for which reading back gives its own figure instead. |
| `Agreement.NodeOutcomes` | internal/agenthub/service.go:920-925 | The recorded breakdown is layered over the child outcomes, a running one excepted. |
| `Agreement.OverlayObserved` | internal/agenthub/service.go:878-927 | Layering a truthful breakdown over an observation of the scheduler gives an observation of it. |
| `Agreement.OverlayAt` | internal/agenthub/service.go:920-925 | Where nothing says a node is running, the last entry about it decides. |
| `Agreement.ReaderAgrees` | internal/agenthub/domain.go:637-684 | At every reachable state, from the outcomes of the started nodes alone, an unstarted node reads paused exactly when some transitive dependency settled unsuccessfully, todo exactly when all its dependencies succeeded, else waiting. |
| `Agreement.StartedReads` | internal/agenthub/domain.go:141-158 | In every reachable state a started node reads in progress exactly while its child is at work, done exactly when the child succeeded, and failed or waiting for input exactly when it ended otherwise, as it was observed. |
| `Agreement.ReaderForetells` | internal/fleet/workflow.go:213-279 | What reads paused is started in no continuation and skipped in every completed one; what reads todo is never skipped. |
| `Agreement.PausedAreSkipped` | internal/agenthub/domain.go:637-661 | At the end the derived paused set equals the skipped set. |
| `Agreement.RecordMovesOnlyBlocked` | internal/agenthub/service.go:873-925 | Adding the recorded outcomes moves a status if and only if the node is blocked and its last entry differs from its child's outcome, between failed and waiting for input; skipped and every other node stay. |
| `Agreement.BlockedNodeMoves` | internal/agenthub/service.go:873-879 | A reachable fleet in which that happens. |
| `Agreement.FleetAggregate` | internal/agenthub/domain.go:578-608 | Over reachable states the aggregate is never paused, is done exactly when all nodes succeeded, unsuccessful exactly when some child fell, and otherwise something is todo or in progress. |
| `Agreement.FleetAggregateIs` | internal/agenthub/domain.go:578-608 | The aggregate is a function of the reachable state: failed, then waiting for input, done when all succeeded, in progress once the first node has started, todo before. |
| `Agreement.FleetReadsDone` | internal/agenthub/service.go:857-867 | The published fleet status over reachable states: done exactly when every node succeeded and the fleet's own execution settled without failing, failed if that failed or a child did, never paused, todo exactly before the first node. |
| `Revisions.CollectFleetParts` | internal/agenthub/domain.go:239-260 | The appending loop collects exactly the flattening of the fleet. |
| `Revisions.StateRevision` | internal/agenthub/domain.go:384-392 | The writing loop digests each part behind its length. |
| `Revisions.StreamInjective` | internal/agenthub/domain.go:384-392 | The length-prefixed stream is uniquely decodable. |
| `Revisions.NodesInjective` | internal/agenthub/domain.go:247-258 | Flattening variable nodes, counted dependencies and optional executions loses nothing. |
| `Revisions.FleetRevisionExact` | internal/agenthub/domain.go:239-260 | Two fleets share a revision if and only if they agree in every field. |
| `Revisions.RunRevisionExact` | internal/agenthub/domain.go:376-382 | Two runs share a revision if and only if they agree in every field but who started them and the instructions they resolved, which a revision leaves out. |
| `Revisions.SomeRenderIsGood` | internal/agenthub/domain.go:394-399 | Renderings of instants as the revision theorems suppose them, injective and starting with a digit, exist. |
| `Dismissals.SameExactly` | internal/agenthub/domain.go:376-402 | Two states of one item share a revision if and only if they are the same in every published field. |
| `Dismissals.HiddenExactly` | internal/agenthub/service.go:702-725 | In every reachable state of changes, dismissals checked and stored apart, and withdrawals, an item is hidden from a viewer if and only if it is in the state that viewer's last stored dismissal was accepted for. |
| `Dismissals.HiddenWasReviewed` | internal/agenthub/service.go:701-725 | Where viewers only dismiss what they were shown, whatever is hidden is, field by field, a state its viewer was shown. |
| `Dismissals.DismissHides` | internal/agenthub/service.go:702-725 | Naming the current revision, of a fleet or a run, and storing it hides the item; naming any other changes nothing. |
| `Dismissals.RowIsItsOwn` | internal/agenthub/hubpg/hubpg.go:135-182 | A viewer's row for an item changes by its own dismissal and its own withdrawal only, and after the withdrawal the item shows. |
| `Dismissals.AfterInv` | internal/agenthub/hubpg/hubpg.go:135-182 | Every pending and stored revision is that of the work it was accepted for, whatever interleaves. |
| `Dismissals.DismissFor` | internal/agenthub/service.go:702-725 | Dismisses exactly a current, named revision of known work, reports a changed state exactly when it has changed, and then does to the table what accepting and storing do in the run. |
| `Dismissals.UndismissFor` | internal/agenthub/service.go:734-746 | Withdraws only that viewer's dismissal, and tells whether there was one. |
| `Dismissals.DismissalIdInjective` | internal/agenthub/domain.go:505-508 | An item identity names one kind and one item. |
| `Dismissals.DismissedIds` | internal/agenthub/service.go:1356-1366 | Holds, for exactly the items dismissed, the revision of the last dismissal read. |
| `Dismissals.LeavesOut` | internal/agenthub/service.go:1348-1352 | The overview leaves an item out if and only if the run model hides it. |
| `Forests.FindLoop` | internal/agenthub/location.go:521-551 | Returns a loop of parent links, or nothing exactly when they form a forest, whatever order the walks start in. |
| `Forests.WalkUp` | internal/agenthub/location.go:531-548 | One walk ends in a loop it closed itself, or settles every entry it passed. |
| `Forests.NoLoopLeft` | internal/agenthub/location.go:506-516 | Once no loop is left, the entries that lost their parent are exactly the least ones of the original loops. |
| `Forests.BrokenUnique` | internal/agenthub/location.go:502-505 | The break is a function of the links, not of the order loops are found in. |
| `Locations.PlacesUpClosed` | internal/agenthub/location.go:409-411 | What a registry describes is closed under ancestry. |
| `Locations.AncestryDecodes` | internal/agenthub/location.go:271-278 | Two values of one place with the same rendered ancestry are equal. |
| `Locations.BetterKnownIsTotal` | internal/agenthub/location.go:381-386 | On values sharing an identity the publication rule is total and asymmetric. |
| `Locations.ChosenUnique` | internal/agenthub/location.go:409-420 | The best known value of every identity is determined by the set of places. |
| `Locations.Offer` | internal/agenthub/location.go:414-418 | One candidate keeps the choice the best of everything seen. |
| `Locations.OfferAncestry` | internal/agenthub/location.go:413-419 | Walking up from a reference offers the place and each of its ancestors. |
| `Locations.ChooseAll` | internal/agenthub/location.go:410-420 | After all references the choice is the best of the closure, the unknown place included. |
| `Locations.BreakLoop` | internal/agenthub/location.go:512-514 | Making the smallest member of a loop a root removes that one link and no other. |
| `Locations.BreakCycles` | internal/agenthub/location.go:506-516 | Terminates in a forest; an entry loses its parent if and only if it has the smallest identity on its own loop. |
| `Locations.SelfParentIsCut` | internal/agenthub/location.go:493-505 | An entry recorded under itself is published as a root. |
| `Locations.DepthMemo.PublishedDepth` | internal/agenthub/location.go:459-471 | The memoised walk returns the number of published ancestors and keeps the memo right. |
| `Locations.OrderEntries` | internal/agenthub/location.go:440-454 | The order is by published depth, then by identity, over exactly the published entries. |
| `Locations.LayOut` | internal/agenthub/location.go:423-427 | The list holds each entry once and the index gives its position. |
| `Locations.NewLocationRegistry` | internal/agenthub/location.go:409-429 | The result is the registry of the closure of its references: best known values, loops opened, ordered, indexed. |
| `Locations.RegistryUnique` | internal/agenthub/location.go:388-408 | A set of places has one registry. |
| `Locations.RegistryIgnoresOrder` | internal/agenthub/location.go:388-408 | Permuting or repeating the references changes nothing in the list or the index. |
| `Locations.RegistryShape` | internal/agenthub/location.go:334-348 | One entry per identity of the closure, the unknown place among them; the index agrees with the list; every parent is listed, and before its children. |
| `Locations.DeepestIsPublished` | internal/agenthub/location.go:376-429 | Told of the places alone: the value published of a place is the one with the most ancestors, the least rendered ancestry settling ties, and it is made a root exactly if the place is the least of a loop of such values. |
| `Locations.NothingDeeper` | internal/agenthub/location.go:376-386 | Every entry carries at least as many ancestors as any value of its place in the closure, unless it was opened as the least of a loop. |
| `Locations.ListedInOrder` | internal/agenthub/location.go:431-454 | The list is in order of how many published places an entry hangs under, and of identity where that is equal. |
| `Steering.AnswerIsFirst` | internal/steering/workflow.go:79-95 | However many decisions are sent, the one that counts is the first acceptable one, and none counts exactly when none is acceptable. |
| `Steering.AcceptsExactly` | internal/steering/workflow.go:79-95 | Each pause offers its own three choices, with guidance of bounded length exactly where it is called for. |
| `Steering.Ask` | internal/steering/workflow.go:148-168 | The session answers with that decision: one of its pause's vocabulary, with guidance exactly where it is called for and within its bound. |
| `Review.Worktree.MarkHeadAndStash` | internal/codereview/activities.go:638-655 | Sets local changes aside as one entry on top, exactly when there are any, and checkpoints HEAD. |
| `Review.Worktree.StashPop` | internal/gitcli/gitcli.go:258-262 | Puts the top entry back, or keeps it and leaves whatever conflict markers the failed pop leaves. |
| `Review.Worktree.EnsureHeadAdvanced` | internal/codereview/activities.go:683-700 | Reports landed commits; without any, puts the entry back first and reports no advance, or an error when that fails, which may leave conflict markers. |
| `Review.PassEndsExactly` | internal/codereview/workflow.go:1017-1168 | For each way a pass can end, and for going on, the exact condition over what the world answers it. |
| `Review.PassHandsOn` | internal/codereview/workflow.go:1131-1168 | A pass that goes on hands the next what its own reviewer said, the next number or a fresh budget, and everything spent; nothing else changes. |
| `Review.PassAsksExactly` | internal/codereview/workflow.go:1019-1047 | Where it asks at all, a pass asks before it implements findings and at the pass limit, and nowhere else. |
| `Review.PassCostsExactly` | internal/codereview/workflow.go:1049-1100 | Every row carries what the sessions that answered cost, whatever came of the pass. |
| `Review.FailedRowNamesEnding` | internal/codereview/workflow.go:1074-1086 | The row of a failed pass names an ending if and only if the pass came to one other than a stop and was cancelled while it summarised itself. |
| `Review.CancelledRowNamesPassCap` | internal/codereview/workflow.go:1150-1160 | A pass of that kind, at the pass limit. |
| `Review.PassLosesNothing` | internal/codereview/activities.go:628-655 | What is not in the tree after a pass is in the one entry it may leave, which holds only its own changes; what is new there is what agents and a failed pop left. |
| `Review.LeftExactly` | internal/codereview/workflow.go:1105-1113 | A pass that does not fail leaves its entry if and only if it pushed one and the pop after its review failed; a pop is tried only where commits were landed and reviewed. |
| `Review.AskBeforeImplementing` | internal/codereview/workflow.go:1023-1047 | With steering off nobody is asked; otherwise the pass goes ahead on guide or skip, ends on stop and fails without a decision; the pause sees the stash untouched. |
| `Review.RunImplement` | internal/codereview/workflow.go:1049-1088 | The exact outcome, usage and stash of the implement step. |
| `Review.AskAtLimit` | internal/codereview/workflow.go:1118-1157 | At the pass limit: pass-cap without steering, otherwise what the operator decides. |
| `Review.ReviewPass` | internal/codereview/workflow.go:940-1169 | Exit, row, pauses, tree and stash are those the events determine. |
| `ReviewLoops.ReviewLoop` | internal/codereview/workflow.go:1117-1169 | The loop comes to what its events determine, pass by pass. |
| `ReviewLoops.PassOfLoop` | internal/codereview/workflow.go:1117-1169 | Each row and trace is that of the pass its input and its answers make it. |
| `ReviewLoops.FindingsHandedOn` | internal/codereview/workflow.go:1117-1169 | Over whole loops, renewals included, pass k is handed exactly what the reviewer of pass k-1 said, and the settings the loop began with. |
| `ReviewLoops.LoopIsBounded` | internal/codereview/domain.go:258-263 | Pass number + 5 x resets counts the passes started, and a new budget only follows an operator's renewal. |
| `ReviewLoops.FivePassesPerBudget` | internal/codereview/domain.go:258-263 | Between any pass and the fifth after it the operator renewed the budget. |
| `ReviewLoops.LoopAccounts` | internal/codereview/workflow.go:1009-1012 | The total carried or reported is the seed plus every row's own usage, and only the last row names an ending. |
| `ReviewLoops.LoopKeepsSteering` | internal/codereview/workflow.go:977-984 | Steering cannot be switched while a loop runs; an unsteered loop pauses nowhere and has at most five passes; who ended a loop shows whether it asked. |
| `ReviewLoops.LoopLosesNothing` | internal/codereview/activities.go:628-637 | In every loop, failing ones included, no local change is lost and no earlier entry is touched. |
| `ReviewLoops.StashDepth` | internal/codereview/activities.go:628-637 | A loop that does not fail leaves the stash as deep as it was and one deeper for every failed pop; a failing one at most one deeper still. |
| `ReviewLoops.PausesAreClean` | internal/codereview/workflow.go:1019-1022 | At every pause the entries out are exactly those some pass failed to pop. |
| `ReviewLoops.CleanLoopRestoresAll` | internal/codereview/activities.go:628-637 | Where every pop succeeds, a loop that does not fail leaves the stash as it found it and every local change in the tree. |
| `ReviewLoops.TreeIsClean` | internal/codereview/activities.go:628-637 | However a loop stands, its tree is clean if and only if nothing got into it since the loop began clean, or since a pass that left everything it found in the stash. |
| `ReviewLoops.CappedButDirty` | internal/codereview/activities.go:224-230 | An unsteered loop that ends at the pass limit with what its last reviewer left uncommitted. |
| `ReviewLoops.SumTokens` | history.go:416-425 | The recorded total is the sum of the rows. |
| `ReviewLoops.DevelopAndAwaitReview` | internal/codereview/workflow.go:762-799 | The result is what the loop's events determine. |
| `ReviewLoops.DevelopAccounts` | internal/codereview/workflow.go:626-630 | Develop succeeds if and only if some pass converges; its own row and its review's rows add up to the reported total. |
| `Pilot.PilotPass` | internal/codereview/workflow.go:308-440 | Result, pause, tree and stash of a pilot pass are those the events determine. |
| `Pilot.AddressComments` | internal/codereview/workflow.go:387-440 | The exact outcome, tree and stash of addressing the comments. |
| `Pilot.PilotLeavesExactly` | internal/codereview/workflow.go:398-430 | A failed pass that checkpointed the tree leaves the developer's changes in the stash unless its agent landed nothing and the pop succeeds; an addressed one only if its last pop fails; a pass that never got so far leaves none. |
| `Pilot.PilotWorkflow` | internal/codereview/workflow.go:162-285 | Exit, row, pause, tree and stash of a recorded pass are those the events determine, one that could not begin and one cancelled while it summarises included. |
| `Pilot.PassExitsExactly` | internal/codereview/workflow.go:162-285 | Over the events: a pull request with nothing to address, or a stop, ends the chain with what was spent; published work goes on where there is a chain; everything else fails. |
| `Pilot.PassTellsExactly` | internal/codereview/workflow.go:185-229 | Over the events: what the row says became of the pass, and when the operator is asked. |
| `Pilot.UsageReportedExactly` | internal/codereview/workflow.go:203-214 | The row carries what the pass's agent cost if and only if the pass published, the agent never answered, or the session was free; any other pass fails and its row carries none of it. |
| `Pilot.UnpublishedWorkStrandsChanges` | internal/codereview/workflow.go:404-410 | A pass whose work was done, paid for and landed, but not pushed: it fails, its row reports no tokens of those spent, and the changes stay in the stash. |
| `Pilot.PilotChain` | internal/codereview/workflow.go:230-279 | The chain comes to what its events determine, pass by pass. |
| `Pilot.ChainAccounts` | internal/codereview/workflow.go:205-217 | The total carried or reported is the seed and every row's usage, and covers everything the agents cost unless the chain failed; then only the last row can lack its pass's. |
| `Pilot.ChainLosesNothing` | internal/codereview/activities.go:628-637 | In every chain, failing ones included, no local change is lost and no earlier entry is touched. |
| `Launching.KindsDiffer` | internal/wfid/wfid.go:144-164 | Requests of different kinds map to different workflows whatever the digest. |
| `Launching.AfterInv` | internal/agenthub/launch.go:249-306 | Every step of every call, crash, lost reply and closing execution keeps the protocol's invariant; requests, launches, executions begun and answers given never change. |
| `Launching.AnswersAgree` | internal/agenthub/launch.go:309-335 | Any two successful answers to one request identity carry the stored launch's run, kind, prompt, start time and principal, field by field; they can differ only in the place they name. |
| `Launching.AnswersStand` | internal/agenthub/launch.go:134-153 | An answer, and the launch it describes, stay whatever happens afterwards. |
| `Launching.RecordedWasSubmitted` | internal/agenthub/launch.go:284-299 | No launch is recorded before its work was submitted, under the identity its request maps to. |
| `Launching.NothingUnasked` | internal/agenthub/launch.go:275-299 | Every execution and every launch carries the kind, prompt and principal some call under its identity asked for, in the form the hub accepts; so where all calls under an identity ask for the same, what is answered is what runs. |
| `Launching.BegunAsAsked` | internal/agenthub/launch.go:275-283 | What a submission begins is what its call asked for, in the directory it resolved to. |
| `Launching.RecordedAsAsked` | internal/agenthub/launch.go:284-299 | The first record of a request tells what its call asked for, where, and when it was recorded; a later one changes nothing. |
| `Launching.OneWorkflowPerKind` | internal/agenthub/launch.go:268-283 | Two submissions for one request name one workflow if and only if they are of one kind. |
| `Launching.OneWorkflowPerRequest` | internal/agenthub/launch.go:25-27 | A request identity always sent with one kind only ever submits one workflow identity. |
| `Launching.RunsAreCounted` | internal/agenthub/hubtemporal/launcher.go:61-81 | Executions under one identity never overlap, and until one has closed there is at most one. |
| `Launching.SecondExecution` | internal/agenthub/launch.go:25-27 | For every run of events and any digest, a request begins two executions if and only if some submission of it takes effect when one has begun already and nothing runs under the submitted kind's identity. |
| `Launching.BeginsAfterClosing` | internal/agenthub/hubtemporal/launcher.go:61-64 | A submission that begins an execution finds every earlier one of its request closed, or of the other kind. |
| `Launching.OneLaunchPerRun` | internal/agenthub/launch.go:451-457 | An execution has one launch, so it is attributed to one principal. |
| `Launching.RepeatStartsNothing` | internal/agenthub/launch.go:240-248 | A call made once the launch is recorded is never let past the store, whatever else happens. |
| `Launching.RaceOutcome` | internal/agenthub/launch.go:249-306 | The exact outcome of two racing calls under one identity: a second execution begins if the kinds differ or if the first closed meanwhile, and the second answer names the place it asked for. |
| `Launching.CrashAndRetryRunsTwice` | internal/agenthub/launch.go:286-305 | A crash between submitting and recording, the execution closing, and a retry: one request, one kind, two executions. |
| `Launching.AnsweredPlace` | internal/agenthub/launch.go:305-305 | The answer of a call that submitted names the place the work runs in if and only if it resolved to the recorded directory, and equals a repeat's if and only if that place is also a root. |
| `Launching.LaunchStore.Keep` | internal/agenthub/hubpg/hubpg.go:235-254 | The first record of a request is kept and returned. |
| `Launching.LaunchStore.LaunchOf` | internal/agenthub/hubpg/hubpg.go:256-273 | Answers with the stored launch, none, or unavailable. |
| `Launching.Orchestrator.Start` | internal/agenthub/hubtemporal/launcher.go:54-81 | Begins an execution unless one is running under that identity; a lost reply may leave it begun. |
| `Launching.StartWork` | internal/agenthub/launch.go:249-306 | A call nothing interrupts takes exactly the steps of the protocol: the stores and the answer end up as its five events leave them; it answers exactly if the request is valid and either known, or submitted and recorded in a working tree. |
| `Extraction.ExtractJsonObject` | internal/fleet/domain.go:494-528 | Returns the text from the first brace to the first closing outside strings, or nothing exactly when there is no such text. |
| `Extraction.ExtractsUnique` | internal/fleet/domain.go:490-493 | That description has one answer. |
| `Extraction.BodyIsSteady` | internal/fleet/domain.go:504-513 | A string body escaped per RFC 8259 section 7 leaves the scan inside the string at the same depth, whatever braces, quotes and backslashes it holds. |
| `Extraction.JsonIsSteady` | internal/fleet/domain.go:502-525 | Any JSON value leaves the scan where it was and closes no brace open around it. |
| `Extraction.ObjectIsExtracted` | internal/fleet/domain.go:467-488 | For any JSON object, any prefix without an opening brace and any suffix, the object's text is what is extracted. |
| `Extraction.OnlyObjectIsExtracted` | internal/fleet/domain.go:490-528 | And nothing else can be. |

## Left out

- The workflow engine itself (replay versions, timeouts, heartbeats, cancellation delivery) and every adapter: Postgres, HTTP, identity, notifications, the web interface, git and gh subprocesses.
- Summary wording beyond the parts that are parsed back: pull request links, per-node lines, commit counts.
- The remote pipeline of a develop run as a whole: opening the pull request, and the pilot as its last stage.
- Branch creation by retry (adopting a branch an earlier attempt may have made): the code does not decide whose branch it was.
- Collection paging, cursors and the live/recorded merge of executions; the newest-wins merge depends on its input order.
- One start per place at a time: the busy check and the submission are separate steps, so what a place reference resolves to, busy or not, is an input of `Launching.Resolve`.
- Validation of location text (absolute, cleaned, bounded): every value is taken as already built. The registry's theorems do not need it.
- Prompt rendering, instruction and setting resolution beyond being resolved once and carried.
- Progress fractions, schedule statuses, labels and the dismissal parser: they compute from one value and span nothing.
- Development.DevelopWorkflow: the awaited form only; the detached review and the remote pipeline start where this one waits. Which commits the review's passes add is given, not derived from their counts.
- Workflow.SummarizeFleet: the figures only, not the text.
- Plans.ValidatePlan: the wording of a refusal, and which of several cycles is shown.
- Tokens.GroupThousands: one function for the three copies of it.
- Locations.NewLocationRegistry: entries are the places themselves; the identity, depth and ancestry cached beside each one are recomputed.
- Dismissals.DismissFor: the syntax of an item id, and the time of a dismissal.
- Review.ReviewPass: guidance as the agent reads it; instruction resolution, records and notifications appear only through whether they succeed.
