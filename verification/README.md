# Hermes cluster: a verified model

The Hermes cluster groups work into *lanes*, one long-lived session per repository and branch. Intake
bundles issues into lane tasks, the main node schedules tasks onto worker nodes, and each worker's
executor runs at most one delivery per lane. This project models the state machines that keep this
true and proves, for every input and every run, what they promise.

| file | component |
|---|---|
| `LaneProtocol.dfy` | the executor's lane discipline as a protocol over values, with its history |
| `Rearming.dfy` | runs of the protocol that show where its bounds end |
| `LaneTables.dfy` | the executor's tables, and how they implement the protocol |
| `Executor.dfy`, `Reap.dfy`, `Reports.dfy` | the executor class, the reap's decision table, the report retry queue |
| `Scheduler.dfy`, `NodeIds.dfy` | the fair planner, pinned placement, node identity |
| `LaneGuard.dfy`, `ClusterState.dfy` | the lane serialization filter and the schedule tick |
| `Packing.dfy`, `Sittings.dfy`, `Cardinality.dfy` | the bundle packer, a whole backlog, the cardinality guard over all board steps |
| `Workflow.dfy` | dependency resolution |
| `Drift.dfy`, `Echo.dfy`, `Query.dfy`, `JoinGate.dfy` | drift alarm, brief-echo detector, canonical query, duplicate-join gate |
| `Ids.dfy`, `Basics.dfy`, `Order.dfy` | identifiers, shared facts, orders and stable sorting |

How the executor is proved. `LaneProtocol` keeps every held delivery in one of three places (active,
waiting in its lane's FIFO, in hand) and appends each step to a history; its invariant ties the places
to the history. The class in `Executor.dfy` has the source's own tables. Its ghost field `abs` is the
protocol state; `Valid()` says the tables implement it, so the protocol's invariant holds after any
number of poll cycles whatever the board, processes, posts and clock do.

## Model

| member | source | states |
|---|---|---|
| `Executor.AgentExecutor.PollOnce` | hermes_cluster/core/agent_executor.py:534-562 | One cycle under any environment keeps `Valid()`. Each spawn it judged or cancelled has exactly one more outcome, and that one is what the facts call for: cancelled; completed after a clean exit with an accepted deliverable or a promoted transcript; re-queued on a veto, with retry exactly below the limit; parked on a ballot still readable; back on its lane after a busy refusal with retries left and fewer than 64 waiting; failed otherwise. Nobody else has an outcome, every other spawn stays. Each report due at its start is retried exactly once unless a newer one replaced it first, and no other is. Whatever it came to hold the board lists as running here. Each free slot is tried, or every board task of this node is held, was let go, or found its lane queue full, and every idle lane whose first delivery was free to go has been served it. Below the disk floor, or with no slot free, nothing is dispatched. |
| `Executor.AgentExecutor.PollMany` | hermes_cluster/core/agent_executor.py:523-562 | Any number of cycles keeps `Valid()`, and the history only grows. |
| `Executor.AgentExecutor.TablesAreSound` | hermes_cluster/core/agent_executor.py:534-674 | Between cycles no two spawns share a lane, each id is tracked once over active, queued and released, active spawns are within `max_concurrent`, no lane holds more than 64 waiting deliveries, starts equal outcomes plus active, a lane's queued-in sequence is its taken sequence followed by what its tables hold, and the requests and reports submitted are exactly those the history calls for, in order. |
| `Executor.AgentExecutor.EveryOutcomeIsReported` | hermes_cluster/core/agent_executor.py:3040-3154 | Over every run the n-th completion or failure was submitted as the n-th report, and that report got through, was replaced for the same verb and id, was given up at its hundredth failed post, or is in the retry queue with its payload. |
| `LaneProtocol.MainIsTold` | hermes_cluster/core/agent_executor.py:2020-2049 | In every history the completion and failure reports and the re-queue, block and release requests for a task are as many as the outcomes that call for them. |
| `Executor.AgentExecutor.NothingRunsTwice` | hermes_cluster/core/agent_executor.py:3047-3054 | As long as no board has offered an untracked task whose completion is still owed, nothing completed and unreported runs or waits here again. |
| `Executor.AgentExecutor.ClaimOffered` | hermes_cluster/core/agent_executor.py:612-674 | That promise is lost exactly at a claim from a board that lists, as running here, such a task. |
| `Executor.CompletedCanRunAgain` | hermes_cluster/core/agent_executor.py:644-652 | A task whose completion post failed is in no table and a candidate again if the board still lists it as running here. |
| `Executor.AgentExecutor.ReapAndRelease` | hermes_cluster/core/agent_executor.py:536-553 | The first half of a cycle: reap, retry each due report once, release due heads. The first delivery of every idle lane that is released or whose backoff has passed is then its first released one; with one idle slot a lane without refusals that released nothing has nothing queued. |
| `Executor.AgentExecutor.OneSlotServesInOrder` | hermes_cluster/core/agent_executor.py:589-610 | With one slot nothing taken off a lane queue is put back behind it. With a steady clock, a lane on which nothing was refused has served its deliveries exactly in arrival order, followed by what waits, whatever happened on other lanes and however many sweeps passed; its starts are what it served less what was let go. |
| `Executor.AgentExecutor.QueueForLane` | hermes_cluster/core/agent_executor.py:2743-2778 | Appends to the lane FIFO with its carried attempt count and backoff iff fewer than 64 wait; otherwise changes nothing. |
| `Executor.AgentExecutor.SpawnWorker` | hermes_cluster/core/agent_executor.py:1385-1397 | Release if the lane lives elsewhere, queue behind a busy lane, report a failed launch, or register the spawn with its carried refusals: exactly one of these, as the protocol step for it. A delivery taken off a queue always fits back. |
| `Executor.AgentExecutor.WaitBehind` | hermes_cluster/core/agent_executor.py:1391-1397 | Behind a busy lane there is always room in the queue for a delivery in hand, and it keeps its attempt count. |
| `Executor.AgentExecutor.StartWorker` | hermes_cluster/core/agent_executor.py:1485-1512 | Registering a spawn on an idle lane is the protocol's start. |
| `Executor.AgentExecutor.LetGo` | hermes_cluster/core/agent_executor.py:872-891 | A delivery let go releases its lane task or submits its one failure report, and nothing else is posted. |
| `Executor.AgentExecutor.RequeueBusyRefusal` | hermes_cluster/core/agent_executor.py:2845-2874 | Back on the lane iff fewer than five refusals are spent and the FIFO has room. |
| `Executor.AgentExecutor.ResolveOne` | hermes_cluster/core/agent_executor.py:1971-2049 | A judged spawn leaves the active table and nothing else does: lane re-queue, or one exit with its one report. |
| `Executor.AgentExecutor.ReportOutcome` | hermes_cluster/core/agent_executor.py:2020-2049 | The exit's one request is posted, or its one terminal report is submitted with its body. |
| `Executor.AgentExecutor.SweepCancelledSpawns` | hermes_cluster/core/agent_executor.py:1801-1850 | Exactly the cancelled spawns go, each recorded as cancelled; no queue changes. |
| `Executor.AgentExecutor.ReapOne` | hermes_cluster/core/agent_executor.py:2140-2422 | One judged spawn ends as its facts call for; no other spawn ends and no queue behind another spawn changes. |
| `Executor.AgentExecutor.ReapFinishedSpawns` | hermes_cluster/core/agent_executor.py:1852-2049 | What stays active is exactly the spawns neither cancelled, exited nor overrun; each of the others is ended by the event its facts call for, judged against the lane queue as the reap found it; nothing is started, and lanes without a spawn keep their queue and backoffs. |
| `Executor.AgentExecutor.SweepLaneQueues` | hermes_cluster/core/agent_executor.py:2805-2843 | For every lane: the head moves to released iff the lane is idle and the head's backoff has passed; nothing else moves. |
| `Executor.AgentExecutor.DrainReleasedLanes` | hermes_cluster/core/agent_executor.py:2876-2884 | Empties the released table and keeps each lane's order. |
| `Executor.AgentExecutor.DispatchDrained` | hermes_cluster/core/agent_executor.py:589-597 | Tries drained heads in order, one slot each; what is left over is the untouched tail, and only when the budget is spent; each lane has been served exactly the rest. |
| `Executor.AgentExecutor.PutBack` | hermes_cluster/core/agent_executor.py:598-608 | The reversed re-insertion restores the leftovers, in order, ahead of the old queue. |
| `Executor.AgentExecutor.Candidates` | hermes_cluster/core/agent_executor.py:640-653 | Exactly the running rows assigned to this node that nothing tracks. |
| `Executor.AgentExecutor.ClaimFromBoard` | hermes_cluster/core/agent_executor.py:654-674 | Spends exactly one slot per dispatch tried; whatever comes to be held is a row running on this node's id, bare or prefixed; with slots left none of this node's tasks was passed over; none was passed over for a less urgent one, nor for one as urgent and listed later. |
| `Executor.AgentExecutor.ClaimAndSpawn` | hermes_cluster/core/agent_executor.py:576-674 | Nothing happens below the disk floor; otherwise drained heads then the board, within the slots; with slots left everything released has been served. |
| `LaneProtocol.StepKeepsInv` | hermes_cluster/core/agent_executor.py:2736-2884 | Every step keeps lane exclusion, single tracking, the queue bound, the FIFO law, conservation of outcomes, bounded retries and what the backoff table remembers. |
| `LaneProtocol.RunKeepsInv` | hermes_cluster/core/agent_executor.py:534-674 | The same over every run of steps. |
| `LaneProtocol.InvGuarantees` | hermes_cluster/core/agent_executor.py:1976-1994 | In every reachable state deliveries leave a lane FIFO in the order they joined, at most five busy refusals are retried before main is told of an outcome, and those refusals grant at most 62 seconds of backoff. |
| `Executor.AgentExecutor.BackoffIsBounded` | hermes_cluster/core/agent_executor.py:2743-2778 | Over every run the backoff armed for a delivery is at most 62 seconds with one slot, at most 32 more for each time it was put back with refusals behind it, and equals what the refusals granted iff it never was. |
| `LaneProtocol.BackoffArmed` | hermes_cluster/core/agent_executor.py:2762-2763 | The same for any history in which a count above zero is queued only after a refusal or a take. |
| `LaneTables.TwoHeadsRearm` | hermes_cluster/core/agent_executor.py:1391-1397 | Two drained heads of one idle lane: the first starts, the second is put back and its backoff armed again. |
| `Rearming.BackoffIsUnbounded` | hermes_cluster/core/agent_executor.py:1391-1397 | For every n a run arms n seconds for a delivery refused once. |
| `LaneTables.RefusalIsFailed` | hermes_cluster/core/agent_executor.py:2845-2874 | A busy refusal is failed iff five are spent or its lane queue is full. |
| `LaneTables.CrowdedRefusalFails` | hermes_cluster/core/agent_executor.py:367-374 | A run with 64 deliveries queued behind one: its first refusal fails it. |
| `LaneTables.PickStartsAtZero` | hermes_cluster/core/agent_executor.py:1971-1976 | A delivery picked off the board starts at zero iff a spawn of it has ended since it was last queued with refusals behind it. |
| `LaneTables.LetGoKeepsCount` | hermes_cluster/core/agent_executor.py:1394-1395 | A delivery let go after refusals is forgotten, but its count is not. |
| `LaneProtocol.AttemptsCarried` | hermes_cluster/core/agent_executor.py:1499-1499 | The attempt count of a held delivery survives queue, release and respawn and grows by one per refusal; a pick brings the count it is given. |
| `LaneProtocol.DelayBudgetOfAllRetries` | hermes_cluster/core/agent_executor.py:373-374 | Five doubling backoffs from two seconds total 62 seconds. |
| `LaneProtocol.DelayDoubles` | hermes_cluster/core/agent_executor.py:2762-2763 | The backoff is two seconds after the first refusal and doubles with each further one. |
| `LaneProtocol.OneOutcomeEach` | hermes_cluster/core/agent_executor.py:1971-2049 | Across a cycle a spawn that went has one more outcome, every other count is unchanged, and those that stayed are still active. |
| `LaneProtocol.ServiceFollowsArrivals` | hermes_cluster/core/agent_executor.py:2743-2769 | In any history in which nothing taken was put back and nothing overtook on a lane, the lane served its deliveries, started or let go, in arrival order. |
| `LaneProtocol.StartsAreServed` | hermes_cluster/core/agent_executor.py:589-597 | A lane's starts are what it served less what was let go. |
| `LaneTables.TablesTrackOnce` | hermes_cluster/core/agent_executor.py:624-642 | Tables that implement a reachable state hold each id once and each lane active once. |
| `LaneTables.SweepImplements` | hermes_cluster/core/agent_executor.py:2805-2843 | A sweep keeps released followed by queue, per lane: the protocol state does not change. |
| `LaneTables.ReadyIsReleased` | hermes_cluster/core/agent_executor.py:2805-2843 | After any reap and the sweep, a lane that was idle with a first delivery free to go has that delivery first among its released ones. |
| `LaneTables.PutBackImplements` | hermes_cluster/core/agent_executor.py:598-608 | Putting leftovers back in front restores the same lane FIFOs. |
| `LaneTables.ResolvingKeepsInv` | hermes_cluster/core/agent_executor.py:1971-1996 | Resolving removes exactly that spawn and keeps the invariant. |
| `LaneTables.ResolvingEndsRight` | hermes_cluster/core/agent_executor.py:1971-2049 | Judging and resolving a spawn records the one end that follows from exit code, files, veto, ballot, refusals and room, and touches no other spawn. |
| `LaneTables.DispatchKeepsOrderly` | hermes_cluster/core/agent_executor.py:589-597 | Dispatching keeps the serving order. |
| `LaneTables.TakeAndDispatch` | hermes_cluster/core/agent_executor.py:589-597 | Taking a drained head and dispatching it keeps invariant and order, spends one try, ends no spawn and serves the lane exactly that delivery. |
| `Reap.JudgementIsSound` | hermes_cluster/core/agent_executor.py:2140-2422 | Judged iff exited or overrun; busy-refused iff a lane's own spawn exits nonzero with the refusal; completed, re-queued, parked and failed each iff the observed facts say so. |
| `Reap.JudgedEndIsRight` | hermes_cluster/core/agent_executor.py:2140-2422 | The exit the decision table leads to is the one end the facts allow. |
| `Reports.Outbox.QueueReport` | hermes_cluster/core/agent_executor.py:3091-3116 | The queue holds exactly the reports the history of posts still owes. |
| `Reports.Outbox.DrainPendingReports` | hermes_cluster/core/agent_executor.py:3118-3154 | Every due report is posted exactly once, no other is touched, and none stays due. |
| `Reports.OwedUntilDeliveredReplacedOrAbandoned` | hermes_cluster/core/agent_executor.py:3087-3154 | An owed report stays owed, payload unchanged, until delivered, replaced for the same verb and id, or its hundredth post has failed, and not before. |
| `Reports.EveryReportHasAFate` | hermes_cluster/core/agent_executor.py:3091-3154 | Every submitted report, over any history of posts, was delivered, replaced, abandoned at its hundredth post, or is owed as submitted. |
| `Reports.SuccessSettlesExactly` | hermes_cluster/core/agent_executor.py:3091-3116 | After a report gets through at once nothing is owed for its verb and id iff nothing was owed before. |
| `Reports.StaleReportStays` | hermes_cluster/core/agent_executor.py:3091-3116 | Of two reports for one verb and id, the first lost and the second taken, the first stays queued. |
| `Reports.CycleRetries` | hermes_cluster/core/agent_executor.py:3118-3154 | In a cycle a report is retried at most once, only if it was due, and if due then exactly once unless replaced. |
| `Reports.RetryGap` | hermes_cluster/core/agent_executor.py:3087-3089 | Gaps are positive and never over 60 seconds. |
| `Reports.RetryGapDoubles` | hermes_cluster/core/agent_executor.py:3087-3089 | Half a second after the first failed post, then twice the last gap, up to 60 seconds. |
| `NodeIds.SameNodeIsEquivalence` | hermes_cluster/core/lane_affinity.py:48-86 | `same_node` is an equivalence on non-empty ids. |
| `NodeIds.StripTrims` | hermes_cluster/core/lane_affinity.py:48-86 | Canonical ids lose exactly the whitespace at both ends. |
| `NodeIds.ComparisonsDisagreeExactly` | hermes_cluster/core/agent_executor.py:893-900 | On unpadded ids it differs from the executor's comparison iff both carry the prefix and one is the other with a second prefix. |
| `NodeIds.ComparisonsAgreeOnSpellings` | hermes_cluster/core/lane_affinity.py:48-86 | On the two spellings of proper bare names both comparisons mean equality of the names. |
| `NodeIds.ComparisonsDisagreeWitness` | hermes_cluster/core/agent_executor.py:893-900 | A doubled prefix and a padded id are told apart differently. |
| `NodeIds.AssignedExactly` | hermes_cluster/core/agent_executor.py:566-575 | A task is this node's iff it is assigned to the node's id, bare or with the `node_` prefix. |
| `Scheduler.AffinityScheduler.Choose` | hermes_cluster/core/scheduler.py:218-243 | None iff no candidate; otherwise a candidate no other beats on load then least recent pick, first listed on ties. |
| `Scheduler.AffinityScheduler.MarkPicked` | hermes_cluster/core/scheduler.py:245-247 | Records the round and moves the cursor. |
| `Scheduler.AffinityScheduler.ChoosePinned` | hermes_cluster/core/lane_affinity.py:101-133 | A pinned lane gets the first node its pin names, capable and under capacity, or parks; only unpinned work is balanced. |
| `Scheduler.ParksExactly` | hermes_cluster/core/lane_affinity.py:101-133 | With canonically distinct ids a pinned task parks iff its node is absent, incapable or full. |
| `Scheduler.MarkKeepsRecord` | hermes_cluster/core/scheduler.py:214-247 | Recorded rounds stay distinct and below the cursor. |
| `Scheduler.TiedPicksRotate` | hermes_cluster/core/scheduler.py:214-247 | Among k tied candidates a node is not picked again within k picks. |
| `Scheduler.EveryCandidateServed` | hermes_cluster/core/scheduler.py:214-247 | Any k consecutive picks serve all k tied candidates. |
| `LaneGuard.LaneBlockedReadyIds` | hermes_cluster/core/scheduler.py:121-156 | Blocks exactly the ready lane tasks whose lane is active or that are not their lane's next; lane-less ones never. |
| `LaneGuard.NextIsMinimal` | hermes_cluster/core/scheduler.py:143-156 | An idle lane with ready tasks has one next task, minimal in (priority, created_at). |
| `LaneGuard.HeldBackExactly` | hermes_cluster/core/scheduler.py:121-156 | A ready lane task is held back iff a task of its lane is running or assigned, or another ready one is more urgent, as urgent and older, or of one age and listed before it. |
| `ClusterState.NextIsNewest` | hermes_cluster/state/__init__.py:890-908 | A lane's next task is first in the tick's newest-first order iff its waiting tasks of the top band all have one creation time. |
| `ClusterState.OlderSiblingFirst` | hermes_cluster/core/scheduler.py:143-156 | Of two ready siblings of one band the older goes and the newer is held back. |
| `ClusterState.TickKeepsLaneSerial` | hermes_cluster/core/scheduler.py:121-156 | No tick puts two active tasks on one lane. |
| `ClusterState.Store.PlaceOne` | hermes_cluster/state/__init__.py:910-929 | Considering one task keeps every row's account, every ceiling and the load counts; the task goes to the least loaded node with room, of those the least recently picked, of those the first listed (or its pin's), which is remembered, or nothing changes and it has nowhere to go. |
| `ClusterState.Store.SchedulePending` | hermes_cluster/state/__init__.py:846-950 | The tasks free to go are considered by priority, then newest first, then as listed, each placed on its best node. Only they move, each to a capable node that is not drained (its pin's if pinned); no ceiling is crossed; what stays ready without being held back has nowhere to go, and no node it could have taken went to a less urgent task or to an older one of its band. |
| `ClusterState.ConsideredInOrder` | hermes_cluster/state/__init__.py:890-908 | The tick considers exactly the tasks free to go, the more urgent first, then the newer, then as listed. |
| `ClusterState.PlacingIsFair` | hermes_cluster/state/__init__.py:890-929 | Placing the next task in serving order passes nobody over: whoever was considered before and is still ready could not have had that node. |
| `ClusterState.ChoiceIsBest` | hermes_cluster/core/scheduler.py:218-243 | The planner's choice on the tick's counts is the node with the fewest active rows on the board. |
| `Packing.PackRepoCandidates` | hermes_cluster/core/intake_grouping.py:358-405 | The nested loops compute the outright specification: allowed clusters of the top band, concatenated and cut at the cap. |
| `Packing.TakenFirst` | hermes_cluster/core/intake_grouping.py:372-402 | Every issue of the top band that is left behind comes after every one taken: inside an area newer, then dated, then smaller id first; between areas bigger, then named, then smaller name first. |
| `Packing.BatchInOrder` | hermes_cluster/core/intake_grouping.py:372-402 | The batch itself is listed in that order. |
| `Packing.BiggestAreaFirst` | hermes_cluster/core/intake_grouping.py:387-389 | If an issue is taken and one of another area in the most urgent band is not, the first area has at least as many issues in the band; on equal numbers it is named, and the other is unlabelled or has the greater name by characters. |
| `Packing.FillBatch` | hermes_cluster/core/intake_grouping.py:389-402 | Both caps together are one prefix of the concatenated clusters; the used names are the batch's areas. |
| `Packing.AppendCluster` | hermes_cluster/core/intake_grouping.py:396-400 | Appending one cluster is cutting at the cap. |
| `Packing.GroupByArea` | hermes_cluster/core/intake_grouping.py:384-386 | The insertion-ordered grouping. |
| `Packing.BandOrderFacts` | hermes_cluster/core/intake_grouping.py:369-389 | The clusters in serving order hold exactly the top band's members, under distinct names, none empty. |
| `Packing.PackingIgnoresOrder` | hermes_cluster/core/intake_grouping.py:249-268 | For distinct ids any permutation of the candidates gives the identical batch and reason. |
| `Packing.NewestFirst` | hermes_cluster/core/intake_grouping.py:372-386 | Of two issues of the most urgent band in one area, the one left behind is not newer, is undated if the other is, and has the greater id if they are of one date. |
| `Packing.AreaIsFirstLabel` | hermes_cluster/core/intake_grouping.py:242-246 | An issue's area is its first label beginning with `area::`, or none. |
| `Sittings.BatchFacts` | hermes_cluster/core/intake_grouping.py:358-405 | A batch is top-band issues only, none twice, within the cap, empty iff no cluster is allowed, and as large as possible when clusters fit. |
| `Sittings.BatchIsFilled` | hermes_cluster/core/intake_grouping.py:389-402 | A batch reaches over no more areas than the cap; if somebody of the top band is left behind by a batch that is not full, none of that area is taken and the cap is reached. |
| `Sittings.SittingsPartition` | hermes_cluster/core/intake_grouping.py:358-405 | Packing and removing until nothing is left serves each candidate exactly once. |
| `Sittings.EachSitting` | scripts/grouping_oracle_70fa.py:90-90 | Every sitting is non-empty, within the cap, and of candidates. |
| `Sittings.BandsInOrder` | hermes_cluster/core/intake_grouping.py:369-370 | Bands are served in non-decreasing order, one band per sitting. |
| `Sittings.SittingsNeeded` | scripts/grouping_oracle_70fa.py:96-98 | Never fewer sittings than the sum over bands of ceil(n_b / cap), and exactly that many when no band has more clusters than the cluster cap. |
| `Cardinality.GroupingView` | hermes_cluster/routers/intake.py:729-789 | The view lists exactly each lane's queued and dispatched bundles, exactly the issues held by an open, delivered or intentionally cancelled bundle, and exactly the issue numbers of open per-issue tasks. |
| `Cardinality.WaitingExactly` | hermes_cluster/routers/intake.py:1223-1239 | A candidate is up for bundling iff no open, delivered or intentionally cancelled bundle has it and no open per-issue task carries its number. |
| `Cardinality.BundlePlanForRepo` | hermes_cluster/core/intake_grouping.py:408-465 | The guard, the accumulation window and the packer, as one decision on the lane's entries; what that decision is follows in the next rows. |
| `Cardinality.BacklogIsHeldExactly` | hermes_cluster/core/intake_grouping.py:307-339 | A backlog batch is held iff the lane holds a bundle, or a window is set, fewer candidates than the cap wait, some have a date and all dated ones are younger than the window; otherwise the plan is exactly the packer's batch. |
| `Cardinality.PlanHasRoom` | hermes_cluster/core/intake_grouping.py:431-441 | A plan exists only where the lane is below its band's cap. |
| `Cardinality.UrgentNeverStranded` | hermes_cluster/core/intake_grouping.py:416-441 | A band-0 batch is planned iff no band-0 bundle is queued, whatever else the lane holds and whatever the window, and is exactly the packer's batch. |
| `Cardinality.WrittenCounts` | hermes_cluster/routers/intake.py:1206-1308 | A cycle raises each count by exactly the plans that match it. |
| `Cardinality.CycleWrites` | hermes_cluster/routers/intake.py:1281-1308 | A cycle leaves every row as it was and adds one ready, unassigned row for each repository with a plan, with its lane, band and issues. |
| `Cardinality.CycleKeepsInv` | hermes_cluster/routers/intake.py:1206-1308 | A cycle keeps every cap iff no lane gets two backlog plans, a lane's urgent plans fit its room, and no issue is in two plans. |
| `Cardinality.CapsMean` | hermes_cluster/core/intake_grouping.py:431-441 | Within the caps no lane has two open backlog bundles or three urgent ones, and no issue is in two bundles that keep it, row by row. |
| `Cardinality.ApartFits` | hermes_cluster/routers/intake.py:1206-1308 | Repositories on different lanes without common issues always fit. |
| `Cardinality.SameRepoSameLane` | hermes_cluster/core/intake_grouping.py:211-231 | Two project paths with one last segment have one lane key iff they map to one branch. |
| `Cardinality.EndSlashIgnored` | hermes_cluster/core/intake_grouping.py:211-216 | Slashes at the end of a project path do not change its lane, and the repository segment is never empty nor has one. |
| `Cardinality.SharedLaneOverfills` | hermes_cluster/core/intake_grouping.py:211-232 | Two projects of different groups with one last path segment and branch: one cycle gives their lane two backlog bundles. |
| `Cardinality.ReturnKeepsCaps` | hermes_cluster/routers/tasks.py:752-790 | A parked bundle's return keeps the caps iff its lane has room and nobody else keeps its issues. |
| `Cardinality.AnswerCanOverfill` | hermes_cluster/routers/intake.py:722-727 | Parked bundles are outside the view, so an answer can put a second backlog bundle on a lane. |
| `Cardinality.ClaimKeepsSerial` | hermes_cluster/routers/tasks.py:889-908 | Taking a task to running outside the tick keeps one dispatch per lane iff the lane is idle. |
| `Cardinality.ClaimsCanDouble` | hermes_cluster/routers/tasks.py:889-908 | Two ready bundles of one lane, claimed one after the other, both run. |
| `Cardinality.MoveKeepsInv` | hermes_cluster/state/__init__.py:353-384 | A status change the store admits keeps the whole invariant iff it starts no second dispatch on a lane and a parked bundle has room. |
| `Cardinality.StepKeepsInv` | hermes_cluster/state/__init__.py:353-384 | Cycles whose plans fit, ticks, every status change the store admits that fits, and creations keep the invariant. |
| `Cardinality.RunKeepsInv` | hermes_cluster/core/intake_grouping.py:431-441 | Over every run of such steps: at most one backlog and two band-0 bundles per lane, one active task per lane, each issue kept at most once. |
| `Cardinality.UrgentGoesNext` | hermes_cluster/core/scheduler.py:143-156 | When a lane is idle a waiting band-0 task is what goes next and every backlog task is held back. |
| `Workflow.Resolver.ResolveDependencies` | hermes_cluster/core/cluster_core.py:118-151 | The scan promotes iff all dependencies completed, blocks iff one failed. |
| `Workflow.Resolver.Propagate` | hermes_cluster/core/cluster_core.py:184-213 | Though it extends the list it walks and recurses, it ends, promotes exactly the pending dependents whose dependencies are all completed, and leaves the outright final board. |
| `Workflow.Resolver.Cascade` | hermes_cluster/core/cluster_core.py:208-213 | The growing list never grows; the cascade only blocks pending tasks with a failed dependency. |
| `Workflow.Resolver.SecondPass` | hermes_cluster/core/cluster_core.py:199-206 | The pass over blocked tasks changes and promotes nothing. |
| `Workflow.Resolver.OnDependencyFailed` | hermes_cluster/core/cluster_core.py:157-170 | Blocks exactly the pending direct dependents. |
| `Workflow.Resolver.CompleteTask` | hermes_cluster/core/cluster_core.py:517-551 | The whole board after a completion, a vetoed one below the cap, and one at the cap. |
| `Workflow.Resolver.FailTask` | hermes_cluster/core/cluster_core.py:552-559 | The whole board after a failure. |
| `Workflow.Resolver.SetTaskStatus` | hermes_cluster/state/__init__.py:353-384 | Terminal tasks keep their status except for an acknowledged cancel. |
| `Workflow.OpKeepsRow` | hermes_cluster/core/cluster_core.py:517-560 | No operation changes what is completed, failed or cancelled; attempts grow by one exactly at a veto below three that puts the task back to ready. |
| `Workflow.RunKeepsFinal` | hermes_cluster/state/__init__.py:353-384 | Over every run final states stay, a requested cancel is at most acknowledged, and attempts never shrink nor pass three. |
| `Workflow.VetoesSpendAttempts` | hermes_cluster/core/cluster_core.py:528-544 | A task vetoed again and again is tried once more for each attempt it has left and then failed. |
| `Workflow.CompletionPromotesExactly` | hermes_cluster/core/cluster_core.py:118-155 | Promoted iff pending, dependent and all dependencies completed; the only other effect is blocking where a dependency failed. |
| `Workflow.SettleIsIdempotent` | hermes_cluster/core/cluster_core.py:184-213 | Propagating again from the same task changes nothing. |
| `Workflow.OpForgetsNone` | hermes_cluster/core/cluster_core.py:517-560 | Each operation keeps pending tasks from being forgotten iff it leaves nobody behind. |
| `Workflow.ReturnForgetsNone` | hermes_cluster/state/__init__.py:416-426 | Putting a task back to pending forgets nobody iff its dependencies are not all completed. |
| `Workflow.BareCompletionForgetsNone` | hermes_cluster/state/__init__.py:353-384 | Setting a task completed without propagating forgets nobody iff no other only waits for it. |
| `Workflow.UnblockCanForget` | hermes_cluster/state/__init__.py:416-426 | A parked task with finished dependencies is left pending when unblocked. |
| `Workflow.TriggerForgetsNone` | hermes_cluster/state/__init__.py:801-835 | After a sweep nobody is forgotten, whatever the board was. |
| `Workflow.RunForgetsNone` | hermes_cluster/core/cluster_core.py:517-560 | Over every run of completions, failures, creations, sweeps, and status or dependency changes that leave nobody behind, no pending task has all its dependencies completed; after any run at all one sweep restores that. |
| `Workflow.FailureReachesDownstream` | hermes_cluster/core/cluster_core.py:157-170 | Everything pending downstream is blocked iff all of it depends on the failed task directly. |
| `Workflow.FailureStopsAtFirst` | hermes_cluster/core/cluster_core.py:157-170 | In a chain of three the last stays pending. |
| `Workflow.FailuresStaySeen` | hermes_cluster/core/cluster_core.py:528-544 | Failing keeps pending tasks free of failed dependencies; a veto does iff the task is terminal, below the retry cap, or nobody else waits for it. |
| `Workflow.VetoCanHideFailure` | hermes_cluster/core/cluster_core.py:528-544 | A veto at the cap leaves a waiting dependent pending on a failed task. |
| `Workflow.FailureBlocksRightly` | hermes_cluster/core/cluster_core.py:552-559 | Everything a failure newly blocks has a failed dependency iff the task was not terminal, had failed, or its waiting dependents already had one. |
| `Workflow.FailedCompletionBlocks` | hermes_cluster/core/cluster_core.py:552-559 | Failing a completed task changes no status of it and blocks its dependents. |
| `Drift.Watch.Evaluate` | hermes_cluster/core/release_drift.py:182-256 | The in-place bookkeeping is one step of a function on values. |
| `Drift.AgeBasis` | hermes_cluster/core/release_drift.py:209-216 | The age basis is the clock of the streak's first poll, whatever the heads do, iff that clock is not zero or the whole streak reads zero. |
| `Drift.CyclesAreStreak` | hermes_cluster/core/release_drift.py:209-221 | The cycle count is the number of drifted polls since the last clean one. |
| `Drift.ZeroClockMovesBasis` | hermes_cluster/core/release_drift.py:210-215 | A zero reading counts as unset and moves the basis. |
| `Drift.DueIsRaised` | hermes_cluster/core/release_drift.py:217-256 | A poll that calls for an alert has one for its head and reason, with only that head's drift since; one that does not raises none. |
| `Drift.NoSilentDrift` | hermes_cluster/core/release_drift.py:209-256 | Any unacknowledged drifted poll past min(grace, max_age) or above the threshold has an alert for its head. |
| `Drift.RaisedForReason` | hermes_cluster/core/release_drift.py:242-256 | Which alert: commits above the threshold at any age; else from the maximum age on the escalation; else from the grace period on the warning; else none. An alert raised has exactly that reason. |
| `Drift.AcknowledgedIsSilentUntilStalled` | hermes_cluster/core/release_drift.py:231-241 | An acknowledged head is silent exactly until three maximum ages. |
| `Drift.AtMostTwoAlerts` | hermes_cluster/core/release_drift.py:217-256 | A steady stretch of one head raises at most two alerts. |
| `Drift.EscalatesExactly` | hermes_cluster/core/release_drift.py:217-256 | A steady stretch on a fresh head with few commits raises exactly one warning iff it is polled in its grace window, and exactly one escalation iff it is polled past its maximum age. |
| `Drift.ExactlyOneAlert` | hermes_cluster/core/release_drift.py:217-256 | Above the threshold a stretch on a fresh head raises exactly one alert, on its first poll. |
| `Drift.OneAlertExactly` | hermes_cluster/core/release_drift.py:217-256 | Above the threshold any steady stretch raises one alert iff the key remembered at its start is not this head's, and none otherwise. |
| `Echo.IsEchoOfBrief` | hermes_cluster/core/deliverable_guard.py:92-116 | The 17 by 17 trim search equals the single test on the body less 16 characters at each end. |
| `Echo.FlatIgnores` | hermes_cluster/core/deliverable_guard.py:74-76 | Flattening drops whitespace, takes capitals for small letters and keeps every other character. |
| `Echo.SlicesAreCaught` | hermes_cluster/core/deliverable_guard.py:74-116 | Every slice of the brief with at most 16 flat characters of junk at each end is flagged. |
| `Echo.ForeignCharacterClears` | hermes_cluster/core/deliverable_guard.py:74-116 | One foreign character in the interior prevents a flag. |
| `Echo.ProseBeforeBrief` | hermes_cluster/core/deliverable_guard.py:92-103 | Foreign prose before a whole brief clears it iff it is longer than 16 flat characters. |
| `Query.PercentEncode` | hermes_cluster/core/metering.py:148-158 | The byte loop emits unreserved characters and %XX only (sections 2.1 and 2.3 of RFC 3986), and decodes back. |
| `Query.EncodedByCharacter` | hermes_cluster/core/metering.py:148-158 | The encoding goes character by character. |
| `Query.EncodedAscii` | hermes_cluster/core/metering.py:148-158 | Letters, digits and `-_.~` stay, every other ASCII character becomes % and two upper-case hex digits. |
| `Query.DecodeEncode` | hermes_cluster/core/metering.py:148-158 | Decoding undoes encoding for every text, through UTF-8. |
| `Query.Utf8RoundTrip` | hermes_cluster/core/metering.py:155-155 | UTF-8 decoding undoes encoding for every text. |
| `Query.Utf8Examples` | hermes_cluster/core/metering.py:155-155 | The bytes of a two-, a three- and a four-byte character. |
| `Query.CanonicalQuery` | hermes_cluster/core/metering.py:161-166 | The encoded items, sorted and joined; what that string is follows in the next rows. |
| `Query.CanonicalAscends` | hermes_cluster/core/metering.py:161-166 | The parameters of the string ascend by encoded key, and by encoded value where keys are one: each begins the next or is smaller at the first differing character. |
| `Order.StringLeExactly` | hermes_cluster/core/metering.py:164-166 | The string order is: a prefix, or smaller at the first difference. |
| `Query.CanonicalReadsBack` | hermes_cluster/core/metering.py:161-166 | The canonical string splits and decodes back to the query, a missing value being empty. |
| `Query.CanonicalExactly` | hermes_cluster/core/metering.py:161-166 | Two queries have one canonical string iff they mean the same map, in whatever order they are listed. |
| `JoinGate.NodeManager.Join` | hermes_cluster/core/node_manager.py:252-330 | Refused iff another non-empty token holds the id with a young beat; otherwise the row is exactly the refreshed or new one. |
| `JoinGate.JoinsRemember` | hermes_cluster/core/node_manager.py:283-302 | After any number of accepted joins a node has the last heartbeat and the token, capabilities and capacity of the last join that named one, a negative capacity counting as none. |
| `JoinGate.JoinsInventNothing` | hermes_cluster/core/node_manager.py:303-330 | What no join has named is empty. |
| `JoinGate.RejoinIsIdempotent` | hermes_cluster/core/node_manager.py:283-302 | Joining again with the same declaration changes nothing. |
| `JoinGate.NodeManager.SendHeartbeat` | hermes_cluster/core/node_manager.py:375-420 | Refreshes a known node whoever sends it; reports an unknown one. |
| `JoinGate.WorkerConnector.Cycle` | hermes_cluster/core/worker_connector.py:352-456 | Join if unregistered, beat if registered, drop the registration only on an unknown-node answer; lost messages change nothing at the receiver. |
| `JoinGate.HolderKeepsNode` | hermes_cluster/core/node_manager.py:258-282 | If the holder's accepted beats are less than `offline_after` apart and time does not run backwards, then at every point of the run no other token holds the id and only its holders, or tokenless workers, are registered, however many others try. |
| `JoinGate.BeatIsYoung` | hermes_cluster/core/node_manager.py:268-275 | Between two of the holder's regular beats every attempt finds one younger than `offline_after`. |
| `JoinGate.RefusedLeavesNoTrace` | hermes_cluster/core/worker_connector.py:374-421 | A refused join refreshes nothing and registers nobody. |
| `JoinGate.TakeoverStep` | hermes_cluster/core/node_manager.py:258-302 | A challenge before the deadline changes nothing; one at or after it takes the id. |
| `JoinGate.SuccessorTakesOver` | hermes_cluster/core/worker_connector.py:352-456 | A retrying successor holds the id within `offline_after` plus one interval of the last beat, through any lost messages, starts and stops; until then the holder's row is untouched. |
| `JoinGate.TakeoverIsExclusive` | hermes_cluster/core/node_manager.py:283-302 | A join the main accepts, answered or not, leaves one registered token iff no other instance still thinks itself registered. |
| `JoinGate.StalledHolderStillBeats` | hermes_cluster/routers/nodes.py:78-115 | A holder that stalls through a takeover keeps beating for the successor's registration. |

## Where code and promise differ

The model follows the code. These are the places where it does not do what its comments, documentation
or a natural reading say; the members in brackets state them.

- Claiming a task and reassigning an orphan set it running without looking at its lane, so two tasks
  of one lane can be active (`ClaimsCanDouble`; exact condition in `ClaimKeepsSerial`). The runs of
  `Cardinality` take such steps only on idle lanes.
- Intake's view does not count bundles parked on a ballot, so an answer can put two backlog bundles on
  one lane and hold an issue twice (`AnswerCanOverfill`; exact condition in `ReturnKeepsCaps`).
- A cycle plans every repository against one view; two project paths with the same last segment share
  a lane key and both get a bundle (`SharedLaneOverfills`; exact condition in `CycleKeepsInv`).
- Unblocking puts a task back to pending without looking at its dependencies, so it can wait for
  nothing until the next sweep (`UnblockCanForget`; exact condition in `ReturnForgetsNone`).
- Failing a task is documented to block all downstream tasks; it blocks the direct ones
  (`FailureStopsAtFirst`; exact condition in `FailureReachesDownstream`).
- A vetoed completion at the retry cap fails the task without telling its dependents
  (`VetoCanHideFailure`; exact condition in `FailuresStaySeen`).
- The resolver's pass over blocked tasks cannot change anything, and its cascade never promotes
  (`SecondPass`, `Cascade`).
- The echo guard says any original prose defeats it; prose of up to 16 flat characters does not
  (`ProseBeforeBrief`).
- Heartbeats carry no instance token, so two connectors can be registered after a takeover or a main
  restart (`StalledHolderStillBeats`; exact condition in `TakeoverIsExclusive`); tokenless joins are
  always accepted (`Join`).
- The lane filter lets the oldest ready task of a lane through, while the tick's own order is newest
  first (`OlderSiblingFirst`; exact condition in `NextIsNewest`).
- A delivery is said never to be failed for a busy lane before its retries are spent; one that finds
  its lane queue full is (`CrowdedRefusalFails`; exact condition in `RefusalIsFailed`).
- Each put-back of a delivery that has refusals behind it arms its backoff again, so with two or more
  slots 62 seconds is no bound (`TwoHeadsRearm`, `BackoffIsUnbounded`; exact condition in
  `BackoffIsBounded`).
- Fresh deliveries are said to start at attempt zero; one that was let go after refusals does not
  (`LetGoKeepsCount`; exact condition in `PickStartsAtZero`).
- The retry queue is meant to keep finished work from being paid for twice; while a completion is owed
  a board that still lists the task runs it again (`CompletedCanRunAgain`; exact condition in
  `NothingRunsTwice` and `ClaimOffered`).
- Failing a task that is already completed or cancelled leaves it so and blocks its dependents
  (`FailedCompletionBlocks`; exact condition in `FailureBlocksRightly`).
- A cluster cap of zero or less passes validation and packs nothing (`BatchFacts`).
- A drift clock that reads zero counts as unset (`ZeroClockMovesBasis`; exact condition in `AgeBasis`).
- The last report for a verb and id is meant to win; one that succeeds on its first post leaves an
  older owed one queued (`StaleReportStays`; exact condition in `SuccessSettlesExactly`).

## Left out

- Executor modes other than native hermes, and spawn records re-attached from another process: runs
  are taken to start from empty tables.
- Subprocess launch, briefs, files, transcripts, stderr and signed HTTP: only the resulting facts, exits
  and deliveries enter, as inputs of each cycle. Lease renewal, idle-lane reaping, cancel
  acknowledgements and persistence writes are not modelled.
- Executor.AgentExecutor.PollOnce: takes one clock reading per cycle, and the board lists each id once.
- Executor.AgentExecutor.OneSlotServesInOrder: is stated for one slot and lanes without refusals; with
  more slots heads of one lane can be re-queued behind it, and a refused delivery goes to the tail.
- Cardinality.RunKeepsInv: view and write of a cycle are one step; a manual poll racing the background
  one is not modelled, nor are later edits of a task's lane, priority or issues.
- Workflow.Resolver.CompleteTask: the veto of a review row is an input, and the schedule call at its end is
  the tick of `ClusterState`.
- Workflow.RunForgetsNone: the landing hold, which can keep a satisfied task pending, is not modelled.
- JoinGate.NodeManager.Join: models token, heartbeat, capabilities and capacity; health readings and
  degraded status are left out. A main restart appears as a missing row.
- Echo.IsEchoOfBrief: lowers ASCII letters only.
- Query.CanonicalQuery: keys and values are texts or missing values; other types would first be turned
  into text, which can make two keys collide.
- Time stamps are integers or reals; the reason and message texts of packing and alerts are values, not
  formatted strings.
- `compute_drift`, label, open-merge-request and blocker filters of candidates, leases and recovery, peer authentication, landing,
  review and ballot gates, cost metering, dashboards and command lines: easy members, cryptography or I/O.
