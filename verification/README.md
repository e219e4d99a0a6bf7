# Lemniscate core, modelled in Dafny

Lemniscate runs coding agents: queue jobs take a task from a run to a pull
request, a review, a CI gate and a merge, and a small built-in git host
("gitlem") keeps repositories as one JSON document. This project models the
parts of it whose correctness spans many calls, and proves what they promise
over every input, every run or every interleaving.

`dafny verify dfyconfig.toml` checks everything. One module per component:

| module | what it models |
|---|---|
| `GitlemDoc`, `GitlemMerge` | the repository document as a value, all document operations, merge and diff as maps |
| `GitlemStore` | the same document on the heap, edited in place; the aliasing invariant |
| `GitlemPullRequests` | runs of the gitlem provider client: numbering, eviction, one open request a pair, checks |
| `Git`, `GitlemPaths`, `GitlemClone`, `GitlemIngest` | git refs as a map; where stored paths end up; materialising the document; ingesting it back; the round trip |
| `GithubChecks`, `PrShared` | GitHub's three CI signals folded into one reading |
| `MergeGate` | one gate job and its chain of successors |
| `GateRuns`, `GateMerges`, `GateBound`, `GateWorker` | runs of reviews, gate jobs, webhooks and failures over a deduplicating queue, in every interleaving; what merges rest on; how many jobs there are; the worker that performs the steps |
| `ProposalClaim` | the autorun tick's check-then-claim under a lock, in every interleaving |
| `LlmFailover`, `LlmRuns`, `Throttle`, `AgentRuntime` | one LLM call with failover and metering, runs of calls, the throttle; as values and as the mutated runtime object |
| `LlmClient` | the retrying request loop |
| `AnthropicMessages`, `LoopCompact`, `Framing`, `RepoSlug` | message translation, transcript compaction, stream framing, the two slug implementations |

Operations that the source performs by mutation are classes or loop methods
(`GitlemStore`, `AgentRuntime`, `GateWorker`, `Framing.Framer`, the loops of
`GitlemClone`, `GitlemIngest`, `GithubChecks`, `LlmClient`, `AnthropicMessages`,
`RepoSlug`), each proved equal to a function on values; the theorems are about
those functions. What git, the providers, the endpoints, the database and the
clock answer is an input of each step.

## What the proofs found

Each of these holds of the code as written. The lemmas named give the input and
the exact condition under which the code does what is expected.

- Materialising a document is faithful only under a sharper condition than
  "the default branch exists, no name is `doc-` plus another, no name nests in
  another": the branches `main`, `doc-x/y`, `x` meet that and are still refused
  (`NestedScaffoldIsRefused`). `MaterializeExact` and, with the path rules
  spelled out, `MaterializeExactOnDisk` give the exact condition.
- The guard of backend/src/lib/gitlem-clone.ts:76 is meant for paths that leave
  the work dir, but drops files inside it whose first segment merely starts with
  two dots (`DotDotNamesAreSkipped`).
- The comment at backend/src/lib/proposal-scheduler.ts:235-239 says that
  `attempt` and `ciFixes` bound the gate's loop. Rounds that find CI failing and
  main moved check neither: a chain of them has no bound
  (`StaleRoundsAreUnbounded`). All other rounds together are at most 37
  (`ChainBound`), and 37 + S is reached for every number S of such rounds
  (`ChainBoundIsTight`). A job that throws after its enqueue and is retried adds up
  to 37 more, as does every further first job (`SuccessorsBound`).
- Jobs of one task may overlap: the worker runs several at once, and webhooks and
  the merge route enqueue a first job at any time. Then a job that read green can
  merge a push of the other whose checks nobody read
  (`OverlapMergesUncheckedPush`, from a state that `OverlapIsReachable` reaches). What does hold in every run is
  `MergeOnlyAfterGreen`, and `HeadAsReadExact` says when the head is still as read.
- A task in `waiting_ci` always has a gate job to come exactly when every step
  meets its guard (`StepExact`, `WaitingExact`). Four steps can miss it: an
  enqueue that hits the id of a job mid-step (`ReviewDuringJobExact` says when the
  end of that job makes up for it), a status write without an enqueue as in
  backend/src/lib/address-review.ts:98, a job whose last attempt throws after it
  wrote `waiting_ci` and before its enqueue, and one whose last attempt throws
  before it has a reading (`GivingUpStrands`). For the last two the comment at
  backend/src/lib/merge-gate.ts:369-370 expects the task in `awaiting_review`.
- "At most one open pull request a pair" can be broken by the route at
  backend/src/routes/gitlem-repos.ts:174, which opens without looking
  (`PlainOpensBreakOnePerPair`); a run keeps it exactly when every such open finds
  none open for its pair or evicts it (`OnePerPairExact`).
- Once 50 newer runs exist, a branch whose last CI run failed reads green
  (`EvictedFailureReadsGreen`; `ChecksReadLatestRun` is the exact condition).
- The comment at backend/src/lib/llm-failover.ts:271-273 says each failed config
  is tried at most once per run, and agent-runtime.ts:52 that it is never retried.
  Two things break that. If the advisory write of the promoted id fails, the
  pending-switch step can undo every failover, and the failed config is dialled
  again without end (`UnpersistedBouncesForever`). And a call that ends on its own
  failure leaves the runtime on the failed config, so the next call of the run
  dials it again (`DeadEndpointIsRetried`); backend/src/lib/repo-digest.ts:134-141
  and preflight-check.ts:75-78 swallow such failures and go on.
  `FailedNeverRetriedExact` is the exact condition over a run of calls;
  `DialsAtMostOnce` and `BounceExact` are those within one call.
- Goal reminders pile up: every compaction that fires adds one more
  (`RemindersPileUp`).

## Model

| member | source | states |
|---|---|---|
| `GitlemDoc.RunKeepsWellFormed` | backend/src/lib/gitlem-store.ts:101-257 | over every sequence of document operations branch names stay distinct and paths stay distinct within each branch, given listings without repeats |
| `GitlemDoc.ReadFileIsTree` | backend/src/lib/gitlem-store.ts:137-143 | reading a file is looking its path up in the branch's path-to-content map; a missing branch or path reads as nothing |
| `GitlemDoc.UpsertKeepsLaterFiles` | backend/src/lib/gitlem-store.ts:221-230 | upserting a path the head lists leaves what the head lists later in place, so the merge loop may read the live list even when head and base are one branch |
| `GitlemDoc.AddBranchExact` | backend/src/lib/gitlem-store.ts:109-119 | a branch is added if and only if the name is valid and free; it stands last and reads as the named source did, or as empty without one; otherwise nothing changes |
| `GitlemDoc.ValidNameExact` | backend/src/lib/gitlem-store.ts:85-99 | the name rule position by position: length, first and last character, forbidden characters and forbidden neighbours |
| `GitlemDoc.SetPrStateExact` | backend/src/lib/gitlem-store.ts:204-214 | the given state goes into the first request with that number and nowhere else; an unknown number is reported and changes nothing |
| `GitlemDoc.CloseWrites` | backend/src/lib/gitlem-store.ts:205-213 | settling by number writes merged or closed as asked |
| `GitlemMerge.UpsertFileReads` | backend/src/lib/gitlem-store.ts:122-135 | an upsert updates exactly one path of one branch's map and no other branch |
| `GitlemMerge.MergeOverridesBase` | backend/src/lib/gitlem-store.ts:216-230 | after a merge the base map is base overridden by head, every other branch is unchanged and only that request's state changed; an unknown number changes nothing |
| `GitlemMerge.ChangesAreTheDifference` | backend/src/lib/gitlem-store.ts:270-291 | the change list names each path at which merging would change base exactly once, sorted by the locale's order, says "added" exactly for paths base lacks, counts the lines of the merged and the present content, and is empty if and only if merging keeps base |
| `GitlemMerge.NoChangesAfterMerge` | backend/src/lib/gitlem-store.ts:221-291 | right after a merge the request has no changes |
| `GitlemMerge.ApplyIsIsolated` | backend/src/lib/gitlem-store.ts:101-257 | no operation changes what any branch but its own target reads |
| `GitlemMerge.ApplyWritesTarget` | backend/src/lib/gitlem-store.ts:109-230 | what each writing operation puts into its target: the upserted path, the whole tree, the copied branch, base overridden by head |
| `GitlemMerge.LineCountExact` | backend/src/lib/gitlem-store.ts:266-268 | a non-empty text has one line more than newline positions, the empty text none |
| `GitlemStore.RepoDoc.AddBranch` | backend/src/lib/gitlem-store.ts:109-119 | the heap document refines the value operation, copies share no file object with their source, and the no-sharing invariant is kept |
| `GitlemStore.RepoDoc.UpsertFile` | backend/src/lib/gitlem-store.ts:121-135 | the in-place write or push refines the value upsert, so through no alias does any other branch change |
| `GitlemStore.RepoDoc.ReplaceBranchTree` | backend/src/lib/gitlem-store.ts:145-160 | the branch holds fresh copies of the given files, whatever objects were passed in; requests, runs and counters are untouched |
| `GitlemStore.RepoDoc.ReadFile` | backend/src/lib/gitlem-store.ts:137-143 | the nested search on the heap gives the value-level reading |
| `GitlemStore.RepoDoc.OpenPullRequest` | backend/src/lib/gitlem-store.ts:162-180 | appends the numbered request, advances the counter and drops the oldest beyond 50 |
| `GitlemStore.RepoDoc.ClosePullRequest` | backend/src/lib/gitlem-store.ts:204-214 | sets the state of the request with that number only, or reports that there is none |
| `GitlemStore.RepoDoc.UpsertAllFrom` | backend/src/lib/gitlem-store.ts:224-227 | the loop over the live head list equals upserting a snapshot of that list |
| `GitlemStore.RepoDoc.MergePullRequest` | backend/src/lib/gitlem-store.ts:221-230 | the in-place merge refines the value merge |
| `GitlemStore.RepoDoc.StartCiRun` | backend/src/lib/gitlem-store.ts:232-257 | a new run in front, successful exactly when the branch has a file, at most 50 kept |
| `GitlemPullRequests.RunKeeps` | backend/src/lib/gitlem-store.ts:162-257 | over every run of provider and document steps, the stored requests are the 50 last issued (states aside), the stored runs the 50 last started, and issued numbers increase below the counter |
| `GitlemPullRequests.NumbersNeverReissued` | backend/src/lib/gitlem-store.ts:162-180 | from an empty document no number is issued twice, evictions included, and stored numbers increase strictly from at least 1 to below the counter |
| `GitlemPullRequests.PlainOpenExact` | backend/src/routes/gitlem-repos.ts:169-176 | a plain open keeps "one open request a pair" if and only if none is open for its pair or the open one is evicted by it |
| `GitlemPullRequests.OnePerPairExact` | backend/src/lib/pr-gitlem.ts:109-124 | over every run of provider and document steps, no head/base pair ever has two open requests if and only if every plain open meets that guard; the client's own opens always do |
| `GitlemPullRequests.PlainOpensBreakOnePerPair` | backend/src/routes/gitlem-repos.ts:169-176 | two opens through the route leave two open requests for one pair |
| `GitlemPullRequests.OpenTwiceSameNumber` | backend/src/lib/pr-gitlem.ts:109-124 | in every reachable document, opening a pair again changes nothing and gives the same number, at least 1, which is also the one the state lookup reports open |
| `GitlemPullRequests.LatestMatch` | backend/src/lib/gitlem-store.ts:191-202 | the reported closed request is the matching one with the greatest number, and none is reported only if none matches |
| `GitlemPullRequests.ReadingMeans` | backend/src/lib/pr-gitlem.ts:203-210 | green exactly without a stored run or when the newest stored one succeeded, failing exactly when it failed, pending while it is queued or running |
| `GitlemPullRequests.ChecksReadLatestRun` | backend/src/lib/pr-gitlem.ts:196-211 | the reading is the most recent run's if and only if fewer than 50 runs are newer or that run was green |
| `GitlemPullRequests.EvictedFailureReadsGreen` | backend/src/lib/gitlem-store.ts:252-256 | a document reachable from the empty one in which a branch whose only run failed reads green |
| `GitlemPaths.ResolveExact` | backend/src/lib/gitlem-clone.ts:70-76 | joining, normalising and guarding leave a path where it is if and only if its segments are non-empty and neither "." nor "..", the first does not start with two dots and there is no NUL |
| `GitlemPaths.ResolverIsIdempotent` | backend/src/lib/gitlem-clone.ts:70-79 | wherever a path is put, that place is a plain path and stays where it is |
| `GitlemPaths.DotDotNamesAreSkipped` | backend/src/lib/gitlem-clone.ts:75-76 | a path in normal form inside the work dir is skipped when its first segment starts with two dots |
| `GitlemPaths.ClimbingOutIsOutside` | backend/src/lib/gitlem-clone.ts:70-76 | a path that climbs out of the work dir is outside unless it comes straight back in by the work dir's own name |
| `GitlemPaths.DetoursCancel` | backend/src/lib/gitlem-clone.ts:70 | going down and up again, staying, and doubled slashes make no difference to the place |
| `GitlemPaths.DirectoriesAreRefused` | backend/src/lib/gitlem-clone.ts:77-78 | the work dir itself and any inside path with a slash at the end cannot be written |
| `GitlemPaths.MaterializeExactOnDisk` | backend/src/lib/gitlem-clone.ts:68-113 | with these path rules, exactly the documents with clean names and plain, unnested paths are materialised faithfully |
| `GitlemClone.MaterializeDoc` | backend/src/lib/gitlem-clone.ts:90-113 | the loop of commits, the install of the default (skipped for an empty target name) and the loop of renames compute the ref map of the specification, or fail where git would |
| `GitlemClone.WriteTreeExact` | backend/src/lib/gitlem-clone.ts:68-80 | a branch's files are written as they read if and only if every path is in resolved form and none is a directory of another |
| `GitlemClone.OutsideIsSkipped` | backend/src/lib/gitlem-clone.ts:76 | a file whose path leaves the work dir makes no difference to what is written, wherever it is listed |
| `GitlemClone.UnwritableFails` | backend/src/lib/gitlem-clone.ts:77-78 | one file that cannot be written fails the branch |
| `GitlemClone.CommitAllExact` | backend/src/lib/gitlem-clone.ts:82-94 | the commits go through if and only if the default has a name, no two names are equal or nested and all files can be written; then there is exactly one scaffold ref a branch, with its tree |
| `GitlemClone.InstallExact` | backend/src/lib/gitlem-clone.ts:98-105 | on clear names, copying and deleting the scaffold leaves the default under its name and every other branch on its scaffold |
| `GitlemClone.RenameAllExact` | backend/src/lib/gitlem-clone.ts:108-112 | after each number of renames the refs are known exactly, and the renames go on exactly while no name clashes with a scaffold still waiting |
| `GitlemClone.NoDefaultLosesFirst` | backend/src/lib/gitlem-clone.ts:98-112 | a document without its default branch loses the name of its first branch |
| `GitlemClone.ClashingDefaultIsLost` | backend/src/lib/gitlem-clone.ts:98-112 | a default name that clashes with another branch's scaffold is refused or lost |
| `GitlemClone.NamesExact` | backend/src/lib/gitlem-clone.ts:90-113 | all branch names end up among the refs if and only if the names are clean and the files writable; then there is no other ref and each holds what was written for it |
| `GitlemClone.MaterializeExact` | backend/src/lib/gitlem-clone.ts:68-113 | materialising ends with exactly the document's names and trees if and only if the document is empty and the default has a name, or its names are clean and its paths plain |
| `GitlemClone.NestedScaffoldIsRefused` | backend/src/lib/gitlem-clone.ts:108-112 | names that are apart from each other can still be refused |
| `GitlemIngest.CollectBranchTree` | backend/src/lib/gitlem-ingest.ts:86-112 | files are the first 500 entries without binary and oversized ones, and every listed entry is either kept or counted as skipped |
| `GitlemIngest.CollectKeepsTree` | backend/src/lib/gitlem-ingest.ts:22-28 | collecting gives the tree back if and only if it has at most 500 files, all text and none oversized |
| `GitlemIngest.IngestPushedRefs` | backend/src/lib/gitlem-ingest.ts:133-158 | collecting all trees first and storing them afterwards is storing each ref in turn; the skipped total is the entries listed minus the files stored, summed over the refs |
| `GitlemIngest.IngestKeepsSkeleton` | backend/src/lib/gitlem-ingest.ts:147-152 | ingesting known refs changes no branch name or position, request, run or counter |
| `GitlemIngest.IngestReads` | backend/src/lib/gitlem-ingest.ts:133-158 | exactly the listed refs' branches hold what was collected for them, all others read as before |
| `GitlemIngest.RoundTrip` | backend/src/lib/gitlem-ingest.ts:133-158 | materialise then ingest succeeds on every document with clean names and plain paths, keeps names, order, requests, runs and counters, and keeps a branch's map if and only if it is within the caps |
| `GitlemIngest.IngestOnlyAdds` | backend/src/lib/gitlem-ingest.ts:147-152 | for any refs, ingest removes and moves no branch, adds exactly the unknown refs, and leaves requests, runs and counters alone |
| `GitlemIngest.LostBranchesSurvive` | backend/src/lib/gitlem-clone.ts:98-112 | after any materialisation, faithful or not, a branch missing from the refs reads as before once they are ingested, and one among them holds what was collected; a document without its default keeps its first branch that way |
| `GithubChecks.LatestRunsPerWorkflow` | backend/src/lib/pr-github-checks.ts:80-89 | the one-pass filter with a seen set keeps exactly each workflow's newest run, in order |
| `GithubChecks.ReadingIsTheWorstSignal` | backend/src/lib/pr-github-checks.ts:91-150 | failing if and only if some check run or newest workflow run is completed without success, neutral or skipped, or the commit status is neither success nor pending; green if and only if besides nothing is uncompleted or pending; always supported, and a failed request for workflow runs counts as none |
| `GithubChecks.GreenMeansAllDone` | backend/src/lib/pr-github-checks.ts:49-111 | on a green reading every check run and every workflow's newest run is completed with success, neutral or skipped, and a commit status is success |
| `MergeGate.KindsAreBounded` | backend/src/lib/merge-gate.ts:119-304 | from any counters, each kind of successor is bounded by what the counters leave, failing-and-stale rounds excepted |
| `MergeGate.ChainBound` | backend/src/lib/merge-gate.ts:42-48 | a chain from attempt 0 has at most 30 waits and merge-path rebases, 6 fixes, 1 rebase retry, so at most 37 successors besides its failing-and-stale rebases |
| `MergeGate.ChainBoundIsTight` | backend/src/lib/merge-gate.ts:212-224 | for every S an environment with S failing-and-stale rounds that forces 37 + S successors |
| `MergeGate.StaleRoundsAreUnbounded` | backend/src/lib/merge-gate.ts:242-255 | failing-and-stale rounds go on as long as the environment likes |
| `MergeGate.JobIdInjective` | backend/src/lib/proposal-scheduler.ts:246-258 | a job id determines task, attempt and fix counter, dashes in task ids included |
| `MergeGate.ChainIdsDistinct` | backend/src/lib/proposal-scheduler.ts:235-259 | no two jobs of a chain share an id although a rebase retry resets the fix counter |
| `GateRuns.StepExact` | backend/src/lib/merge-gate.ts:242-304 | each step of a review, webhook, route, outside write or gate job, finished or thrown at any point, keeps "a waiting task has a gate job to come" if and only if its guard holds |
| `GateRuns.ReviewExact` | backend/src/lib/review-finish.ts:24-40 | the review tail keeps it if and only if the first job's id is not that of a job mid-step or another job of the task waits |
| `GateRuns.ActAndLeaveExact` | backend/src/lib/merge-gate.ts:119-304 | a gate job keeps it if and only if the waiting_ci it writes is covered by a job already waiting, its own retry, or a successor that is not dropped |
| `GateRuns.WaitingExact` | backend/src/lib/proposal-scheduler.ts:235-259 | over every run, at every point each waiting auto-merge task has a gate job that has not begun, if and only if every step meets its guard |
| `GateRuns.WaitingTaskHasGateJob` | backend/src/lib/review-finish.ts:24-40 | in every run from the start whose steps meet their guards, an auto-merge task in waiting_ci has a gate job to come, jobs mid-step or not |
| `GateRuns.ReviewDuringJobExact` | backend/src/lib/review-finish.ts:28-39 | when a review ends during the task's first gate job and no other job of it waits, the task is stranded if and only if that job's merge is refused or its successor is dropped |
| `GateRuns.GivingUpStrands` | backend/src/lib/merge-gate.ts:333-372 | a job whose last attempt throws before the reading leaves its task in waiting_ci with an empty queue |
| `GateRuns.BeginExact` | backend/src/lib/merge-gate.ts:312-346 | a job reads the checks and flips its task to awaiting_review if and only if the task is on an auto-merge repository and awaits review or waits for CI; otherwise status, log and queue stay as they are |
| `GateRuns.SkippedDoesNothing` | backend/src/lib/merge-gate.ts:322-328 | such a job leaves the queue and nothing else changes |
| `GateRuns.CheckoutExact` | backend/src/lib/merge-gate.ts:271-304 | a job acts without a checkout if and only if checks are pending, or failing with both budgets spent |
| `GateRuns.AsksExact` | backend/src/lib/merge-gate.ts:119-149 | the provider is asked to merge, first thing and once, if and only if the reading is green or unsupported and the base tip is in the head |
| `GateRuns.JobEndsOneWay` | backend/src/lib/merge-gate.ts:306-381 | whatever happened since it began, a job ends in exactly one of three ways, decided by its reading, checkout and counters: merged and done, stopped without a push, or continued by one job an attempt later with the counters stated; only the merge path leaves a status written in between |
| `GateMerges.RunKeeps` | backend/src/lib/merge-gate.ts:306-381 | the queue and log invariants over every run, with no condition on the steps |
| `GateMerges.MergeOnlyAfterGreen` | backend/src/lib/merge-gate.ts:119-164 | in every run, with jobs of one task overlapping freely, each provider merge follows a green or unsupported reading and then an up-to-date checkout by the same job, which in between neither read again nor pushed |
| `GateMerges.ManualTasksAreLeftAlone` | backend/src/lib/merge-gate.ts:322-328 | in every run gate jobs read, check out, push and merge only for tasks on auto-merge repositories, whoever enqueued them |
| `GateMerges.HeadAsReadExact` | backend/src/lib/merge-gate.ts:119-265 | over any stretch of a run the task's branch gets no push if and only if nobody pushes from outside and no job of the task gets to its push, which is spelled out by reading, counters and answer |
| `GateMerges.OverlapMergesUncheckedPush` | backend/src/routes/webhooks.ts:164-182 | from any state with two jobs of one eligible task waiting, a run in which one merges the other's unread push |
| `GateMerges.OverlapIsReachable` | backend/src/lib/review-finish.ts:24-40 | a review, a pending round and a webhook lead from the start to two waiting jobs of one eligible task |
| `GateBound.SuccessorsBound` | backend/src/lib/merge-gate.ts:119-304 | over every run, gate jobs enqueue at most 37 successors for each first job and for each job that threw after its enqueue and was retried, besides one for each failing-and-stale round |
| `GateBound.SuccessorCosts` | backend/src/lib/merge-gate.ts:212-224 | every successor has less left in its counters than its job, after a failing-and-stale round no more |
| `GateWorker.Worker.Dispatch` | backend/src/lib/merge-gate.ts:242-304 | the action branches write the status and enqueue the successor of the specification, as far as the job gets |
| `GateWorker.Worker.ActAndLeave` | backend/src/lib/merge-gate.ts:347-380 | pushes and merges, status, successor and leaving the queue, cut off where the job throws, are the acting step of the protocol |
| `GateWorker.Worker.TakeAll` | backend/src/worker.ts:177-190 | any sequence of calls is a run of the protocol: its merges are cleared, and waiting tasks have jobs to come while the guards are met |
| `ProposalClaim.OneActiveProposalPerRepo` | backend/src/lib/proposal-scheduler.ts:67-109 | under every interleaving of lock, count, select, update, commit, abort, cancel, start, finish and new tasks two proposals of a repository that are both queued or running are the same row, also when lock keys collide |
| `ProposalClaim.CountExact` | backend/src/lib/proposal-scheduler.ts:81-89 | the count lets the tick go on if and only if no proposal of the repository is queued or running |
| `ProposalClaim.PendingCommitsCountToo` | backend/src/lib/proposal-scheduler.ts:104-108 | the same holds when written but uncommitted claims are counted |
| `ProposalClaim.OnlyPendingIsQueued` | backend/src/lib/proposal-scheduler.ts:91-109 | in every reachable state only a pending row becomes queued, and a cancelled one stays |
| `ProposalClaim.CancelledStaysCancelled` | backend/src/lib/proposal-scheduler.ts:91-109 | a cancelled task is cancelled at the end of every run |
| `ProposalClaim.CancelBeatsClaim` | backend/src/lib/proposal-scheduler.ts:104-108 | a cancel between select and update ends the tick without a claim |
| `ProposalClaim.ClaimQueues` | backend/src/lib/proposal-scheduler.ts:94-109 | from a passed count on, the undisturbed tick queues a pending proposal of the repository, none of which is older, and changes nothing else |
| `ProposalClaim.WithoutLockTwoClaims` | backend/src/lib/proposal-scheduler.ts:75-76 | two ticks that have both counted claim two proposals, so the lock is needed |
| `LlmFailover.DialsAtMostOnce` | backend/src/lib/llm-failover.ts:249-287 | one call dials no config twice if and only if no attempt is switched by the task row onto a config the call has dialled |
| `LlmFailover.BounceExact` | backend/src/lib/llm-failover.ts:161-198 | after a failover the next attempt is back on the failed config if and only if there is a task, the promoted id was not persisted, the row names that config, it is enabled and the switch goes through |
| `LlmFailover.TakeoverExact` | backend/src/lib/llm-failover.ts:92-108 | a failed attempt is followed by another in the call if and only if there is a user, a key and a config that is enabled, untried, at a safe address, and not parked unless every untried one is; the first such config in the user's order takes over |
| `LlmFailover.SkippedAreMarked` | backend/src/lib/llm-failover.ts:256-260 | exactly the candidates before the first safe one are marked tried |
| `LlmFailover.AttemptsBound` | backend/src/lib/llm-failover.ts:98-108 | without a switch onto a tried config a call makes at most one attempt more than there are enabled untried configs and is over by then |
| `LlmFailover.PersistedNeverBounces` | backend/src/lib/llm-failover.ts:161-169 | a call without a task, or whose promoted ids all reach the row, is never switched that way |
| `LlmFailover.UnpersistedBouncesForever` | backend/src/lib/llm-failover.ts:161-198 | for any configs: while endpoints fail, ids are not persisted and another enabled config is untried, the config the row names is dialled in every round, without end |
| `LlmRuns.FailedNeverRetriedExact` | backend/src/lib/llm-failover.ts:271-287 | over every run of calls, with anybody writing the task row in between, no config that failed is dialled again if and only if no attempt is switched by the row onto a failed config and no other attempt follows a call that ended on its own failure |
| `LlmRuns.NextCallRedials` | backend/src/lib/llm-failover.ts:279-286 | after a call that ended on its own failure the next call dials the same config unless the row switches it |
| `LlmRuns.RowDecides` | backend/src/lib/llm-failover.ts:171-198 | a config picked for the task is dialled from the next attempt on exactly if it is enabled and the switch goes through |
| `LlmRuns.DeadEndpointIsRetried` | backend/src/lib/agent-runtime.ts:52-53 | the only config with a dead endpoint is dialled in both of two calls, although marked tried and without any switch |
| `LlmRuns.CallIsRoll` | backend/src/lib/agent-runtime.ts:216-219 | a call is a stretch of a run: same dials, same runtime afterwards |
| `LlmFailover.TokensAreConserved` | backend/src/lib/agent-runtime.ts:187-209 | over every call the total, the prompt and the completion counter each grow by exactly the bills of all answered attempts on any config, blank and over-budget replies included |
| `LlmFailover.BudgetEndsTheCall` | backend/src/lib/agent-runtime.ts:143-156 | a budget error ends the call on the config that ran over; a returned text is within the answering config's caps |
| `LlmFailover.SplitDrift` | backend/src/lib/agent-runtime.ts:98-124 | n attempts without reported usage leave the split above the total by 0 to n |
| `LlmFailover.BillExact` | backend/src/lib/agent-runtime.ts:98-124 | reported usage is billed as reported, otherwise a begun four characters make a token, for the total and for each side |
| `LlmFailover.AttemptExact` | backend/src/lib/agent-runtime.ts:187-209 | a budget error exactly for an answer over a cap, blank or not; failover exactly for a failing endpoint or a blank answer within the caps; a text otherwise |
| `LlmFailover.CapsExact` | backend/src/lib/agent-runtime.ts:143-156 | within the caps exactly when the total is at most the token cap and the sides at their prices per million at most the cost cap |
| `AgentRuntime.LlmRuntime.Throttle` | backend/src/lib/agent-runtime.ts:84-92 | a throttled call keeps the clock contract on which the rate bound rests |
| `AgentRuntime.LlmRuntime.ApplyPendingModelSwitch` | backend/src/lib/llm-failover.ts:180-198 | the guarded switch refines the value step |
| `AgentRuntime.LlmRuntime.AttemptLlmCall` | backend/src/lib/agent-runtime.ts:187-209 | switch, dial, meter, budget, cost and empty-reply test in order refine one attempt |
| `AgentRuntime.LlmRuntime.PromoteFailoverConfig` | backend/src/lib/llm-failover.ts:249-269 | the candidate loop refines "first safe candidate, unsafe ones marked tried" |
| `AgentRuntime.LlmRuntime.LlmCallWithFailover` | backend/src/lib/llm-failover.ts:274-287 | the endless loop, watched for any number of rounds, refines the run over the rounds it used; unless the row switches it onto a tried config it dials no config twice and ends within the bound |
| `AgentRuntime.LlmRuntime.LlmCall` | backend/src/lib/agent-runtime.ts:216-219 | one throttled call; a returned text is within budget and cost cap |
| `AgentRuntime.LlmRuntime.LlmCalls` | backend/src/lib/agent-runtime.ts:216-219 | calls one after the other on a fresh runtime: between switches no minute holds more recorded starts than the config allows, and failed configs are not dialled again if and only if the guards of the run are met |
| `Throttle.RunKeepsSpacing` | backend/src/lib/agent-runtime.ts:84-92 | recorded starts stay at least the interval apart over every run of calls and switches |
| `Throttle.AtMostRpmPerMinute` | backend/src/lib/agent-runtime.ts:72-92 | between switches no half-open minute holds more recorded starts than max(1, rpm) |
| `Throttle.DelayExact` | backend/src/lib/agent-runtime.ts:72-83 | the interval is the least that keeps to the rate, and a call starts at the interval's end or at once |
| `LlmClient.RunRequestLoop` | backend/src/lib/llm-client.ts:323-362 | stops at the first reply that is neither retried nor answered by dropping a field, after at most maxRetries + 3 fetches, with the exact request sent each time and exactly the backoff of each retried reply slept, at most maxRetries times and at most 10 s each |
| `LlmClient.AbsorbedBound` | backend/src/lib/llm-client.ts:340-355 | any run of absorbed replies is at most the retries plus the 400s, and there are at most as many of those as droppable fields |
| `LlmClient.AbsorbedExact` | backend/src/lib/llm-client.ts:286-355 | absorbed are exactly no response, 429 and 5xx while retries last, and 400 while a field can go |
| `LlmClient.FieldsDropOnce` | backend/src/lib/llm-client.ts:342-351 | a dropped field never comes back, and the temperature goes only after the effort |
| `LlmClient.TimeoutsNeverShrink` | backend/src/lib/llm-client.ts:59-64 | later attempts never get less time, none more than 600 s |
| `LlmClient.TimeoutDoubles` | backend/src/lib/llm-client.ts:59-64 | each attempt gets twice the time of the one before, up to 600 s |
| `LlmClient.BackoffGrows` | backend/src/lib/llm-client.ts:71-81 | a header is honoured up to 10 s; without one the wait is between the base doubled per attempt and twice that, so it never shrinks from attempt to attempt, and never exceeds 10 s |
| `AnthropicMessages.ToAnthropicRequest` | backend/src/lib/llm-anthropic-messages.ts:73-118 | the loop with pending tool results computes the translation of the non-system messages and keeps the system texts in order |
| `AnthropicMessages.TranslationKeepsBlocks` | backend/src/lib/llm-anthropic-messages.ts:35-118 | every non-empty block arrives exactly once, in order and under its role; no tool result is lost or repeated |
| `AnthropicMessages.OneMessagePerRun` | backend/src/lib/llm-anthropic-messages.ts:79-112 | the output has one message for each maximal run of tool messages and one for each other message |
| `AnthropicMessages.BlocksSpelled` | backend/src/lib/llm-anthropic-messages.ts:35-64 | a message's blocks one by one: text or parts, then each call with its own id, name and arguments |
| `AnthropicMessages.CoreInOrder` | backend/src/lib/llm-anthropic-messages.ts:87-111 | the non-system messages in order, built message by message (`OneMessageSplit` gives one) |
| `AnthropicMessages.SystemTextsInOrder` | backend/src/lib/llm-anthropic-messages.ts:88-91 | the system texts in order, built message by message |
| `AnthropicMessages.JoinedByBlankLines` | backend/src/lib/llm-anthropic-messages.ts:115 | the system texts are joined by a blank line |
| `LoopCompact.CompactKeepsSkeleton` | lemcore/src/loop-compact.ts:33-47 | compaction keeps roles, order, call ids and names, result ids, all system messages, and the last keepRecent messages verbatim |
| `LoopCompact.CompactedAreSmall` | lemcore/src/loop-compact.ts:67-95 | each older message has at most 501 characters plus, for a tool, 13 and its name |
| `LoopCompact.CompactOneExact` | lemcore/src/loop-compact.ts:67-95 | short texts stay whole, long ones keep their first 500 characters, tool results get their prefix, calls lose only their arguments |
| `LoopCompact.CompactExact` | lemcore/src/loop-compact.ts:33-57 | a compaction that fires leaves the system messages, the first one's goal, the older messages compacted and the recent ones as they are |
| `LoopCompact.RunKeepsSkeleton` | lemcore/src/loop-compact.ts:33-95 | for any interleaving of appends and compactions the skeleton is that of the never-compacted transcript |
| `LoopCompact.RemindersPileUp` | lemcore/src/loop-compact.ts:44-65 | once a goal is declared, system messages grow over a run by exactly those appended and one for each compaction that fires |
| `LoopCompact.CompactTwice` | lemcore/src/loop-compact.ts:67-95 | compacting a user or assistant message again changes nothing |
| `Framing.Framer.OnData` | lemcore/src/mcp-transports.ts:74-87 | one chunk delivers the frames of buffer plus chunk and keeps the unfinished tail |
| `Framing.Framer.Feed` | lemcore/src/mcp-transports.ts:138-151 | for every way of cutting a stream the frames and the tail are those of splitting the whole stream |
| `Framing.ChunkedIsWhole` | lemcore/src/mcp-transports.ts:140-151 | splitting a prefix and then its tail with the rest is splitting it all, also when a separator straddles the cut |
| `Framing.IndexOfIsFirst` | lemcore/src/mcp-transports.ts:77-79 | no separator starts before the index found, and none at all when there is no index |
| `Framing.FramesRejoin` | lemcore/src/mcp-transports.ts:74-87 | frames and tail joined by the separator are the stream, and the tail holds no separator |
| `Framing.FramesAreUnique` | lemcore/src/mcp-transports.ts:74-87 | frames and tail of that kind are determined by the stream |
| `RepoSlug.Slug` | agent-tauri/src-tauri/src/protocol.rs:131-153 | the loop with its dash flag computes the one-pass slug |
| `RepoSlug.SlugsAgree` | agent/lib.js:59-66 | the one-pass slug and the rewrite pipeline agree on every text |
| `RepoSlug.SlugHasShape` | agent-tauri/src-tauri/src/protocol.rs:121-146 | only a-z, 0-9 and single inner dashes, 1 to 48 characters |
| `RepoSlug.SlugKeepsText` | agent-tauri/src-tauri/src/protocol.rs:121-153 | no letter or digit is lost: the slug's are a prefix of the text's in lower case, all of them below 47 characters; without any the slug is "repo" |
| `RepoSlug.SlugIsFixedPoint` | agent-tauri/src-tauri/src/protocol.rs:121-146 | a slug is its own slug |

## Left out

- GitlemIngest.RoundTrip: states the full round trip where materialising is faithful; for other clones `LostBranchesSurvive` says what each branch then holds.
- LlmFailover.AttemptsBound: the configs are fixed and, during a call, nobody else writes the task's config id; failover order is the order of the list.
- MergeGate.ChainBound: bounds one chain, a path of successors; all the jobs of a run are bounded by `GateBound.SuccessorsBound`, where how often a job is retried is a term and not a limit.
- GateRuns.StepExact: loading the task, reading the checks and flipping a waiting task back is one step of a job, so is the end of a review with its enqueue, and so are push or merge, status write and enqueue of an acting job that does not throw; throttling, delays and priorities of the queue are left out.
- Throttle.AtMostRpmPerMinute: needs a positive clock that does not step back and sleeps that are not short; attempts made by failover inside one call are not throttled by the source and not counted.
- AnthropicMessages.TranslationKeepsBlocks: tool arguments and image addresses are carried as text; JSON parsing and data-URL splitting are not modelled.
- Git itself: objects, refname syntax, `.gitignore`, paths inside `.git`, and unreadable blobs; a ref map stands for the repository.
- Text widths: characters stand for both bytes (binary probe) and UTF-16 units (lengths); multi-byte characters split across chunks are not modelled.
- Stored timestamps, run logs, JSON parsing of the stored document, and the seeding of a new repository.
- The clone cache: its key is a 32-bit hash of the document without the default branch.
- The locale's path comparison and git's rules for ref names beyond the empty text; file names the disk refuses for length.
- Database isolation of the document's read-modify-write: each mutation is one step.
- Boot-time recovery and stuck-review passes, manual start, pause and resume routes, and task deletion; address-review appears only as its push and its status write.
- "Nothing merges unreviewed" (merge-gate.ts:339-343): the review job it relies on is not enqueued by the gate code.
- Agreement of the listed and the looked-up pull request state for a pair with several requests: the list is oldest first.
- Names of failing checks, prompts, notifications, metrics, deploys, secrets, and the pending-reply map of the transports.
- Trimming, JSON parsing and `data:` lines of frames after framing; Unicode lower-casing and URL parsing before slugging; the objective-line search of compaction, which is a parameter.
- When compaction fires (the token estimate of loop-compact.ts:23-31): the results hold for compaction at any point.
- Floating-point rounding of costs and backoff: reals are used.
