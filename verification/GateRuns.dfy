/**
  Runs of review tails and merge-gate jobs over a queue that drops an enqueue
  whose job id is already there. A job takes several steps, and jobs of the same
  task or of different tasks interleave freely with reviews, webhook and route
  enqueues, outside pushes, status changes and jobs that throw. `auto` is the
  set of tasks with a branch on an auto-merge repository.
 */
module GateRuns {
  import opened Common
  import opened PrShared
  import opened MergeGate

  datatype Status = AwaitingReview | WaitingCi | Done | Other(name: string)

  datatype Event =
    | ReadChecks(task: string, id: string, checks: ChecksStatus)
    | CheckedOut(task: string, id: string, stale: bool)
    | Pushed(task: string, pusher: Option<string>)
    | ProviderMerge(task: string, id: string, answer: MergeAnswer)

  /** How far a job mid-step has got; `Skipped` when its task was not eligible. */
  datatype Phase = Skipped | HasRead(checks: ChecksStatus) | HasCheckout(checks: ChecksStatus, stale: bool)

  /** `active` holds the jobs mid-step; they stay in the queue until they leave it. */
  datatype World = World(status: map<string, Status>, queue: map<string, Job>,
                         active: map<string, Phase>, log: seq<Event>)

  /** BullMQ's `add`: an id that is waiting or active is not added again. */
  function Enqueue(queue: map<string, Job>, j: Job): map<string, Job> {
    if JobId(j) in queue then queue else queue[JobId(j) := j]
  }

  function FinishReview(w: World, auto: set<string>, task: string): World {
    w.(status := w.status[task := WaitingCi],
       queue := if task in auto then Enqueue(w.queue, FirstJob(task)) else w.queue)
  }

  predicate Eligible(w: World, auto: set<string>, task: string) {
    task in w.status && (w.status[task] == AwaitingReview || w.status[task] == WaitingCi) && task in auto
  }

  /** Load the task, read the checks, flip a waiting task back to awaiting review. */
  function Begin(w: World, auto: set<string>, id: string, checks: ChecksStatus): World
    requires id in w.queue
  {
    var task := w.queue[id].task;
    if Eligible(w, auto, task) then
      w.(status := if w.status[task] == WaitingCi then w.status[task := AwaitingReview] else w.status,
         active := w.active[id := HasRead(checks)],
         log := w.log + [ReadChecks(task, id, checks)])
    else w.(active := w.active[id := Skipped])
  }

  predicate NeedsCheckout(j: Job, checks: ChecksStatus) {
    var action := MergeGateAction(checks, j.attempt, j.ciFixes, j.rebaseRetries);
    action != Wait && action != Manual
  }

  /** Clone, fetch the head, and see whether the base tip is in it. */
  function Checkout(w: World, id: string, stale: bool): World
    requires id in w.queue && id in w.active && w.active[id].HasRead?
  {
    w.(active := w.active[id := HasCheckout(w.active[id].checks, stale)],
       log := w.log + [CheckedOut(w.queue[id].task, id, stale)])
  }

  /** The job has all it needs to act. */
  predicate Ready(j: Job, p: Phase) {
    p.HasCheckout? || (p.HasRead? && !NeedsCheckout(j, p.checks))
  }

  function RoundOf(p: Phase, answer: MergeAnswer): Round
    requires !p.Skipped?
  {
    Round(p.checks, p.HasCheckout? && p.stale, answer)
  }

  /** What an acting job does outside the queue and the status, in order. */
  function JobEvents(id: string, j: Job, r: Round, fixPushed: bool): seq<Event> {
    var push := [Pushed(j.task, Some(id))];
    match MergeGateAction(r.checks, j.attempt, j.ciFixes, j.rebaseRetries)
    case Wait => []
    case Manual => []
    case FixCi => if r.stale || fixPushed then push else []
    case RebaseRetry => push
    case Merge =>
      (if r.stale then [] else [ProviderMerge(j.task, id, r.answer)])
      + (if RunJob(j, r).Successor? then push else [])
  }

  function StatusAfter(status: map<string, Status>, task: string, o: Outcome): map<string, Status> {
    match o
    case Successor(_, waitsForCi) => if waitsForCi then status[task := WaitingCi] else status
    case Merged => status[task := Done]
    case ManualAction => status[task := AwaitingReview]
    case MergeStop => status
  }

  /** How far an acting job gets: events first, then the status, then the successor. */
  datatype Progress = Progress(events: nat, wrote: bool, enqueued: bool)

  function Act(w: World, id: string, answer: MergeAnswer, fixPushed: bool, at: Progress): World
    requires id in w.queue && id in w.active && Ready(w.queue[id], w.active[id])
  {
    var j, r := w.queue[id], RoundOf(w.active[id], answer);
    var o, events := RunJob(j, r), JobEvents(id, j, r, fixPushed);
    if at.events < |events| then w.(log := w.log + events[..at.events])
    else
      w.(status := if at.wrote then StatusAfter(w.status, j.task, o) else w.status,
         queue := if at.wrote && at.enqueued && o.Successor? then Enqueue(w.queue, o.job) else w.queue,
         log := w.log + events)
  }

  /** The job is over; one that threw with attempts left goes back to waiting. */
  function Leave(w: World, id: string, retry: bool): World {
    w.(queue := if retry then w.queue else w.queue - {id}, active := w.active - {id})
  }

  const COMPLETE := Progress(2, true, true)

  function End(w: World, id: string, answer: MergeAnswer, fixPushed: bool): World
    requires id in w.queue && id in w.active && (w.active[id].Skipped? || Ready(w.queue[id], w.active[id]))
  {
    if w.active[id].Skipped? then Leave(w, id, false)
    else Leave(Act(w, id, answer, fixPushed, COMPLETE), id, false)
  }

  /** A job that throws: during the checkout nothing has happened yet, later whatever `at` says. */
  function Throw(w: World, id: string, answer: MergeAnswer, fixPushed: bool, at: Progress, retry: bool): World
    requires id in w.queue && id in w.active
  {
    if Ready(w.queue[id], w.active[id]) then Leave(Act(w, id, answer, fixPushed, at), id, retry)
    else Leave(w, id, retry)
  }

  datatype Step =
    | ReviewDone(task: string)
    | Kick(task: string)
    | Push(task: string)
    | StatusChange(task: string, to: Status)
    | BeginJob(id: string, checks: ChecksStatus)
    | GiveUp(id: string)
    | CheckoutJob(id: string, stale: bool)
    | EndJob(id: string, answer: MergeAnswer, fixPushed: bool)
    | ThrowJob(id: string, answer: MergeAnswer, fixPushed: bool, at: Progress, retry: bool)

  predicate IsActive(w: World, id: string) {
    id in w.queue && id in w.active
  }

  predicate IsWaiting(w: World, id: string) {
    id in w.queue && id !in w.active
  }

  predicate CanEnd(w: World, id: string) {
    IsActive(w, id) && (w.active[id].Skipped? || Ready(w.queue[id], w.active[id]))
  }

  /**
    One step; nothing happens where a step cannot be taken. `Kick` is a webhook
    or route enqueue, `Push` a push by anyone but a gate job, `GiveUp` a job
    whose last attempt threw before it had a reading.
   */
  function Perform(w: World, auto: set<string>, step: Step): World {
    match step
    case ReviewDone(task) => FinishReview(w, auto, task)
    case Kick(task) => w.(queue := Enqueue(w.queue, FirstJob(task)))
    case Push(task) => w.(log := w.log + [Pushed(task, None)])
    case StatusChange(task, to) => w.(status := w.status[task := to])
    case BeginJob(id, checks) => if IsWaiting(w, id) then Begin(w, auto, id, checks) else w
    case GiveUp(id) => if IsWaiting(w, id) then w.(queue := w.queue - {id}) else w
    case CheckoutJob(id, stale) =>
      if IsActive(w, id) && w.active[id].HasRead? && NeedsCheckout(w.queue[id], w.active[id].checks)
      then Checkout(w, id, stale) else w
    case EndJob(id, answer, fixPushed) => if CanEnd(w, id) then End(w, id, answer, fixPushed) else w
    case ThrowJob(id, answer, fixPushed, at, retry) =>
      if IsActive(w, id) && !w.active[id].Skipped? then Throw(w, id, answer, fixPushed, at, retry) else w
  }

  function Run(w: World, auto: set<string>, steps: seq<Step>): World
    decreases |steps|
  {
    if steps == [] then w else Run(Perform(w, auto, steps[0]), auto, steps[1..])
  }

  // ---------------------------------------------------------------- the queue

  ghost predicate QueueOk(w: World) {
    && (forall id :: id in w.queue ==> JobId(w.queue[id]) == id)
    && (forall id :: id in w.active ==> id in w.queue)
  }

  lemma EnqueueGives(queue: map<string, Job>, j: Job)
    requires forall id :: id in queue ==> JobId(queue[id]) == id
    ensures var q := Enqueue(queue, j);
      && JobId(j) in q && q[JobId(j)].task == j.task
      && (forall id :: id in q ==> JobId(q[id]) == id)
      && (forall id :: id in q <==> id in queue || id == JobId(j))
      && (forall id :: id in queue ==> q[id] == queue[id])
  {
    if JobId(j) in queue {
      JobIdInjective(queue[JobId(j)], j);
    }
  }

  lemma JobEventsShape(id: string, j: Job, r: Round, fixPushed: bool)
    ensures var events, push := JobEvents(id, j, r, fixPushed), Pushed(j.task, Some(id));
      var merge := ProviderMerge(j.task, id, r.answer);
      events == [] || events == [push]
      || (Allows(r.checks) && !r.stale && (events == [merge] || events == [merge, push]))
  {
  }

  lemma EndsReady(w: World, auto: set<string>, id: string, answer: MergeAnswer, fixPushed: bool)
    requires IsActive(w, id) && Ready(w.queue[id], w.active[id])
    ensures Perform(w, auto, EndJob(id, answer, fixPushed)) == End(w, id, answer, fixPushed)
  {
  }

  lemma RunJobNext(j: Job, r: Round)
    ensures var o := RunJob(j, r); o.Successor? ==> o.job.task == j.task && o.job.attempt == j.attempt + 1
  {
  }

  /** Acting adds at most the successor to the queue. */
  lemma ActQueue(w: World, id: string, answer: MergeAnswer, fixPushed: bool, at: Progress)
    requires QueueOk(w) && IsActive(w, id) && Ready(w.queue[id], w.active[id])
    ensures var r := Act(w, id, answer, fixPushed, at);
      && QueueOk(r) && r.active == w.active
      && (forall i :: i in w.queue ==> i in r.queue && r.queue[i] == w.queue[i])
  {
    var o := RunJob(w.queue[id], RoundOf(w.active[id], answer));
    if o.Successor? { EnqueueGives(w.queue, o.job); }
  }

  predicate SameStatus(w: World, r: World, task: string) {
    (task in r.status <==> task in w.status) && (task in w.status ==> r.status[task] == w.status[task])
  }

  /** Acting touches no other task's status. */
  lemma ActStatuses(w: World, id: string, answer: MergeAnswer, fixPushed: bool, at: Progress)
    requires IsActive(w, id) && Ready(w.queue[id], w.active[id])
    ensures forall t :: t != w.queue[id].task ==> SameStatus(w, Act(w, id, answer, fixPushed, at), t)
  {
  }

  lemma LeaveKeepsQueue(w: World, id: string, retry: bool)
    requires QueueOk(w)
    ensures QueueOk(Leave(w, id, retry))
  {
  }

  lemma StepKeepsQueue(w: World, auto: set<string>, step: Step)
    requires QueueOk(w)
    ensures QueueOk(Perform(w, auto, step))
  {
    match step
    case ReviewDone(task) => EnqueueGives(w.queue, FirstJob(task));
    case Kick(task) => EnqueueGives(w.queue, FirstJob(task));
    case EndJob(id, answer, fixPushed) =>
      if CanEnd(w, id) { LeavingKeepsQueue(w, id, answer, fixPushed, COMPLETE, false); }
    case ThrowJob(id, answer, fixPushed, at, retry) =>
      if IsActive(w, id) { LeavingKeepsQueue(w, id, answer, fixPushed, at, retry); }
    case _ =>
  }

  lemma LeavingKeepsQueue(w: World, id: string, answer: MergeAnswer, fixPushed: bool, at: Progress, retry: bool)
    requires QueueOk(w) && IsActive(w, id)
    ensures QueueOk(Leave(w, id, retry))
    ensures Ready(w.queue[id], w.active[id]) ==> QueueOk(Leave(Act(w, id, answer, fixPushed, at), id, retry))
  {
    LeaveKeepsQueue(w, id, retry);
    if Ready(w.queue[id], w.active[id]) {
      ActQueue(w, id, answer, fixPushed, at);
      LeaveKeepsQueue(Act(w, id, answer, fixPushed, at), id, retry);
    }
  }

  // --------------------------------------------- a waiting task has a gate job

  ghost predicate HasWaitingJob(w: World, task: string) {
    exists id :: IsWaiting(w, id) && w.queue[id].task == task
  }

  predicate Waits(w: World, auto: set<string>, task: string) {
    task in auto && task in w.status && w.status[task] == WaitingCi
  }

  ghost predicate TaskOk(w: World, auto: set<string>, task: string) {
    Waits(w, auto, task) ==> HasWaitingJob(w, task)
  }

  /** Every auto-merge task that waits for CI has a gate job that has not begun. */
  ghost predicate StatusOk(w: World, auto: set<string>) {
    forall task :: TaskOk(w, auto, task)
  }

  /** The acting job gets as far as writing waiting_ci. */
  predicate WritesWaiting(w: World, id: string, answer: MergeAnswer, fixPushed: bool, at: Progress)
    requires IsActive(w, id) && Ready(w.queue[id], w.active[id])
  {
    var j, r := w.queue[id], RoundOf(w.active[id], answer);
    var o := RunJob(j, r);
    o.Successor? && o.waitsForCi && at.wrote && at.events >= |JobEvents(id, j, r, fixPushed)|
  }

  /** Some job waits for the task once the acting job is gone: one there already, itself, or its successor. */
  ghost predicate Covered(w: World, id: string, answer: MergeAnswer, at: Progress, retry: bool)
    requires IsActive(w, id) && Ready(w.queue[id], w.active[id])
  {
    var o := RunJob(w.queue[id], RoundOf(w.active[id], answer));
    HasWaitingJob(w, w.queue[id].task) || retry || (at.enqueued && o.Successor? && JobId(o.job) !in w.active)
  }

  /**
    The guard of each step: whoever writes waiting_ci finds or leaves a waiting
    job of the task. An enqueue counts unless its id is that of a job mid-step,
    and a job may give up on a waiting task only if another one is waiting.
   */
  ghost predicate Lands(w: World, auto: set<string>, step: Step) {
    match step
    case ReviewDone(task) => task in auto ==> JobId(FirstJob(task)) !in w.active || HasWaitingJob(w, task)
    case StatusChange(task, to) => to == WaitingCi && task in auto ==> HasWaitingJob(w, task)
    case GiveUp(id) =>
      IsWaiting(w, id) && Waits(w, auto, w.queue[id].task) ==>
        exists other :: other != id && IsWaiting(w, other) && w.queue[other].task == w.queue[id].task
    case EndJob(id, answer, fixPushed) =>
      (CanEnd(w, id) && !w.active[id].Skipped? && w.queue[id].task in auto
       && WritesWaiting(w, id, answer, fixPushed, COMPLETE)) ==> Covered(w, id, answer, COMPLETE, false)
    case ThrowJob(id, answer, fixPushed, at, retry) =>
      (IsActive(w, id) && Ready(w.queue[id], w.active[id]) && w.queue[id].task in auto
       && WritesWaiting(w, id, answer, fixPushed, at)) ==> Covered(w, id, answer, at, retry)
    case _ => true
  }

  /** For this task nothing got worse: same status, and a waiting job if there was one. */
  ghost predicate NoWorse(w: World, r: World, task: string) {
    SameStatus(w, r, task) && (HasWaitingJob(w, task) ==> HasWaitingJob(r, task))
  }

  lemma OnlyOneTask(w: World, r: World, auto: set<string>, task: string)
    requires StatusOk(w, auto)
    requires forall t :: t != task ==> NoWorse(w, r, t)
    ensures StatusOk(r, auto) <==> TaskOk(r, auto, task)
  {
    forall t | t != task
      ensures TaskOk(r, auto, t)
    {
      assert NoWorse(w, r, t) && TaskOk(w, auto, t);
    }
  }

  lemma StillWaiting(w: World, r: World, task: string)
    requires forall id :: IsWaiting(w, id) && w.queue[id].task == task ==>
      IsWaiting(r, id) && r.queue[id] == w.queue[id]
    ensures HasWaitingJob(w, task) ==> HasWaitingJob(r, task)
  {
    if HasWaitingJob(w, task) {
      var id :| IsWaiting(w, id) && w.queue[id].task == task;
      assert IsWaiting(r, id) && r.queue[id].task == task;
    }
  }

  lemma EnqueueWaits(w: World, r: World, j: Job)
    requires QueueOk(w) && r.queue == Enqueue(w.queue, j) && r.active == w.active
    ensures HasWaitingJob(r, j.task) <==> JobId(j) !in w.active || HasWaitingJob(w, j.task)
    ensures forall t :: HasWaitingJob(w, t) ==> HasWaitingJob(r, t)
  {
    EnqueueGives(w.queue, j);
    forall t
      ensures HasWaitingJob(w, t) ==> HasWaitingJob(r, t)
    {
      StillWaiting(w, r, t);
    }
    if JobId(j) !in w.active {
      assert IsWaiting(r, JobId(j));
    } else if HasWaitingJob(r, j.task) {
      var id :| IsWaiting(r, id) && r.queue[id].task == j.task;
      assert IsWaiting(w, id);
    }
  }

  lemma ReviewExact(w: World, auto: set<string>, task: string)
    requires QueueOk(w) && StatusOk(w, auto)
    ensures StatusOk(FinishReview(w, auto, task), auto) <==> Lands(w, auto, ReviewDone(task))
  {
    var r := FinishReview(w, auto, task);
    if task in auto {
      EnqueueWaits(w, r, FirstJob(task));
    } else {
      forall t
        ensures HasWaitingJob(w, t) ==> HasWaitingJob(r, t)
      {
        StillWaiting(w, r, t);
      }
    }
    OnlyOneTask(w, r, auto, task);
  }

  lemma BeginKeepsStatus(w: World, auto: set<string>, id: string, checks: ChecksStatus)
    requires StatusOk(w, auto) && IsWaiting(w, id)
    ensures StatusOk(Begin(w, auto, id, checks), auto)
  {
    var task, r := w.queue[id].task, Begin(w, auto, id, checks);
    forall t | t != task
      ensures NoWorse(w, r, t)
    {
      StillWaiting(w, r, t);
    }
    OnlyOneTask(w, r, auto, task);
  }

  lemma GiveUpExact(w: World, auto: set<string>, id: string)
    requires StatusOk(w, auto) && IsWaiting(w, id)
    ensures StatusOk(w.(queue := w.queue - {id}), auto) <==> Lands(w, auto, GiveUp(id))
  {
    var task, r := w.queue[id].task, w.(queue := w.queue - {id});
    forall t | t != task
      ensures NoWorse(w, r, t)
    {
      StillWaiting(w, r, t);
    }
    OnlyOneTask(w, r, auto, task);
    if other :| other != id && IsWaiting(w, other) && w.queue[other].task == task {
      assert IsWaiting(r, other);
    }
    if HasWaitingJob(r, task) {
      var other :| IsWaiting(r, other) && r.queue[other].task == task;
      assert IsWaiting(w, other);
    }
  }

  /** Leaving the queue takes away no waiting job, and gives one when the job is retried. */
  lemma LeaveWaits(w: World, id: string, retry: bool)
    requires IsActive(w, id)
    ensures var r := Leave(w, id, retry);
      && (forall t :: HasWaitingJob(w, t) ==> HasWaitingJob(r, t))
      && (HasWaitingJob(r, w.queue[id].task) <==> retry || HasWaitingJob(w, w.queue[id].task))
  {
    var r, task := Leave(w, id, retry), w.queue[id].task;
    forall t
      ensures HasWaitingJob(w, t) ==> HasWaitingJob(r, t)
    {
      StillWaiting(w, r, t);
    }
    if retry {
      assert IsWaiting(r, id);
    } else if HasWaitingJob(r, task) {
      var other :| IsWaiting(r, other) && r.queue[other].task == task;
      assert IsWaiting(w, other);
    }
  }

  /** What acting does to the waiting jobs of the own task, and of the others. */
  lemma ActWaits(w: World, id: string, answer: MergeAnswer, fixPushed: bool, at: Progress)
    requires QueueOk(w) && IsActive(w, id) && Ready(w.queue[id], w.active[id])
    ensures var r := Act(w, id, answer, fixPushed, at);
      && (forall t :: HasWaitingJob(w, t) ==> HasWaitingJob(r, t))
      && (WritesWaiting(w, id, answer, fixPushed, at) ==>
            (HasWaitingJob(r, w.queue[id].task) <==> Covered(w, id, answer, at, false)))
  {
    var j, r := w.queue[id], Act(w, id, answer, fixPushed, at);
    var o := RunJob(j, RoundOf(w.active[id], answer));
    if r.queue == w.queue {
      forall t
        ensures HasWaitingJob(w, t) <==> HasWaitingJob(r, t)
      {
        StillWaiting(w, r, t);
        StillWaiting(r, w, t);
      }
      if o.Successor? && at.enqueued && WritesWaiting(w, id, answer, fixPushed, at) && JobId(o.job) !in w.active {
        EnqueueGives(w.queue, o.job);
        RunJobNext(j, RoundOf(w.active[id], answer));
        assert IsWaiting(r, JobId(o.job));
      }
    } else {
      RunJobNext(j, RoundOf(w.active[id], answer));
      EnqueueWaits(w, r, o.job);
    }
  }

  lemma ActStatus(w: World, auto: set<string>, id: string, answer: MergeAnswer, fixPushed: bool, at: Progress)
    requires IsActive(w, id) && Ready(w.queue[id], w.active[id])
    ensures var task, r := w.queue[id].task, Act(w, id, answer, fixPushed, at);
      && (WritesWaiting(w, id, answer, fixPushed, at) && task in auto ==> Waits(r, auto, task))
      && (!WritesWaiting(w, id, answer, fixPushed, at) && Waits(r, auto, task) ==> Waits(w, auto, task))
  {
  }

  /** A job that acts and leaves keeps the property exactly when the waiting_ci it writes is covered. */
  lemma ActAndLeaveExact(w: World, auto: set<string>, id: string, answer: MergeAnswer, fixPushed: bool,
                         at: Progress, retry: bool)
    requires QueueOk(w) && StatusOk(w, auto) && IsActive(w, id) && Ready(w.queue[id], w.active[id])
    ensures StatusOk(Leave(Act(w, id, answer, fixPushed, at), id, retry), auto) <==>
            (w.queue[id].task in auto && WritesWaiting(w, id, answer, fixPushed, at) ==>
               Covered(w, id, answer, at, retry))
  {
    var task, mid := w.queue[id].task, Act(w, id, answer, fixPushed, at);
    var r := Leave(mid, id, retry);
    ActQueue(w, id, answer, fixPushed, at);
    ActStatuses(w, id, answer, fixPushed, at);
    ActWaits(w, id, answer, fixPushed, at);
    ActStatus(w, auto, id, answer, fixPushed, at);
    LeaveWaits(mid, id, retry);
    forall t | t != task
      ensures NoWorse(w, r, t)
    {
    }
    OnlyOneTask(w, r, auto, task);
    assert Waits(r, auto, task) <==> Waits(mid, auto, task);
    assert TaskOk(w, auto, task);
  }

  lemma LeaveKeepsStatus(w: World, auto: set<string>, id: string, retry: bool)
    requires StatusOk(w, auto) && IsActive(w, id)
    ensures StatusOk(Leave(w, id, retry), auto)
  {
    LeaveWaits(w, id, retry);
    var r := Leave(w, id, retry);
    forall t
      ensures TaskOk(r, auto, t)
    {
      assert TaskOk(w, auto, t);
    }
  }

  lemma SameQueueSameStatus(w: World, r: World, auto: set<string>)
    requires StatusOk(w, auto) && r.status == w.status
    requires forall id :: IsWaiting(w, id) ==> IsWaiting(r, id) && r.queue[id] == w.queue[id]
    ensures StatusOk(r, auto)
  {
    forall t
      ensures TaskOk(r, auto, t)
    {
      StillWaiting(w, r, t);
      assert TaskOk(w, auto, t);
    }
  }

  lemma StatusChangeExact(w: World, auto: set<string>, task: string, to: Status)
    requires StatusOk(w, auto)
    ensures StatusOk(w.(status := w.status[task := to]), auto) <==> Lands(w, auto, StatusChange(task, to))
  {
    var r := w.(status := w.status[task := to]);
    forall t
      ensures HasWaitingJob(w, t) <==> HasWaitingJob(r, t)
    {
      StillWaiting(w, r, t);
      StillWaiting(r, w, t);
    }
    OnlyOneTask(w, r, auto, task);
  }

  /** Each step, by whoever takes it, keeps "a waiting task has a gate job" exactly when its guard holds. */
  lemma StepExact(w: World, auto: set<string>, step: Step)
    requires QueueOk(w) && StatusOk(w, auto)
    ensures StatusOk(Perform(w, auto, step), auto) <==> Lands(w, auto, step)
  {
    match step
    case ReviewDone(task) => ReviewExact(w, auto, task);
    case Kick(task) => EnqueueGives(w.queue, FirstJob(task)); SameQueueSameStatus(w, Perform(w, auto, step), auto);
    case Push(task) => SameQueueSameStatus(w, Perform(w, auto, step), auto);
    case StatusChange(task, to) => StatusChangeExact(w, auto, task, to);
    case BeginJob(id, checks) => if IsWaiting(w, id) { BeginKeepsStatus(w, auto, id, checks); }
    case GiveUp(id) => if IsWaiting(w, id) { GiveUpExact(w, auto, id); }
    case CheckoutJob(id, stale) => SameQueueSameStatus(w, Perform(w, auto, step), auto);
    case EndJob(id, answer, fixPushed) =>
      if CanEnd(w, id) {
        if w.active[id].Skipped? { LeaveKeepsStatus(w, auto, id, false); }
        else { ActAndLeaveExact(w, auto, id, answer, fixPushed, COMPLETE, false); }
      }
    case ThrowJob(id, answer, fixPushed, at, retry) =>
      if IsActive(w, id) && !w.active[id].Skipped? {
        if Ready(w.queue[id], w.active[id]) { ActAndLeaveExact(w, auto, id, answer, fixPushed, at, retry); }
        else { LeaveKeepsStatus(w, auto, id, retry); }
      }
  }

  ghost predicate HoldsThroughout(w: World, auto: set<string>, steps: seq<Step>)
    decreases |steps|
  {
    StatusOk(w, auto) && (steps == [] || HoldsThroughout(Perform(w, auto, steps[0]), auto, steps[1..]))
  }

  ghost predicate LandsThroughout(w: World, auto: set<string>, steps: seq<Step>)
    decreases |steps|
  {
    steps == [] || (Lands(w, auto, steps[0]) && LandsThroughout(Perform(w, auto, steps[0]), auto, steps[1..]))
  }

  /** Over every run: a task that waits for CI always has a gate job, exactly when every step meets its guard. */
  lemma {:induction false} WaitingExact(w: World, auto: set<string>, steps: seq<Step>)
    requires QueueOk(w) && StatusOk(w, auto)
    ensures HoldsThroughout(w, auto, steps) <==> LandsThroughout(w, auto, steps)
    decreases |steps|
  {
    if steps != [] {
      StepExact(w, auto, steps[0]);
      StepKeepsQueue(w, auto, steps[0]);
      if Lands(w, auto, steps[0]) {
        WaitingExact(Perform(w, auto, steps[0]), auto, steps[1..]);
      }
    }
  }

  /** No job queued or running yet, and no task waiting for CI. */
  ghost predicate Initial(w: World) {
    && w.queue == map[] && w.active == map[] && w.log == []
    && forall task :: task in w.status ==> w.status[task] != WaitingCi
  }

  lemma {:induction false} LandingRun(w: World, auto: set<string>, steps: seq<Step>)
    requires QueueOk(w) && StatusOk(w, auto) && LandsThroughout(w, auto, steps)
    ensures StatusOk(Run(w, auto, steps), auto)
    decreases |steps|
  {
    if steps != [] {
      StepExact(w, auto, steps[0]);
      StepKeepsQueue(w, auto, steps[0]);
      LandingRun(Perform(w, auto, steps[0]), auto, steps[1..]);
    }
  }

  /** In every run whose steps meet their guards, a task waiting for CI has a gate job that will still run. */
  lemma WaitingTaskHasGateJob(w: World, auto: set<string>, steps: seq<Step>, task: string)
    requires Initial(w) && LandsThroughout(w, auto, steps) && Waits(Run(w, auto, steps), auto, task)
    ensures HasWaitingJob(Run(w, auto, steps), task)
  {
    LandingRun(w, auto, steps);
    assert TaskOk(Run(w, auto, steps), auto, task);
  }

  /** The end of a job leaves its task a waiting job exactly when there was one or its successor is not dropped. */
  lemma EndWaits(w: World, id: string, answer: MergeAnswer, fixPushed: bool)
    requires QueueOk(w) && IsActive(w, id) && Ready(w.queue[id], w.active[id])
    ensures var task, after := w.queue[id].task, End(w, id, answer, fixPushed);
      var o := RunJob(w.queue[id], RoundOf(w.active[id], answer));
      && (HasWaitingJob(after, task) <==> HasWaitingJob(w, task) || (o.Successor? && JobId(o.job) !in w.active))
      && (forall t :: t != task ==> NoWorse(w, after, t))
      && after.status == StatusAfter(w.status, task, o)
  {
    var task, mid := w.queue[id].task, Act(w, id, answer, fixPushed, COMPLETE);
    var o := RunJob(w.queue[id], RoundOf(w.active[id], answer));
    JobEventsShape(id, w.queue[id], RoundOf(w.active[id], answer), fixPushed);
    RunJobNext(w.queue[id], RoundOf(w.active[id], answer));
    ActQueue(w, id, answer, fixPushed, COMPLETE);
    ActStatuses(w, id, answer, fixPushed, COMPLETE);
    ActWaits(w, id, answer, fixPushed, COMPLETE);
    LeaveWaits(mid, id, false);
    if o.Successor? {
      EnqueueWaits(w, mid, o.job);
    } else {
      StillWaiting(mid, w, task);
    }
  }

  lemma StopsFirst(task: string, r: Round)
    ensures RunJob(FirstJob(task), r).MergeStop? <==> Allows(r.checks) && !r.stale && r.answer == Refused
  {
  }

  /**
    A review that ends while the task's first gate job is mid-step, with no other
    gate job waiting: its enqueue is dropped. The end of that job makes up for it
    exactly when it is not a refused merge and its successor, if any, is not
    dropped in turn; otherwise the task waits for CI with no job to come.
   */
  lemma ReviewDuringJobExact(w: World, auto: set<string>, task: string, answer: MergeAnswer, fixPushed: bool)
    requires QueueOk(w) && StatusOk(w, auto) && task in auto && !HasWaitingJob(w, task)
    requires var id := JobId(FirstJob(task));
      IsActive(w, id) && w.queue[id] == FirstJob(task) && Ready(w.queue[id], w.active[id])
    ensures var id := JobId(FirstJob(task));
      var r := RoundOf(w.active[id], answer);
      var o := RunJob(FirstJob(task), r);
      var after := Perform(Perform(w, auto, ReviewDone(task)), auto, EndJob(id, answer, fixPushed));
      && (StatusOk(after, auto) <==>
            !(Allows(r.checks) && !r.stale && answer == Refused)
            && (o.Successor? ==> JobId(o.job) !in w.active))
      && (!StatusOk(after, auto) ==> Waits(after, auto, task) && !HasWaitingJob(after, task))
  {
    var id := JobId(FirstJob(task));
    var reviewed := Perform(w, auto, ReviewDone(task));
    assert reviewed == w.(status := w.status[task := WaitingCi]);
    forall t
      ensures HasWaitingJob(reviewed, t) <==> HasWaitingJob(w, t)
    {
      StillWaiting(w, reviewed, t);
      StillWaiting(reviewed, w, t);
    }
    EndsReady(reviewed, auto, id, answer, fixPushed);
    EndWaits(reviewed, id, answer, fixPushed);
    StopsFirst(task, RoundOf(w.active[id], answer));
    var after := End(reviewed, id, answer, fixPushed);
    forall t | t != task
      ensures NoWorse(w, after, t)
    {
      assert NoWorse(reviewed, after, t);
    }
    OnlyOneTask(w, after, auto, task);
  }

  /**
    A gate job whose last attempt throws before it has a reading leaves the queue
    while its task still waits for CI: here the first job after a review.
   */
  lemma GivingUpStrands(task: string)
    ensures var auto, id := {task}, JobId(FirstJob(task));
      var w := World(map[task := AwaitingReview], map[], map[], []);
      var after := Perform(Perform(w, auto, ReviewDone(task)), auto, GiveUp(id));
      Initial(w) && Waits(after, auto, task) && after.queue == map[] && after.active == map[]
  {
    var w := World(map[task := AwaitingReview], map[], map[], []);
    assert Perform(w, {task}, ReviewDone(task)).queue == map[JobId(FirstJob(task)) := FirstJob(task)];
  }

  // ---------------------------------------------------- how a job begins and ends

  /**
    A job reads the checks and goes on exactly for a task on an auto-merge
    repository that awaits review or waits for CI; then the task awaits review.
    For any other task it does nothing.
   */
  lemma BeginExact(w: World, auto: set<string>, id: string, checks: ChecksStatus)
    requires IsWaiting(w, id)
    ensures var task, after := w.queue[id].task, Perform(w, auto, BeginJob(id, checks));
      && after.queue == w.queue
      && (if task in auto && task in w.status && (w.status[task] == AwaitingReview || w.status[task] == WaitingCi)
          then
            && after.active == w.active[id := HasRead(checks)]
            && after.status == w.status[task := AwaitingReview]
            && after.log == w.log + [ReadChecks(task, id, checks)]
          else after.active == w.active[id := Skipped] && after.status == w.status && after.log == w.log)
  {
  }

  /** A skipped job leaves the queue and nothing else changes. */
  lemma SkippedDoesNothing(w: World, auto: set<string>, id: string, answer: MergeAnswer, fixPushed: bool)
    requires IsActive(w, id) && w.active[id] == Skipped
    ensures Perform(w, auto, EndJob(id, answer, fixPushed)) == w.(queue := w.queue - {id}, active := w.active - {id})
  {
  }

  /** A job acts without a checkout exactly when it only waits or stops for good. */
  lemma CheckoutExact(j: Job, checks: ChecksStatus)
    ensures !NeedsCheckout(j, checks) <==>
      && checks.supported
      && (checks.state == Pending || (checks.state == Failing && j.ciFixes >= 3 && j.rebaseRetries >= 1))
  {
  }

  /** The provider is asked to merge exactly on a green or unsupported reading with the base tip in the head. */
  lemma AsksExact(id: string, j: Job, r: Round, fixPushed: bool)
    ensures var events := JobEvents(id, j, r, fixPushed);
      (exists i :: 0 <= i < |events| && events[i].ProviderMerge?) <==>
      (!r.checks.supported || r.checks.state == Green) && !r.stale
    ensures var events := JobEvents(id, j, r, fixPushed);
      forall i :: 0 <= i < |events| && events[i].ProviderMerge? ==>
        i == 0 && events[i] == ProviderMerge(j.task, id, r.answer)
  {
    var events := JobEvents(id, j, r, fixPushed);
    if (!r.checks.supported || r.checks.state == Green) && !r.stale {
      assert events[0].ProviderMerge?;
    }
  }

  predicate MergesNow(r: Round) {
    Allows(r.checks) && !r.stale && r.answer == DidMerge
  }

  predicate StopsNow(j: Job, r: Round) {
    if Allows(r.checks) then
      (!r.stale && r.answer == Refused) || (j.attempt >= MAX_ATTEMPTS && (r.stale || r.answer == Conflict))
    else if r.checks.state == Pending then j.attempt >= MAX_ATTEMPTS
    else j.ciFixes >= MAX_CI_FIXES && j.rebaseRetries >= MAX_REBASE_RETRIES
  }

  /** The counters of the next job: a spent fix budget is renewed once, a fix on an up-to-date branch is counted. */
  function NextJob(j: Job, r: Round): Job {
    if Allows(r.checks) || r.checks.state == Pending then Job(j.task, j.attempt + 1, j.ciFixes, j.rebaseRetries)
    else if j.ciFixes >= MAX_CI_FIXES then Job(j.task, j.attempt + 1, 0, j.rebaseRetries + 1)
    else Job(j.task, j.attempt + 1, if r.stale then j.ciFixes else j.ciFixes + 1, j.rebaseRetries)
  }

  lemma EndLogs(w: World, id: string, answer: MergeAnswer, fixPushed: bool)
    requires IsActive(w, id) && Ready(w.queue[id], w.active[id])
    ensures var j, r := w.queue[id], RoundOf(w.active[id], answer);
      var after := End(w, id, answer, fixPushed);
      && after.log == w.log + JobEvents(id, j, r, fixPushed)
      && after.status == StatusAfter(w.status, j.task, RunJob(j, r))
      && after.queue == (if RunJob(j, r).Successor? then Enqueue(w.queue, RunJob(j, r).job) else w.queue) - {id}
  {
    JobEventsShape(id, w.queue[id], RoundOf(w.active[id], answer), fixPushed);
  }

  /** What the status of the own task is once the job has ended, whatever happened to it since the job began. */
  ghost predicate StatusLeft(w: World, after: World, j: Job, r: Round) {
    && (forall t :: t != j.task ==> SameStatus(w, after, t))
    && (if MergesNow(r) then j.task in after.status && after.status[j.task] == Done
        else if Allows(r.checks) then SameStatus(w, after, j.task)
        else j.task in after.status && after.status[j.task] == if StopsNow(j, r) then AwaitingReview else WaitingCi)
  }

  /**
    Every job that has read its checks ends in exactly one of three ways, in any
    world and so with anything in between: merged, stopped, or continued by one
    job an attempt later, which is in the queue from then on. Only the merge path
    leaves a status written in between; the others write over it.
   */
  lemma JobEndsOneWay(w: World, auto: set<string>, id: string, answer: MergeAnswer, fixPushed: bool)
    requires QueueOk(w) && IsActive(w, id) && Ready(w.queue[id], w.active[id])
    ensures var j, r := w.queue[id], RoundOf(w.active[id], answer);
      var after := Perform(w, auto, EndJob(id, answer, fixPushed));
      && after.active == w.active - {id} && id !in after.queue
      && StatusLeft(w, after, j, r)
      && (MergesNow(r) ==>
            after.queue == w.queue - {id} && after.log == w.log + [ProviderMerge(j.task, id, DidMerge)])
      && (StopsNow(j, r) ==>
            && !MergesNow(r) && after.queue == w.queue - {id}
            && forall p :: |w.log| <= p < |after.log| ==> !after.log[p].Pushed?)
      && (!MergesNow(r) && !StopsNow(j, r) ==>
            after.queue == Enqueue(w.queue, NextJob(j, r)) - {id} && JobId(NextJob(j, r)) in after.queue)
  {
    EndsReady(w, auto, id, answer, fixPushed);
    EndStatus(w, id, answer, fixPushed);
    EndQueue(w, id, answer, fixPushed);
  }

  lemma EndStatus(w: World, id: string, answer: MergeAnswer, fixPushed: bool)
    requires IsActive(w, id) && Ready(w.queue[id], w.active[id])
    ensures StatusLeft(w, End(w, id, answer, fixPushed), w.queue[id], RoundOf(w.active[id], answer))
  {
    EndLogs(w, id, answer, fixPushed);
    OutcomeExact(id, w.queue[id], RoundOf(w.active[id], answer), fixPushed);
  }

  lemma EndQueue(w: World, id: string, answer: MergeAnswer, fixPushed: bool)
    requires QueueOk(w) && IsActive(w, id) && Ready(w.queue[id], w.active[id])
    ensures var j, r := w.queue[id], RoundOf(w.active[id], answer);
      var after := End(w, id, answer, fixPushed);
      && (MergesNow(r) ==>
            after.queue == w.queue - {id} && after.log == w.log + [ProviderMerge(j.task, id, DidMerge)])
      && (StopsNow(j, r) ==>
            && !MergesNow(r) && after.queue == w.queue - {id}
            && forall p :: |w.log| <= p < |after.log| ==> !after.log[p].Pushed?)
      && (!MergesNow(r) && !StopsNow(j, r) ==>
            after.queue == Enqueue(w.queue, NextJob(j, r)) - {id} && JobId(NextJob(j, r)) in after.queue)
  {
    var j, r := w.queue[id], RoundOf(w.active[id], answer);
    EndLogs(w, id, answer, fixPushed);
    OutcomeExact(id, j, r, fixPushed);
    if !MergesNow(r) && !StopsNow(j, r) {
      EnqueueGives(w.queue, NextJob(j, r));
      if JobId(NextJob(j, r)) == id { JobIdInjective(NextJob(j, r), j); }
    }
  }

  lemma OutcomeExact(id: string, j: Job, r: Round, fixPushed: bool)
    ensures var o, events := RunJob(j, r), JobEvents(id, j, r, fixPushed);
      && (o.Merged? <==> MergesNow(r))
      && (o.MergeStop? || o.ManualAction? <==> StopsNow(j, r))
      && (o.ManualAction? ==> !Allows(r.checks)) && (o.MergeStop? ==> Allows(r.checks))
      && (o.Successor? ==> o.job == NextJob(j, r) && (o.waitsForCi <==> !Allows(r.checks)))
      && (o.Merged? ==> events == [ProviderMerge(j.task, id, DidMerge)])
      && (o.MergeStop? || o.ManualAction? ==> forall i :: 0 <= i < |events| ==> !events[i].Pushed?)
  {
  }
}
