/**
  The gate as the worker runs it: task rows and the queue are updated in place,
  statement by statement. Each method refines a step of GateRuns, so a run of
  calls refines a run of steps and inherits its theorems.
 */
module GateWorker {
  import opened Common
  import opened PrShared
  import opened MergeGate
  import opened GateRuns
  import opened GateMerges

  class Worker {
    const auto: set<string>
    var status: map<string, Status>
    var queue: map<string, Job>
    var active: map<string, Phase>
    var log: seq<Event>

    ghost function View(): World
      reads this
    {
      World(status, queue, active, log)
    }

    constructor (auto: set<string>, status: map<string, Status>)
      ensures this.auto == auto && View() == World(status, map[], map[], [])
    {
      this.auto, this.status, queue, active, log := auto, status, map[], map[], [];
    }

    method Add(j: Job)
      modifies this`queue
      ensures queue == Enqueue(old(queue), j)
    {
      if JobId(j) !in queue { queue := queue[JobId(j) := j]; }
    }

    method BeginJob(id: string, checks: ChecksStatus)
      requires id in queue
      modifies this`status, this`active, this`log
      ensures View() == Begin(old(View()), auto, id, checks)
    {
      var task := queue[id].task;
      if task !in status || (status[task] != AwaitingReview && status[task] != WaitingCi) || task !in auto {
        active := active[id := Skipped];
        return;
      }
      log := log + [ReadChecks(task, id, checks)];
      if status[task] == WaitingCi {
        status := status[task := AwaitingReview];
      }
      active := active[id := HasRead(checks)];
    }

    /** The branches after the decision: the status, then the successor, as far as the job gets. */
    method Dispatch(j: Job, r: Round, enqueued: bool)
      modifies this`status, this`queue
      ensures status == StatusAfter(old(status), j.task, RunJob(j, r))
      ensures queue == if enqueued && RunJob(j, r).Successor? then Enqueue(old(queue), RunJob(j, r).job) else old(queue)
    {
      var action := MergeGateAction(r.checks, j.attempt, j.ciFixes, j.rebaseRetries);
      var next := Job(j.task, j.attempt + 1, j.ciFixes, j.rebaseRetries);
      if action == Wait {
        status := status[j.task := WaitingCi];
      } else if action == Manual {
        status := status[j.task := AwaitingReview];
        return;
      } else if action == FixCi {
        status := status[j.task := WaitingCi];
        if !r.stale { next := next.(ciFixes := j.ciFixes + 1); }
      } else if action == RebaseRetry {
        status := status[j.task := WaitingCi];
        next := next.(ciFixes := 0, rebaseRetries := j.rebaseRetries + 1);
      } else {
        if !r.stale && r.answer == DidMerge {
          status := status[j.task := Done];
          return;
        }
        if !r.stale && r.answer == Refused { return; }
        if j.attempt >= MAX_ATTEMPTS { return; }
      }
      if enqueued { Add(next); }
    }

    method ActAndLeave(id: string, answer: MergeAnswer, fixPushed: bool, at: Progress, retry: bool)
      requires IsActive(View(), id) && Ready(queue[id], active[id])
      modifies this
      ensures View() == Leave(Act(old(View()), id, answer, fixPushed, at), id, retry)
    {
      var j, r := queue[id], RoundOf(active[id], answer);
      var events := JobEvents(id, j, r, fixPushed);
      if at.events < |events| {
        log := log + events[..at.events];
      } else {
        log := log + events;
        if at.wrote { Dispatch(j, r, at.enqueued); }
      }
      Drop(id, retry);
    }

    method Drop(id: string, retry: bool)
      modifies this`queue, this`active
      ensures View() == Leave(old(View()), id, retry)
    {
      if !retry { queue := queue - {id}; }
      active := active - {id};
    }

    method Take(step: Step)
      modifies this
      ensures View() == Perform(old(View()), auto, step)
    {
      match step {
        case ReviewDone(task) =>
          status := status[task := WaitingCi];
          if task in auto { Add(FirstJob(task)); }
        case Kick(task) => Add(FirstJob(task));
        case Push(task) => log := log + [Pushed(task, None)];
        case StatusChange(task, to) => status := status[task := to];
        case BeginJob(id, checks) => if id in queue && id !in active { BeginJob(id, checks); }
        case GiveUp(id) => if id in queue && id !in active { queue := queue - {id}; }
        case CheckoutJob(id, stale) =>
          if id in queue && id in active && active[id].HasRead? && NeedsCheckout(queue[id], active[id].checks) {
            active := active[id := HasCheckout(active[id].checks, stale)];
            log := log + [CheckedOut(queue[id].task, id, stale)];
          }
        case EndJob(id, answer, fixPushed) =>
          if id in queue && id in active {
            if active[id].Skipped? { Drop(id, false); }
            else if Ready(queue[id], active[id]) { ActAndLeave(id, answer, fixPushed, COMPLETE, false); }
          }
        case ThrowJob(id, answer, fixPushed, at, retry) =>
          if id in queue && id in active && !active[id].Skipped? {
            if Ready(queue[id], active[id]) { ActAndLeave(id, answer, fixPushed, at, retry); }
            else { Drop(id, retry); }
          }
      }
    }

    /** Any calls on a fresh worker: merges are cleared, and waiting tasks have jobs while guards are met. */
    method TakeAll(steps: seq<Step>)
      requires Initial(View())
      modifies this
      ensures View() == Run(old(View()), auto, steps)
      ensures MergesCleared(log)
      ensures LandsThroughout(old(View()), auto, steps) ==> StatusOk(View(), auto)
    {
      ghost var start := View();
      for k := 0 to |steps|
        invariant Run(View(), auto, steps[k..]) == Run(start, auto, steps)
      {
        Take(steps[k]);
        assert steps[k..][0] == steps[k] && steps[k..][1..] == steps[k + 1..];
      }
      RunKeeps(start, auto, steps);
      if LandsThroughout(start, auto, steps) { LandingRun(start, auto, steps); }
    }
  }
}
