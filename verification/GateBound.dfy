/**
  How many successors gate jobs enqueue over a whole run, with chains running
  side by side, jobs that throw and are retried, and duplicates dropped. What a
  job may still lead to is bounded by its counters; the queue carries the sum.
 */
module GateBound {
  import opened MergeGate
  import opened GateRuns

  /** What the job's counters leave: waits and merge rebases, agent fixes, the rebase retry. */
  function Budget(j: Job): (b: nat)
    ensures b <= 37
  {
    AtMost(MAX_ATTEMPTS, j.attempt) + FixesLeft(j) + AtMost(MAX_REBASE_RETRIES, j.rebaseRetries)
  }

  /** A continued round costs at least one, the failing-and-stale one nothing. */
  lemma SuccessorCosts(j: Job, r: Round)
    requires RunJob(j, r).Successor?
    ensures Budget(RunJob(j, r).job) + (if KindOf(j, r) == StaleFix then 0 else 1) <= Budget(j)
  {
  }

  // ---------------------------------------------------------- the queue's budget

  ghost function QueueBudget(queue: map<string, Job>): nat
    decreases |queue|
  {
    if queue == map[] then 0
    else
      var id :| id in queue;
      SmallerQueue(queue, id);
      Budget(queue[id]) + QueueBudget(queue - {id})
  }

  lemma SmallerQueue(queue: map<string, Job>, id: string)
    requires id in queue
    ensures |queue - {id}| < |queue|
  {
    assert (queue - {id}).Keys == queue.Keys - {id};
    assert |queue.Keys - {id}| < |queue.Keys|;
  }

  lemma {:induction false} BudgetWithout(queue: map<string, Job>, id: string)
    requires id in queue
    ensures QueueBudget(queue) == Budget(queue[id]) + QueueBudget(queue - {id})
    decreases |queue|
  {
    var first :| id in queue && first in queue
      && QueueBudget(queue) == Budget(queue[first]) + QueueBudget(queue - {first});
    if first != id {
      SmallerQueue(queue, first);
      SmallerQueue(queue, id);
      BudgetWithout(queue - {first}, id);
      BudgetWithout(queue - {id}, first);
      assert queue - {first} - {id} == queue - {id} - {first};
    }
  }

  lemma BudgetAfterEnqueue(queue: map<string, Job>, j: Job)
    ensures QueueBudget(Enqueue(queue, j)) <= QueueBudget(queue) + Budget(j)
  {
    if JobId(j) !in queue {
      BudgetWithout(Enqueue(queue, j), JobId(j));
      assert Enqueue(queue, j) - {JobId(j)} == queue;
    }
  }

  // -------------------------------------------------------------- counting a run

  /** The acting job enqueues a successor (whether or not it is dropped as a duplicate). */
  predicate Continues(w: World, id: string, answer: MergeAnswer, fixPushed: bool, at: Progress)
    requires IsActive(w, id) && Ready(w.queue[id], w.active[id])
  {
    var j, r := w.queue[id], RoundOf(w.active[id], answer);
    at.wrote && at.enqueued && RunJob(j, r).Successor? && at.events >= |JobEvents(id, j, r, fixPushed)|
  }

  predicate ContinuesAt(w: World, step: Step) {
    match step
    case EndJob(id, answer, fixPushed) =>
      IsActive(w, id) && Ready(w.queue[id], w.active[id]) && Continues(w, id, answer, fixPushed, COMPLETE)
    case ThrowJob(id, answer, fixPushed, at, _) =>
      IsActive(w, id) && Ready(w.queue[id], w.active[id]) && Continues(w, id, answer, fixPushed, at)
    case _ => false
  }

  /** The continued round found CI failing and main moved. */
  predicate StaleAt(w: World, step: Step) {
    ContinuesAt(w, step) && KindOf(w.queue[step.id], RoundOf(w.active[step.id], step.answer)) == StaleFix
  }

  /** The job threw after its enqueue and stays in the queue to be run again. */
  predicate RepeatsAt(w: World, step: Step) {
    ContinuesAt(w, step) && step.ThrowJob? && step.retry
  }

  /** A first job is enqueued: by a review, a webhook or a route. */
  predicate StartsAt(auto: set<string>, step: Step) {
    step.Kick? || (step.ReviewDone? && step.task in auto)
  }

  function One(b: bool): nat {
    if b then 1 else 0
  }

  datatype Tally = Tally(continued: nat, stale: nat, repeated: nat, started: nat)

  function TallyOf(w: World, auto: set<string>, steps: seq<Step>): Tally
    decreases |steps|
  {
    if steps == [] then Tally(0, 0, 0, 0)
    else
      var rest := TallyOf(Perform(w, auto, steps[0]), auto, steps[1..]);
      Tally(One(ContinuesAt(w, steps[0])) + rest.continued, One(StaleAt(w, steps[0])) + rest.stale,
            One(RepeatsAt(w, steps[0])) + rest.repeated, One(StartsAt(auto, steps[0])) + rest.started)
  }

  lemma LeaveBudget(w: World, id: string, retry: bool)
    requires id in w.queue
    ensures QueueBudget(Leave(w, id, retry).queue) == QueueBudget(w.queue) - (if retry then 0 else Budget(w.queue[id]))
  {
    BudgetWithout(w.queue, id);
  }

  lemma ActBudget(w: World, id: string, answer: MergeAnswer, fixPushed: bool, at: Progress)
    requires QueueOk(w) && IsActive(w, id) && Ready(w.queue[id], w.active[id])
    ensures var j, r, mid := w.queue[id], RoundOf(w.active[id], answer), Act(w, id, answer, fixPushed, at);
      && id in mid.queue && mid.queue[id] == j
      && mid.queue == if Continues(w, id, answer, fixPushed, at) then Enqueue(w.queue, RunJob(j, r).job) else w.queue
  {
  }

  /** One step of a job: a continued round, what is left afterwards, and what the budget gives. */
  ghost predicate Pays(before: nat, after: nat, goes: bool, stale: bool, again: bool) {
    One(goes) + after <= before + One(goes && stale) + 37 * One(goes && again)
  }

  lemma ActAndLeaveBudget(w: World, id: string, answer: MergeAnswer, fixPushed: bool, at: Progress, retry: bool)
    requires QueueOk(w) && IsActive(w, id) && Ready(w.queue[id], w.active[id])
    ensures Pays(QueueBudget(w.queue), QueueBudget(Leave(Act(w, id, answer, fixPushed, at), id, retry).queue),
                 Continues(w, id, answer, fixPushed, at),
                 KindOf(w.queue[id], RoundOf(w.active[id], answer)) == StaleFix, retry)
  {
    var j, r := w.queue[id], RoundOf(w.active[id], answer);
    ActBudget(w, id, answer, fixPushed, at);
    LeaveBudget(Act(w, id, answer, fixPushed, at), id, retry);
    if Continues(w, id, answer, fixPushed, at) {
      SuccessorCosts(j, r);
      BudgetAfterEnqueue(w.queue, RunJob(j, r).job);
    }
  }

  lemma StepBudget(w: World, auto: set<string>, step: Step)
    requires QueueOk(w)
    ensures One(ContinuesAt(w, step)) + QueueBudget(Perform(w, auto, step).queue)
            <= QueueBudget(w.queue) + One(StaleAt(w, step)) + 37 * (One(RepeatsAt(w, step)) + One(StartsAt(auto, step)))
  {
    match step
    case ReviewDone(task) => BudgetAfterEnqueue(w.queue, FirstJob(task));
    case Kick(task) => BudgetAfterEnqueue(w.queue, FirstJob(task));
    case GiveUp(id) => if id in w.queue { BudgetWithout(w.queue, id); }
    case EndJob(id, answer, fixPushed) =>
      if CanEnd(w, id) { EndBudget(w, id, answer, fixPushed); }
    case ThrowJob(id, answer, fixPushed, at, retry) =>
      if IsActive(w, id) && !w.active[id].Skipped? { ThrowBudget(w, id, answer, fixPushed, at, retry); }
    case _ =>
  }

  lemma EndBudget(w: World, id: string, answer: MergeAnswer, fixPushed: bool)
    requires QueueOk(w) && CanEnd(w, id)
    ensures var step := EndJob(id, answer, fixPushed);
      Pays(QueueBudget(w.queue), QueueBudget(End(w, id, answer, fixPushed).queue),
           ContinuesAt(w, step), StaleAt(w, step), false)
  {
    if w.active[id].Skipped? { LeaveBudget(w, id, false); }
    else { ActAndLeaveBudget(w, id, answer, fixPushed, COMPLETE, false); }
  }

  lemma ThrowBudget(w: World, id: string, answer: MergeAnswer, fixPushed: bool, at: Progress, retry: bool)
    requires QueueOk(w) && IsActive(w, id) && !w.active[id].Skipped?
    ensures var step := ThrowJob(id, answer, fixPushed, at, retry);
      Pays(QueueBudget(w.queue), QueueBudget(Throw(w, id, answer, fixPushed, at, retry).queue),
           ContinuesAt(w, step), StaleAt(w, step), retry)
  {
    if Ready(w.queue[id], w.active[id]) { ActAndLeaveBudget(w, id, answer, fixPushed, at, retry); }
    else { LeaveBudget(w, id, retry); }
  }

  lemma {:induction false} RunBudget(w: World, auto: set<string>, steps: seq<Step>)
    requires QueueOk(w)
    ensures var t := TallyOf(w, auto, steps);
      t.continued + QueueBudget(Run(w, auto, steps).queue)
      <= QueueBudget(w.queue) + t.stale + 37 * (t.repeated + t.started)
    decreases |steps|
  {
    if steps != [] {
      StepBudget(w, auto, steps[0]);
      StepKeepsQueue(w, auto, steps[0]);
      RunBudget(Perform(w, auto, steps[0]), auto, steps[1..]);
    }
  }

  /**
    Over every run: at most 37 successors for each first job and for each job
    that threw after its enqueue and was retried, besides one for each
    failing-and-stale round.
   */
  lemma SuccessorsBound(w: World, auto: set<string>, steps: seq<Step>)
    requires Initial(w)
    ensures var t := TallyOf(w, auto, steps); t.continued <= 37 * (t.started + t.repeated) + t.stale
  {
    RunBudget(w, auto, steps);
  }
}
