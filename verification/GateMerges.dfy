/**
  What the gate's merges rest on, over every run of GateRuns: the merging job's
  own reading and checkout, and who may have pushed since.
 */
module GateMerges {
  import opened Common
  import opened PrShared
  import opened MergeGate
  import opened GateRuns

  // -------------------------------------------------- merges only after green

  /** What a job has in hand: its own last reading and checkout, void once it pushed itself. */
  function Held(log: seq<Event>, task: string, id: string): Option<Phase>
    decreases |log|
  {
    if log == [] then None
    else
      var before := Held(log[..|log| - 1], task, id);
      match log[|log| - 1]
      case ReadChecks(t, i, checks) => if t == task && i == id then Some(HasRead(checks)) else before
      case CheckedOut(t, i, stale) =>
        if t == task && i == id then
          if before.Some? && !before.value.Skipped? then Some(HasCheckout(before.value.checks, stale)) else None
        else before
      case Pushed(t, pusher) => if t == task && pusher == Some(id) then None else before
      case ProviderMerge(_, _, _) => before
  }

  /** Each provider merge is by a job that holds a green or unsupported reading and an up-to-date checkout. */
  ghost predicate MergesCleared(log: seq<Event>)
    decreases |log|
  {
    if log == [] then true
    else
      var init, last := log[..|log| - 1], log[|log| - 1];
      MergesCleared(init) && (last.ProviderMerge? ==> MayMerge(Held(init, last.task, last.id)))
  }

  predicate MayMerge(h: Option<Phase>) {
    h.Some? && h.value.HasCheckout? && !h.value.stale && Allows(h.value.checks)
  }

  lemma Snoc(log: seq<Event>, e: Event)
    ensures (log + [e])[..|log + [e]| - 1] == log && (log + [e])[|log + [e]| - 1] == e
  {
  }

  /** A gate job's own events are about its task and its id. */
  predicate IsOf(e: Event, task: string, id: string) {
    match e
    case Pushed(t, pusher) => t == task && pusher == Some(id)
    case ReadChecks(t, i, _) => t == task && i == id
    case CheckedOut(t, i, _) => t == task && i == id
    case ProviderMerge(t, i, _) => t == task && i == id
  }

  /** Events of others leave what a job holds alone. */
  lemma {:induction false} HeldAcross(log: seq<Event>, more: seq<Event>, task: string, id: string)
    requires forall i :: 0 <= i < |more| ==> !IsOf(more[i], task, id)
    ensures Held(log + more, task, id) == Held(log, task, id)
    decreases |more|
  {
    if more == [] {
      assert log + more == log;
    } else {
      var init, last := more[..|more| - 1], more[|more| - 1];
      assert log + more == (log + init) + [last];
      Snoc(log + init, last);
      HeldAcross(log, init, task, id);
    }
  }

  ghost predicate LogOk(w: World) {
    && MergesCleared(w.log)
    && forall id :: IsActive(w, id) && !w.active[id].Skipped? ==>
         Held(w.log, w.queue[id].task, id) == Some(w.active[id])
  }

  lemma ClearedSnoc(log: seq<Event>, e: Event)
    requires MergesCleared(log) && (e.ProviderMerge? ==> MayMerge(Held(log, e.task, e.id)))
    ensures MergesCleared(log + [e])
  {
    Snoc(log, e);
  }

  lemma PrefixCleared(log: seq<Event>, id: string, j: Job, r: Round, fixPushed: bool, n: nat)
    requires MergesCleared(log) && n <= |JobEvents(id, j, r, fixPushed)|
    requires NeedsCheckout(j, r.checks) ==> Held(log, j.task, id) == Some(HasCheckout(r.checks, r.stale))
    ensures MergesCleared(log + JobEvents(id, j, r, fixPushed)[..n])
  {
    var events := JobEvents(id, j, r, fixPushed);
    var push, merge := Pushed(j.task, Some(id)), ProviderMerge(j.task, id, r.answer);
    JobEventsShape(id, j, r, fixPushed);
    if n == 0 {
      assert log + events[..n] == log;
    } else if events[0] == push {
      assert events[..n] == [push];
      ClearedSnoc(log, push);
    } else {
      ClearedSnoc(log, merge);
      ClearedSnoc(log + [merge], push);
      assert log + [merge, push] == log + [merge] + [push];
      assert events[..n] == [merge] || events[..n] == [merge, push];
    }
  }

  lemma OwnEvents(id: string, j: Job, r: Round, fixPushed: bool, n: nat, task: string, other: string)
    requires n <= |JobEvents(id, j, r, fixPushed)| && other != id
    ensures var events := JobEvents(id, j, r, fixPushed)[..n];
      forall i :: 0 <= i < |events| ==> !IsOf(events[i], task, other)
  {
    JobEventsShape(id, j, r, fixPushed);
  }

  /** The log after acting: some prefix of the job's events. */
  lemma ActLogs(w: World, id: string, answer: MergeAnswer, fixPushed: bool, at: Progress) returns (n: nat)
    requires IsActive(w, id) && Ready(w.queue[id], w.active[id])
    ensures var events := JobEvents(id, w.queue[id], RoundOf(w.active[id], answer), fixPushed);
      n <= |events| && Act(w, id, answer, fixPushed, at).log == w.log + events[..n]
  {
    var events := JobEvents(id, w.queue[id], RoundOf(w.active[id], answer), fixPushed);
    n := if at.events < |events| then at.events else |events|;
    assert events[..|events|] == events;
  }

  lemma ActKeepsLog(w: World, id: string, answer: MergeAnswer, fixPushed: bool, at: Progress, retry: bool)
    requires QueueOk(w) && LogOk(w) && IsActive(w, id) && Ready(w.queue[id], w.active[id])
    ensures LogOk(Leave(Act(w, id, answer, fixPushed, at), id, retry))
  {
    var j, r := w.queue[id], RoundOf(w.active[id], answer);
    var after := Leave(Act(w, id, answer, fixPushed, at), id, retry);
    var n := ActLogs(w, id, answer, fixPushed, at);
    ActQueue(w, id, answer, fixPushed, at);
    PrefixCleared(w.log, id, j, r, fixPushed, n);
    forall other | IsActive(after, other) && !after.active[other].Skipped?
      ensures Held(after.log, after.queue[other].task, other) == Some(after.active[other])
    {
      OwnEvents(id, j, r, fixPushed, n, w.queue[other].task, other);
      HeldAcross(w.log, JobEvents(id, j, r, fixPushed)[..n], w.queue[other].task, other);
    }
  }

  /** One event of job `id`, or of nobody's, appended while only `id` changes phase. */
  lemma OneEventKeepsLog(w: World, r: World, e: Event, id: string)
    requires QueueOk(w) && LogOk(w) && r.log == w.log + [e] && !e.ProviderMerge?
    requires forall task, other :: other != id ==> !IsOf(e, task, other)
    requires forall other :: IsActive(r, other) && other != id ==>
      IsActive(w, other) && r.active[other] == w.active[other] && r.queue[other] == w.queue[other]
    requires IsActive(r, id) && !r.active[id].Skipped? ==> Held(r.log, r.queue[id].task, id) == Some(r.active[id])
    ensures LogOk(r)
  {
    ClearedSnoc(w.log, e);
    forall other | IsActive(r, other) && !r.active[other].Skipped?
      ensures Held(r.log, r.queue[other].task, other) == Some(r.active[other])
    {
      if other != id {
        HeldAcross(w.log, [e], w.queue[other].task, other);
      }
    }
  }

  lemma BeginKeepsLog(w: World, auto: set<string>, id: string, checks: ChecksStatus)
    requires QueueOk(w) && LogOk(w) && IsWaiting(w, id)
    ensures LogOk(Begin(w, auto, id, checks))
  {
    var task := w.queue[id].task;
    if Eligible(w, auto, task) {
      Snoc(w.log, ReadChecks(task, id, checks));
      OneEventKeepsLog(w, Begin(w, auto, id, checks), ReadChecks(task, id, checks), id);
    }
  }

  lemma CheckoutKeepsLog(w: World, id: string, stale: bool)
    requires QueueOk(w) && LogOk(w) && IsActive(w, id) && w.active[id].HasRead?
    ensures LogOk(Checkout(w, id, stale))
  {
    var e := CheckedOut(w.queue[id].task, id, stale);
    Snoc(w.log, e);
    OneEventKeepsLog(w, Checkout(w, id, stale), e, id);
  }

  lemma PushKeepsLog(w: World, task: string)
    requires QueueOk(w) && LogOk(w)
    ensures LogOk(w.(log := w.log + [Pushed(task, None)]))
  {
    var r := w.(log := w.log + [Pushed(task, None)]);
    ClearedSnoc(w.log, Pushed(task, None));
    forall id | IsActive(r, id) && !r.active[id].Skipped?
      ensures Held(r.log, r.queue[id].task, id) == Some(r.active[id])
    {
      HeldAcross(w.log, [Pushed(task, None)], w.queue[id].task, id);
    }
  }

  lemma StepKeepsLog(w: World, auto: set<string>, step: Step)
    requires QueueOk(w) && LogOk(w)
    ensures LogOk(Perform(w, auto, step))
  {
    match step
    case ReviewDone(task) => EnqueueGives(w.queue, FirstJob(task));
    case Kick(task) => EnqueueGives(w.queue, FirstJob(task));
    case Push(task) => PushKeepsLog(w, task);
    case BeginJob(id, checks) => if IsWaiting(w, id) { BeginKeepsLog(w, auto, id, checks); }
    case CheckoutJob(id, stale) =>
      if IsActive(w, id) && w.active[id].HasRead? { CheckoutKeepsLog(w, id, stale); }
    case EndJob(id, answer, fixPushed) =>
      if CanEnd(w, id) && !w.active[id].Skipped? { ActKeepsLog(w, id, answer, fixPushed, COMPLETE, false); }
    case ThrowJob(id, answer, fixPushed, at, retry) =>
      if IsActive(w, id) && Ready(w.queue[id], w.active[id]) { ActKeepsLog(w, id, answer, fixPushed, at, retry); }
    case _ =>
  }

  /** The queue and the log invariants over every run, with no condition on the steps. */
  lemma {:induction false} RunKeeps(w: World, auto: set<string>, steps: seq<Step>)
    requires QueueOk(w) && LogOk(w)
    ensures QueueOk(Run(w, auto, steps)) && LogOk(Run(w, auto, steps))
    decreases |steps|
  {
    if steps != [] {
      StepKeepsQueue(w, auto, steps[0]);
      StepKeepsLog(w, auto, steps[0]);
      RunKeeps(Perform(w, auto, steps[0]), auto, steps[1..]);
    }
  }

  /** What a held phase says about the log: the reading, and the checkout after it, with no push of its own since. */
  lemma {:induction false} HeldMeans(log: seq<Event>, task: string, id: string) returns (r: nat, c: nat)
    requires Held(log, task, id).Some? && !Held(log, task, id).value.Skipped?
    ensures var h := Held(log, task, id).value;
      && r <= c < |log| && log[r] == ReadChecks(task, id, h.checks)
      && (h.HasCheckout? ==> r < c && log[c] == CheckedOut(task, id, h.stale))
      && forall p :: r < p < |log| ==> log[p] != Pushed(task, Some(id)) && !IsReading(log[p], task, id)
    decreases |log|
  {
    var last := log[|log| - 1];
    if IsReading(last, task, id) {
      r, c := |log| - 1, |log| - 1;
    } else {
      r, c := HeldMeans(log[..|log| - 1], task, id);
      if last.CheckedOut? && last.task == task && last.id == id {
        c := |log| - 1;
      }
    }
  }

  predicate IsReading(e: Event, task: string, id: string) {
    e.ReadChecks? && e.task == task && e.id == id
  }

  lemma {:induction false} ClearedPrefix(log: seq<Event>, m: nat)
    requires MergesCleared(log) && m < |log| && log[m].ProviderMerge?
    ensures MayMerge(Held(log[..m], log[m].task, log[m].id))
    decreases |log|
  {
    if m < |log| - 1 {
      ClearedPrefix(log[..|log| - 1], m);
      assert log[..|log| - 1][..m] == log[..m];
    }
  }

  /**
    In every run, with jobs of one task overlapping freely: before each provider
    merge the same job read green or unsupported, later found the base tip in the
    head, and in between neither read again nor pushed.
   */
  lemma MergeOnlyAfterGreen(w: World, auto: set<string>, steps: seq<Step>, m: nat) returns (r: nat, c: nat)
    requires Initial(w)
    requires m < |Run(w, auto, steps).log| && Run(w, auto, steps).log[m].ProviderMerge?
    ensures var log := Run(w, auto, steps).log;
      var task, id := log[m].task, log[m].id;
      && r < c < m
      && IsReading(log[r], task, id) && Allows(log[r].checks)
      && log[c] == CheckedOut(task, id, false)
      && forall p :: r < p < m ==> log[p] != Pushed(task, Some(id)) && !IsReading(log[p], task, id)
  {
    RunKeeps(w, auto, steps);
    var log := Run(w, auto, steps).log;
    ClearedPrefix(log, m);
    r, c := HeldMeans(log[..m], log[m].task, log[m].id);
  }

  // ------------------------------------------------ only auto-merge repositories

  /** What a gate job does for a task: reading its checks, checking out, merging, pushing. */
  predicate IsJobEvent(e: Event, task: string) {
    match e
    case ReadChecks(t, _, _) => t == task
    case CheckedOut(t, _, _) => t == task
    case ProviderMerge(t, _, _) => t == task
    case Pushed(t, pusher) => t == task && pusher.Some?
  }

  predicate OnlyAutoEvents(log: seq<Event>, auto: set<string>) {
    forall p | 0 <= p < |log| :: !(log[p].Pushed? && log[p].pusher.None?) ==> log[p].task in auto
  }

  ghost predicate AutoOk(w: World, auto: set<string>) {
    && OnlyAutoEvents(w.log, auto)
    && forall id :: IsActive(w, id) && w.active[id] != Skipped ==> w.queue[id].task in auto
  }

  lemma AppendAuto(log: seq<Event>, more: seq<Event>, auto: set<string>)
    requires OnlyAutoEvents(log, auto) && OnlyAutoEvents(more, auto)
    ensures OnlyAutoEvents(log + more, auto)
  {
  }

  lemma LeavingKeepsAuto(w: World, auto: set<string>, id: string, answer: MergeAnswer, fixPushed: bool,
                         at: Progress, retry: bool)
    requires QueueOk(w) && AutoOk(w, auto) && IsActive(w, id) && Ready(w.queue[id], w.active[id])
    ensures AutoOk(Leave(Act(w, id, answer, fixPushed, at), id, retry), auto)
  {
    var j, r := w.queue[id], RoundOf(w.active[id], answer);
    var n := ActLogs(w, id, answer, fixPushed, at);
    ActQueue(w, id, answer, fixPushed, at);
    JobEventsShape(id, j, r, fixPushed);
    AppendAuto(w.log, JobEvents(id, j, r, fixPushed)[..n], auto);
  }

  /** A step that adds no job events and makes no job act. */
  lemma OthersKeepAuto(w: World, auto: set<string>, step: Step)
    requires QueueOk(w) && AutoOk(w, auto) && !step.EndJob? && !step.ThrowJob?
    ensures AutoOk(Perform(w, auto, step), auto)
  {
    match step
    case ReviewDone(task) => EnqueueGives(w.queue, FirstJob(task));
    case Kick(task) => EnqueueGives(w.queue, FirstJob(task));
    case BeginJob(id, checks) => if IsWaiting(w, id) { BeginKeepsAuto(w, auto, id, checks); }
    case CheckoutJob(id, stale) =>
      if IsActive(w, id) && w.active[id].HasRead? { CheckoutKeepsAuto(w, auto, id, stale); }
    case _ =>
  }

  lemma BeginKeepsAuto(w: World, auto: set<string>, id: string, checks: ChecksStatus)
    requires AutoOk(w, auto) && IsWaiting(w, id)
    ensures AutoOk(Begin(w, auto, id, checks), auto)
  {
    BeginExact(w, auto, id, checks);
  }

  lemma CheckoutKeepsAuto(w: World, auto: set<string>, id: string, stale: bool)
    requires AutoOk(w, auto) && IsActive(w, id) && w.active[id].HasRead?
    ensures AutoOk(Checkout(w, id, stale), auto)
  {
  }

  lemma EndKeepsAuto(w: World, auto: set<string>, id: string, answer: MergeAnswer, fixPushed: bool)
    requires QueueOk(w) && AutoOk(w, auto) && CanEnd(w, id)
    ensures AutoOk(End(w, id, answer, fixPushed), auto)
  {
    if w.active[id] != Skipped { LeavingKeepsAuto(w, auto, id, answer, fixPushed, COMPLETE, false); }
  }

  lemma ThrowKeepsAuto(w: World, auto: set<string>, id: string, answer: MergeAnswer, fixPushed: bool,
                       at: Progress, retry: bool)
    requires QueueOk(w) && AutoOk(w, auto) && IsActive(w, id)
    ensures AutoOk(Throw(w, id, answer, fixPushed, at, retry), auto)
  {
    if Ready(w.queue[id], w.active[id]) { LeavingKeepsAuto(w, auto, id, answer, fixPushed, at, retry); }
  }

  lemma StepKeepsAuto(w: World, auto: set<string>, step: Step)
    requires QueueOk(w) && AutoOk(w, auto)
    ensures AutoOk(Perform(w, auto, step), auto)
  {
    match step
    case EndJob(id, answer, fixPushed) => if CanEnd(w, id) { EndKeepsAuto(w, auto, id, answer, fixPushed); }
    case ThrowJob(id, answer, fixPushed, at, retry) =>
      if IsActive(w, id) { ThrowKeepsAuto(w, auto, id, answer, fixPushed, at, retry); }
    case _ => OthersKeepAuto(w, auto, step);
  }

  lemma {:induction false} RunKeepsAuto(w: World, auto: set<string>, steps: seq<Step>)
    requires QueueOk(w) && AutoOk(w, auto)
    ensures AutoOk(Run(w, auto, steps), auto)
    decreases |steps|
  {
    if steps != [] {
      StepKeepsQueue(w, auto, steps[0]);
      StepKeepsAuto(w, auto, steps[0]);
      RunKeepsAuto(Perform(w, auto, steps[0]), auto, steps[1..]);
    }
  }

  /** In every run, gate jobs merge, push and read only for tasks on auto-merge repositories. */
  lemma ManualTasksAreLeftAlone(w: World, auto: set<string>, steps: seq<Step>, task: string)
    requires Initial(w) && task !in auto
    ensures forall p :: 0 <= p < |Run(w, auto, steps).log| ==> !IsJobEvent(Run(w, auto, steps).log[p], task)
  {
    RunKeepsAuto(w, auto, steps);
  }

  // ------------------------------------------------ pushes between reading and merge

  /** A job with these counters and this round pushes. */
  predicate Pushes(j: Job, r: Round, fixPushed: bool) {
    if Allows(r.checks) then j.attempt < MAX_ATTEMPTS && (r.stale || r.answer == Conflict)
    else r.checks.state == Failing
         && (if j.ciFixes >= MAX_CI_FIXES then j.rebaseRetries < MAX_REBASE_RETRIES else r.stale || fixPushed)
  }

  predicate IsPush(e: Event, task: string) {
    e.Pushed? && e.task == task
  }

  lemma PushesMeans(id: string, j: Job, r: Round, fixPushed: bool)
    ensures var events := JobEvents(id, j, r, fixPushed);
      && (Pushes(j, r, fixPushed) <==> events != [] && events[|events| - 1] == Pushed(j.task, Some(id)))
      && forall i :: 0 <= i < |events| - 1 ==> !events[i].Pushed?
  {
  }

  /** This step pushes to the task's branch: an outside push, or a job of the task that gets to its push. */
  predicate PushesAt(w: World, step: Step, task: string) {
    match step
    case Push(t) => t == task
    case EndJob(id, answer, fixPushed) =>
      IsActive(w, id) && Ready(w.queue[id], w.active[id]) && w.queue[id].task == task
      && Pushes(w.queue[id], RoundOf(w.active[id], answer), fixPushed)
    case ThrowJob(id, answer, fixPushed, at, _) =>
      IsActive(w, id) && Ready(w.queue[id], w.active[id]) && w.queue[id].task == task
      && Pushes(w.queue[id], RoundOf(w.active[id], answer), fixPushed)
      && at.events >= |JobEvents(id, w.queue[id], RoundOf(w.active[id], answer), fixPushed)|
    case _ => false
  }

  ghost predicate PushedDuring(w: World, auto: set<string>, steps: seq<Step>, task: string)
    decreases |steps|
  {
    steps != [] && (PushesAt(w, steps[0], task) || PushedDuring(Perform(w, auto, steps[0]), auto, steps[1..], task))
  }

  ghost predicate PushSince(log: seq<Event>, from: nat, task: string) {
    exists p :: from <= p < |log| && IsPush(log[p], task)
  }

  lemma ActPushes(w: World, id: string, answer: MergeAnswer, fixPushed: bool, at: Progress, task: string)
    requires IsActive(w, id) && Ready(w.queue[id], w.active[id])
    ensures var r, log := RoundOf(w.active[id], answer), Act(w, id, answer, fixPushed, at).log;
      && w.log <= log
      && (PushSince(log, |w.log|, task) <==>
            && w.queue[id].task == task && Pushes(w.queue[id], r, fixPushed)
            && at.events >= |JobEvents(id, w.queue[id], r, fixPushed)|)
  {
    var j, r := w.queue[id], RoundOf(w.active[id], answer);
    var events, log := JobEvents(id, j, r, fixPushed), Act(w, id, answer, fixPushed, at).log;
    JobEventsShape(id, j, r, fixPushed);
    PushesMeans(id, j, r, fixPushed);
    if PushSince(log, |w.log|, task) {
      var p :| |w.log| <= p < |log| && IsPush(log[p], task);
      assert log[p] == events[p - |w.log|];
    }
    if Pushes(j, r, fixPushed) && at.events >= |events| {
      assert log[|log| - 1] == events[|events| - 1];
    }
  }

  lemma StepPushes(w: World, auto: set<string>, step: Step, task: string)
    ensures w.log <= Perform(w, auto, step).log
    ensures PushSince(Perform(w, auto, step).log, |w.log|, task) <==> PushesAt(w, step, task)
  {
    var r := Perform(w, auto, step);
    match step
    case Push(t) => assert r.log[|w.log|] == Pushed(t, None);
    case EndJob(id, answer, fixPushed) =>
      if CanEnd(w, id) && !w.active[id].Skipped? {
        JobEventsShape(id, w.queue[id], RoundOf(w.active[id], answer), fixPushed);
        ActPushes(w, id, answer, fixPushed, COMPLETE, task);
      }
    case ThrowJob(id, answer, fixPushed, at, _) =>
      if IsActive(w, id) && Ready(w.queue[id], w.active[id]) { ActPushes(w, id, answer, fixPushed, at, task); }
    case _ =>
  }

  /**
    The branch is as it was when read, over any stretch of a run (such as the one
    from a job's reading to its merge), exactly when in that stretch nobody pushed
    from outside and no job of the task got to its push.
   */
  lemma {:induction false} HeadAsReadExact(w: World, auto: set<string>, steps: seq<Step>, task: string)
    ensures w.log <= Run(w, auto, steps).log
    ensures PushSince(Run(w, auto, steps).log, |w.log|, task) <==> PushedDuring(w, auto, steps, task)
    decreases |steps|
  {
    if steps != [] {
      var mid, r := Perform(w, auto, steps[0]), Run(w, auto, steps);
      StepPushes(w, auto, steps[0], task);
      HeadAsReadExact(mid, auto, steps[1..], task);
      if PushSince(mid.log, |w.log|, task) {
        var p :| |w.log| <= p < |mid.log| && IsPush(mid.log[p], task);
        assert r.log[p] == mid.log[p];
      }
      if PushSince(r.log, |w.log|, task) {
        var p :| |w.log| <= p < |r.log| && IsPush(r.log[p], task);
        assert p < |mid.log| ==> mid.log[p] == r.log[p];
      }
    }
  }

  /**
    Two jobs of one task that overlap: the one that read green merges a push of
    the other that no job has read the checks of.
   */
  lemma OverlapMergesUncheckedPush(w: World, auto: set<string>, a: string, b: string)
    requires QueueOk(w) && IsWaiting(w, a) && IsWaiting(w, b) && a != b && w.queue[a].task == w.queue[b].task
    requires Eligible(w, auto, w.queue[a].task) && w.queue[a].ciFixes < MAX_CI_FIXES
    ensures var task, red, green := w.queue[a].task, ChecksStatus(true, Failing), ChecksStatus(true, Green);
      var w1 := Perform(Perform(w, auto, BeginJob(a, red)), auto, BeginJob(b, green));
      var w2 := Perform(Perform(w1, auto, CheckoutJob(a, false)), auto, EndJob(a, Refused, true));
      var w3 := Perform(Perform(w2, auto, CheckoutJob(b, false)), auto, EndJob(b, DidMerge, false));
      w3.log == w.log + [ReadChecks(task, a, red), ReadChecks(task, b, green), CheckedOut(task, a, false)]
                + [Pushed(task, Some(a))] + [CheckedOut(task, b, false)] + [ProviderMerge(task, b, DidMerge)]
  {
    var red, green := ChecksStatus(true, Failing), ChecksStatus(true, Green);
    BothHaveRead(w, auto, a, b);
    var begun := Perform(Perform(w, auto, BeginJob(a, red)), auto, BeginJob(b, green));
    var w1 := Perform(begun, auto, CheckoutJob(a, false));
    EndsReady(w1, auto, a, Refused, true);
    FixIsPushed(w1, a, b);
    GreenIsMerged(Perform(w1, auto, EndJob(a, Refused, true)), auto, b);
  }

  lemma BothHaveRead(w: World, auto: set<string>, a: string, b: string)
    requires IsWaiting(w, a) && IsWaiting(w, b) && a != b && w.queue[a].task == w.queue[b].task
    requires Eligible(w, auto, w.queue[a].task) && w.queue[a].ciFixes < MAX_CI_FIXES
    ensures var task, red, green := w.queue[a].task, ChecksStatus(true, Failing), ChecksStatus(true, Green);
      var begun := Perform(Perform(w, auto, BeginJob(a, red)), auto, BeginJob(b, green));
      var r := Perform(begun, auto, CheckoutJob(a, false));
      && r.queue == w.queue && r.active == w.active[a := HasCheckout(red, false)][b := HasRead(green)]
      && r.log == w.log + [ReadChecks(task, a, red), ReadChecks(task, b, green), CheckedOut(task, a, false)]
  {
  }

  lemma FixEvents(a: string, j: Job)
    requires j.ciFixes < MAX_CI_FIXES
    ensures JobEvents(a, j, Round(ChecksStatus(true, Failing), false, Refused), true) == [Pushed(j.task, Some(a))]
  {
  }

  lemma FixIsPushed(w: World, a: string, b: string)
    requires QueueOk(w) && a != b && IsActive(w, a) && IsActive(w, b)
    requires w.active[a] == HasCheckout(ChecksStatus(true, Failing), false) && w.queue[a].ciFixes < MAX_CI_FIXES
    ensures var r := End(w, a, Refused, true);
      && r.log == w.log + [Pushed(w.queue[a].task, Some(a))]
      && IsActive(r, b) && r.active[b] == w.active[b] && r.queue[b] == w.queue[b]
  {
    FixEvents(a, w.queue[a]);
    ActQueue(w, a, Refused, true, COMPLETE);
  }

  lemma GreenIsMerged(w: World, auto: set<string>, b: string)
    requires IsActive(w, b) && w.active[b] == HasRead(ChecksStatus(true, Green))
    ensures Perform(Perform(w, auto, CheckoutJob(b, false)), auto, EndJob(b, DidMerge, false)).log
            == w.log + [CheckedOut(w.queue[b].task, b, false)] + [ProviderMerge(w.queue[b].task, b, DidMerge)]
  {
    var out := Perform(w, auto, CheckoutJob(b, false));
    assert out.active[b] == HasCheckout(ChecksStatus(true, Green), false) && out.queue == w.queue;
    assert RunJob(w.queue[b], Round(ChecksStatus(true, Green), false, DidMerge)) == Merged;
  }

  lemma RunOfFour(w: World, auto: set<string>, a: Step, b: Step, c: Step, d: Step)
    ensures Run(w, auto, [a, b, c, d]) ==
            Perform(Perform(Perform(Perform(w, auto, a), auto, b), auto, c), auto, d)
  {
    assert [a, b, c, d][1..] == [b, c, d] && [b, c, d][1..] == [c, d] && [c, d][1..] == [d] && [d][1..] == [];
    var w3 := Perform(Perform(Perform(w, auto, a), auto, b), auto, c);
    assert Run(w3, auto, [d]) == Perform(w3, auto, d);
    assert Run(Perform(Perform(w, auto, a), auto, b), auto, [c, d]) == Run(w3, auto, [d]);
  }

  lemma SecondJobWaits(task: string)
    ensures var auto, first, second := {task}, JobId(FirstJob(task)), Job(task, 1, 0, 0);
      var w := World(map[task := AwaitingReview], map[], map[], []);
      var w1 := Perform(w, auto, ReviewDone(task));
      var w2 := Perform(w1, auto, BeginJob(first, ChecksStatus(true, Pending)));
      var w3 := Perform(w2, auto, EndJob(first, Refused, false));
      && JobId(second) != first
      && w3.queue == map[JobId(second) := second] && w3.active == map[] && w3.status == map[task := WaitingCi]
  {
    var auto, first, second := {task}, JobId(FirstJob(task)), Job(task, 1, 0, 0);
    var w := World(map[task := AwaitingReview], map[], map[], []);
    var w1 := Perform(w, auto, ReviewDone(task));
    assert w1.queue == map[first := FirstJob(task)];
    var w2 := Perform(w1, auto, BeginJob(first, ChecksStatus(true, Pending)));
    assert w2.active == map[first := HasRead(ChecksStatus(true, Pending))] && w2.queue == w1.queue;
    if JobId(second) == first { JobIdInjective(second, FirstJob(task)); }
    EndsReady(w2, auto, first, Refused, false);
    EndLogs(w2, first, Refused, false);
    assert RunJob(FirstJob(task), Round(ChecksStatus(true, Pending), false, Refused)) == Successor(second, true);
  }

  /** Two waiting jobs of one task are reached by a review, a pending round and a webhook. */
  lemma OverlapIsReachable(task: string)
    ensures var auto, first, second := {task}, JobId(FirstJob(task)), JobId(Job(task, 1, 0, 0));
      var w := World(map[task := AwaitingReview], map[], map[], []);
      var r := Run(w, auto, [ReviewDone(task), BeginJob(first, ChecksStatus(true, Pending)),
                             EndJob(first, Refused, false), Kick(task)]);
      && Initial(w) && QueueOk(r) && IsWaiting(r, first) && IsWaiting(r, second) && first != second
      && r.queue[first].task == r.queue[second].task == task
      && Eligible(r, auto, task) && r.queue[second].ciFixes < MAX_CI_FIXES
  {
    var auto, first := {task}, JobId(FirstJob(task));
    var w := World(map[task := AwaitingReview], map[], map[], []);
    SecondJobWaits(task);
    RunOfFour(w, auto, ReviewDone(task), BeginJob(first, ChecksStatus(true, Pending)),
              EndJob(first, Refused, false), Kick(task));
  }
}
