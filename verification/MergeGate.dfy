/**
  One merge-gate job: the pure decision, what the job does next, and the chain
  of successors it enqueues. Everything outside the job (check reading,
  staleness of the checkout, the provider's answer) is an input of the round.
 */
module MergeGate {
  import opened PrShared

  const MAX_ATTEMPTS: nat := 30
  const MAX_CI_FIXES: nat := 3
  const MAX_REBASE_RETRIES: nat := 1

  datatype Job = Job(task: string, attempt: nat, ciFixes: nat, rebaseRetries: nat)

  datatype Action = Merge | Wait | FixCi | RebaseRetry | Manual

  function MergeGateAction(checks: ChecksStatus, attempt: nat, ciFixes: nat, rebaseRetries: nat): Action {
    if !checks.supported || checks.state == Green then Merge
    else if checks.state == Pending then (if attempt >= MAX_ATTEMPTS then Manual else Wait)
    else if ciFixes >= MAX_CI_FIXES then (if rebaseRetries >= MAX_REBASE_RETRIES then Manual else RebaseRetry)
    else FixCi
  }

  /** A reading that lets the gate merge. */
  predicate Allows(checks: ChecksStatus) {
    !checks.supported || checks.state == Green
  }

  /** The provider's answer to a merge call. */
  datatype MergeAnswer = DidMerge | Conflict | Refused

  /** What one job meets: its check reading, whether main moved, and the answer if it calls for a merge. */
  datatype Round = Round(checks: ChecksStatus, stale: bool, answer: MergeAnswer)

  /** How a job ends. A stop in the merge path writes no status; the `manual` action does. */
  datatype Outcome =
    | Successor(job: Job, waitsForCi: bool)
    | Merged
    | ManualAction
    | MergeStop

  function Next(j: Job, ciFixes: nat, rebaseRetries: nat): Job {
    Job(j.task, j.attempt + 1, ciFixes, rebaseRetries)
  }

  /** A merge is tried only on an up-to-date branch; a stale or conflicting one is rebased, up to the limit. */
  function MergeWithConflictResolution(j: Job, r: Round): Outcome {
    if !r.stale && r.answer == DidMerge then Merged
    else if !r.stale && r.answer == Refused then MergeStop
    else if j.attempt >= MAX_ATTEMPTS then MergeStop
    else Successor(Next(j, j.ciFixes, j.rebaseRetries), false)
  }

  function RunJob(j: Job, r: Round): Outcome {
    match MergeGateAction(r.checks, j.attempt, j.ciFixes, j.rebaseRetries)
    case Wait => Successor(Next(j, j.ciFixes, j.rebaseRetries), true)
    case Manual => ManualAction
    case FixCi =>
      if r.stale then Successor(Next(j, j.ciFixes, j.rebaseRetries), true)
      else Successor(Next(j, j.ciFixes + 1, j.rebaseRetries), true)
    case RebaseRetry => Successor(Next(j, 0, j.rebaseRetries + 1), true)
    case Merge => MergeWithConflictResolution(j, r)
  }

  // ------------------------------------------------------------------ chains

  /** The successors a job enqueues, one round after another, until one ends the chain. */
  function Chain(j: Job, rounds: seq<Round>): seq<Job>
    decreases |rounds|
  {
    if rounds == [] then []
    else
      match RunJob(j, rounds[0])
      case Successor(next, _) => [next] + Chain(next, rounds[1..])
      case _ => []
  }

  datatype Kind = WaitOrMergeRebase | AgentFix | Retry | StaleFix

  /** Why a job was continued. */
  function KindOf(j: Job, r: Round): Kind {
    match MergeGateAction(r.checks, j.attempt, j.ciFixes, j.rebaseRetries)
    case FixCi => if r.stale then StaleFix else AgentFix
    case RebaseRetry => Retry
    case _ => WaitOrMergeRebase
  }

  function Count(j: Job, rounds: seq<Round>, kind: Kind): nat
    decreases |rounds|
  {
    if rounds == [] then 0
    else
      match RunJob(j, rounds[0])
      case Successor(next, _) => (if KindOf(j, rounds[0]) == kind then 1 else 0) + Count(next, rounds[1..], kind)
      case _ => 0
  }

  function AtMost(limit: nat, used: nat): nat {
    if used < limit then limit - used else 0
  }

  function FixesLeft(j: Job): nat {
    AtMost(MAX_CI_FIXES, j.ciFixes) + MAX_CI_FIXES * AtMost(MAX_REBASE_RETRIES, j.rebaseRetries)
  }

  /** Each kind of round is bounded by what the job's counters leave, except the failing-and-stale one. */
  lemma {:induction false} KindsAreBounded(j: Job, rounds: seq<Round>)
    ensures |Chain(j, rounds)| == Count(j, rounds, WaitOrMergeRebase) + Count(j, rounds, AgentFix)
                                  + Count(j, rounds, Retry) + Count(j, rounds, StaleFix)
    ensures Count(j, rounds, WaitOrMergeRebase) <= AtMost(MAX_ATTEMPTS, j.attempt)
    ensures Count(j, rounds, AgentFix) <= FixesLeft(j)
    ensures Count(j, rounds, Retry) <= AtMost(MAX_REBASE_RETRIES, j.rebaseRetries)
    decreases |rounds|
  {
    if rounds != [] {
      var o := RunJob(j, rounds[0]);
      if o.Successor? {
        KindsAreBounded(o.job, rounds[1..]);
      }
    }
  }

  function FirstJob(task: string): Job {
    Job(task, 0, 0, 0)
  }

  /** A chain from the first job enqueues at most 37 successors besides its failing-and-stale rebases. */
  lemma ChainBound(task: string, rounds: seq<Round>)
    ensures Count(FirstJob(task), rounds, WaitOrMergeRebase) <= 30
    ensures Count(FirstJob(task), rounds, AgentFix) <= 6
    ensures Count(FirstJob(task), rounds, Retry) <= 1
    ensures |Chain(FirstJob(task), rounds)| <= 37 + Count(FirstJob(task), rounds, StaleFix)
  {
    KindsAreBounded(FirstJob(task), rounds);
  }

  const PENDING := Round(ChecksStatus(true, Pending), false, Refused)
  const RED := Round(ChecksStatus(true, Failing), false, Refused)
  const RED_AND_STALE := Round(ChecksStatus(true, Failing), true, Refused)

  /** `n` equal rounds. */
  function Times(n: nat, r: Round, rest: seq<Round>): (s: seq<Round>)
    ensures |s| == n + |rest|
  {
    if n == 0 then rest else [r] + Times(n - 1, r, rest)
  }

  lemma {:induction false} RedRounds(j: Job, n: nat)
    requires n == AtMost(MAX_CI_FIXES, j.ciFixes) + (MAX_CI_FIXES + 1) * AtMost(MAX_REBASE_RETRIES, j.rebaseRetries)
    ensures var rounds := Times(n, RED, []); |Chain(j, rounds)| == n && Count(j, rounds, StaleFix) == 0
    decreases n
  {
    if n > 0 {
      RedRounds(RunJob(j, RED).job, n - 1);
      assert Times(n, RED, [])[1..] == Times(n - 1, RED, []);
    }
  }

  lemma {:induction false} StaleThenRed(j: Job, stale: nat)
    requires j.ciFixes == 0 && j.rebaseRetries == 0
    ensures var rounds := Times(stale, RED_AND_STALE, Times(7, RED, []));
      |Chain(j, rounds)| == stale + 7 && Count(j, rounds, StaleFix) == stale
    decreases stale
  {
    if stale == 0 {
      RedRounds(j, 7);
    } else {
      StaleThenRed(RunJob(j, RED_AND_STALE).job, stale - 1);
      var rest := Times(7, RED, []);
      assert Times(stale, RED_AND_STALE, rest)[1..] == Times(stale - 1, RED_AND_STALE, rest);
    }
  }

  lemma {:induction false} PendingFirst(j: Job, n: nat, stale: nat)
    requires n == AtMost(MAX_ATTEMPTS, j.attempt) && j.ciFixes == 0 && j.rebaseRetries == 0
    ensures var rounds := Times(n, PENDING, Times(stale, RED_AND_STALE, Times(7, RED, [])));
      |Chain(j, rounds)| == n + stale + 7 && Count(j, rounds, StaleFix) == stale
    decreases n
  {
    if n == 0 {
      StaleThenRed(j, stale);
    } else {
      PendingFirst(RunJob(j, PENDING).job, n - 1, stale);
      var rest := Times(stale, RED_AND_STALE, Times(7, RED, []));
      assert Times(n, PENDING, rest)[1..] == Times(n - 1, PENDING, rest);
    }
  }

  /** 37 + S is reached for every S: thirty pending rounds, S stale ones, three fixes, the retry, three fixes. */
  lemma ChainBoundIsTight(task: string, stale: nat)
    ensures var rounds := Times(30, PENDING, Times(stale, RED_AND_STALE, Times(7, RED, [])));
      |Chain(FirstJob(task), rounds)| == 37 + stale && Count(FirstJob(task), rounds, StaleFix) == stale
  {
    PendingFirst(FirstJob(task), 30, stale);
  }

  /** Nothing bounds failing-and-stale rounds: a chain of them is as long as the environment likes. */
  lemma {:induction false} StaleRoundsAreUnbounded(j: Job, n: nat)
    requires j.ciFixes < MAX_CI_FIXES
    ensures |Chain(j, Times(n, RED_AND_STALE, []))| == n
    decreases n
  {
    if n > 0 {
      StaleRoundsAreUnbounded(RunJob(j, RED_AND_STALE).job, n - 1);
      assert Times(n, RED_AND_STALE, [])[1..] == Times(n - 1, RED_AND_STALE, []);
    }
  }

  // ----------------------------------------------------------------- job ids

  function Digit(n: nat): char
    requires n < 10
  {
    "0123456789"[n]
  }

  function Decimal(n: nat): (s: string)
    ensures |s| > 0
    ensures forall i :: 0 <= i < |s| ==> s[i] != '-'
  {
    if n < 10 then [Digit(n)] else Decimal(n / 10) + [Digit(n % 10)]
  }

  function JobId(j: Job): string {
    "merge-gate-" + (j.task + "-" + Decimal(j.attempt) + "-" + Decimal(j.ciFixes))
  }

  lemma {:induction false} DecimalInjective(a: nat, b: nat)
    requires Decimal(a) == Decimal(b)
    ensures a == b
  {
    var x, y := Decimal(a), Decimal(b);
    assert x[|x| - 1] == Digit(a % 10) && y[|y| - 1] == Digit(b % 10);
    if a >= 10 && b >= 10 {
      assert x[..|x| - 1] == Decimal(a / 10) && y[..|y| - 1] == Decimal(b / 10);
      DecimalInjective(a / 10, b / 10);
    }
  }

  lemma LastDashSplits(a: string, x: string, b: string, y: string)
    requires a + "-" + x == b + "-" + y
    requires forall i :: 0 <= i < |x| ==> x[i] != '-'
    requires forall i :: 0 <= i < |y| ==> y[i] != '-'
    ensures a == b && x == y
  {
    var s, t := a + "-" + x, b + "-" + y;
    assert s[|a|] == '-' && t[|b|] == '-';
    assert forall i :: |a| < i < |s| ==> s[i] == x[i - |a| - 1];
    assert forall i :: |b| < i < |t| ==> t[i] == y[i - |b| - 1];
    assert s[..|a|] == a && t[..|b|] == b;
    assert s[|a| + 1..] == x && t[|b| + 1..] == y;
  }

  /** A job id determines the task and both counters it carries. */
  lemma JobIdInjective(j: Job, k: Job)
    requires JobId(j) == JobId(k)
    ensures j.task == k.task && j.attempt == k.attempt && j.ciFixes == k.ciFixes
  {
    var prefix := "merge-gate-";
    var s := j.task + "-" + Decimal(j.attempt) + "-" + Decimal(j.ciFixes);
    var t := k.task + "-" + Decimal(k.attempt) + "-" + Decimal(k.ciFixes);
    assert s == JobId(j)[|prefix|..] && t == JobId(k)[|prefix|..];
    LastDashSplits(j.task + "-" + Decimal(j.attempt), Decimal(j.ciFixes),
                   k.task + "-" + Decimal(k.attempt), Decimal(k.ciFixes));
    LastDashSplits(j.task, Decimal(j.attempt), k.task, Decimal(k.attempt));
    DecimalInjective(j.attempt, k.attempt);
    DecimalInjective(j.ciFixes, k.ciFixes);
  }

  lemma {:induction false} AttemptsCount(j: Job, rounds: seq<Round>, i: nat)
    requires i < |Chain(j, rounds)|
    ensures Chain(j, rounds)[i].attempt == j.attempt + 1 + i
    ensures Chain(j, rounds)[i].task == j.task
    decreases |rounds|
  {
    var o := RunJob(j, rounds[0]);
    if i > 0 {
      AttemptsCount(o.job, rounds[1..], i - 1);
    }
  }

  /** No two jobs of a chain share an id, although a rebase retry resets the fix counter. */
  lemma ChainIdsDistinct(j: Job, rounds: seq<Round>)
    ensures var jobs := [j] + Chain(j, rounds);
      forall a, b :: 0 <= a < b < |jobs| ==> JobId(jobs[a]) != JobId(jobs[b])
  {
    var chain := Chain(j, rounds);
    var jobs := [j] + chain;
    forall a, b | 0 <= a < b < |jobs|
      ensures JobId(jobs[a]) != JobId(jobs[b])
    {
      AttemptsCount(j, rounds, b - 1);
      if a > 0 { AttemptsCount(j, rounds, a - 1); }
      if JobId(jobs[a]) == JobId(jobs[b]) { JobIdInjective(jobs[a], jobs[b]); }
    }
  }
}
