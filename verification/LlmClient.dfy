/** The chat-completions request loop: retries with backoff, growing timeouts, and fields dropped after a 400. */
module LlmClient {
  import opened Common

  const MAX_TIMEOUT_SECONDS: nat := 600
  const BACKOFF_BASE_MS: real := 500.0
  const BACKOFF_MAX_MS: real := 10000.0

  function Pow2(n: nat): (r: nat)
    ensures r >= 1
  {
    if n == 0 then 1 else 2 * Pow2(n - 1)
  }

  function CapTimeout(seconds: nat): nat {
    if seconds < MAX_TIMEOUT_SECONDS then seconds else MAX_TIMEOUT_SECONDS
  }

  function TimeoutForAttempt(base: nat, attempt: nat): nat {
    CapTimeout(base * Pow2(attempt))
  }

  /** `retryAfter` is the header when it reads as a number of seconds that is not negative. */
  datatype Reply = NoResponse | Success | HttpError(status: int, retryAfter: Option<real>)

  function CapMs(ms: real): real {
    if ms < BACKOFF_MAX_MS then ms else BACKOFF_MAX_MS
  }

  function BackoffMs(attempt: nat, retryAfter: Option<real>, jitter: real): (ms: real)
    ensures ms <= BACKOFF_MAX_MS
  {
    match retryAfter
    case Some(seconds) => CapMs(seconds * 1000.0)
    case None => CapMs(BACKOFF_BASE_MS * Pow2(attempt) as real + jitter * BACKOFF_BASE_MS)
  }

  /**
    A header is honoured up to the cap. Without one the wait is at least the base
    doubled per attempt and at most twice that, so waits never shrink from one
    attempt to the next, whatever the jitter.
   */
  lemma BackoffGrows(attempt: nat, jitter: real, nextJitter: real, seconds: real)
    requires 0.0 <= jitter < 1.0 && 0.0 <= nextJitter < 1.0
    ensures BackoffMs(attempt, Some(seconds), jitter) == if seconds < 10.0 then 1000.0 * seconds else 10000.0
    ensures var ms, base := BackoffMs(attempt, None, jitter), 500.0 * Pow2(attempt) as real;
      ms <= 10000.0 && ms <= 2.0 * base && (base <= 10000.0 ==> base <= ms) && (base > 10000.0 ==> ms == 10000.0)
    ensures BackoffMs(attempt, None, jitter) <= BackoffMs(attempt + 1, None, nextJitter)
  {
    assert Pow2(attempt + 1) == 2 * Pow2(attempt);
    var p := Pow2(attempt) as real;
    assert p >= 1.0 && Pow2(attempt + 1) as real == 2.0 * p;
  }

  predicate IsRetryable(status: int) {
    status == 429 || status >= 500
  }

  /** One request as sent. */
  datatype Fetch = Fetch(effort: bool, temperature: bool, timeout: nat)

  datatype Outcome = Answered | NetworkFailure | HttpFailure(status: int)

  predicate Is400(r: Reply) {
    r.HttpError? && r.status == 400
  }

  /** How many of the first `n` replies were a 400. */
  function Count400(replies: nat -> Reply, n: nat): nat {
    if n == 0 then 0 else Count400(replies, n - 1) + (if Is400(replies(n - 1)) then 1 else 0)
  }

  function Flag(b: bool): nat {
    if b then 1 else 0
  }

  /** The request that follows `n` replies: the first 400 drops the effort if sent, the next one the temperature. */
  function FetchAfter(replies: nat -> Reply, n: nat, effort: bool, temperature: bool, base: nat): Fetch {
    Fetch(effort && Count400(replies, n) == 0,
          temperature && Count400(replies, n) <= Flag(effort),
          TimeoutForAttempt(base, n))
  }

  /** Reply `n` does not end the loop: it is retried, or answered by dropping a field. */
  predicate Absorbed(replies: nat -> Reply, n: nat, maxRetries: nat, effort: bool, temperature: bool) {
    match replies(n)
    case Success => false
    case NoResponse => n < maxRetries
    case HttpError(status, _) =>
      || (status == 400 && Count400(replies, n) < Flag(effort) + Flag(temperature))
      || (IsRetryable(status) && n < maxRetries)
  }

  function OutcomeOf(r: Reply): Outcome {
    match r
    case Success => Answered
    case NoResponse => NetworkFailure
    case HttpError(status, _) => HttpFailure(status)
  }

  /** The first `n` replies are all absorbed. */
  ghost predicate AllAbsorbed(replies: nat -> Reply, n: nat, maxRetries: nat, effort: bool, temperature: bool) {
    n == 0 || (AllAbsorbed(replies, n - 1, maxRetries, effort, temperature)
               && Absorbed(replies, n - 1, maxRetries, effort, temperature))
  }

  /** The first `n` requests. */
  function Fetches(replies: nat -> Reply, n: nat, effort: bool, temperature: bool, base: nat): (r: seq<Fetch>)
    ensures |r| == n
  {
    if n == 0 then []
    else Fetches(replies, n - 1, effort, temperature, base)
         + [FetchAfter(replies, n - 1, effort, temperature, base)]
  }

  lemma {:induction false} Pow2Grows(i: nat, j: nat)
    requires i <= j
    ensures Pow2(i) <= Pow2(j)
  {
    if i < j { Pow2Grows(i, j - 1); }
  }

  /** Later attempts never get less time, and none gets more than ten minutes. */
  lemma TimeoutsNeverShrink(base: nat, i: nat, j: nat)
    requires i <= j
    ensures TimeoutForAttempt(base, i) <= TimeoutForAttempt(base, j) <= MAX_TIMEOUT_SECONDS
  {
    Pow2Grows(i, j);
    Scale(base, Pow2(i), Pow2(j));
  }

  /** Each attempt gets twice the time of the one before, up to ten minutes. */
  lemma TimeoutDoubles(base: nat, n: nat)
    ensures TimeoutForAttempt(base, 0) == if base < 600 then base else 600
    ensures var now, next := TimeoutForAttempt(base, n), TimeoutForAttempt(base, n + 1);
      next == if 2 * now < 600 then 2 * now else 600
  {
    assert base * Pow2(n + 1) == 2 * (base * Pow2(n));
  }

  lemma Scale(base: nat, a: nat, b: nat)
    requires a <= b
    ensures base * a <= base * b
  {
  }

  /** Each field is dropped at most once and for good, the temperature only once the effort is gone. */
  lemma {:induction false} FieldsDropOnce(replies: nat -> Reply, i: nat, j: nat,
                                          effort: bool, temperature: bool, base: nat)
    requires i <= j
    ensures var a := FetchAfter(replies, i, effort, temperature, base);
      var b := FetchAfter(replies, j, effort, temperature, base);
      (b.effort ==> a.effort) && (b.temperature ==> a.temperature) && (temperature && !a.temperature ==> !a.effort)
    ensures Count400(replies, i) <= Count400(replies, j)
    decreases j - i
  {
    if i < j { FieldsDropOnce(replies, i, j - 1, effort, temperature, base); }
  }

  /** A run of absorbed replies is no longer than the retries and the dropped fields together. */
  lemma {:induction false} AbsorbedBound(replies: nat -> Reply, n: nat, maxRetries: nat,
                                         effort: bool, temperature: bool)
    requires AllAbsorbed(replies, n, maxRetries, effort, temperature)
    ensures Count400(replies, n) <= Flag(effort) + Flag(temperature)
    ensures n <= maxRetries + Count400(replies, n)
  {
    if n > 0 {
      AbsorbedBound(replies, n - 1, maxRetries, effort, temperature);
    }
  }

  /** Absorbed are: no response, 429 and 5xx while retries last, 400 while a field can go. */
  lemma AbsorbedExact(replies: nat -> Reply, n: nat, maxRetries: nat, effort: bool, temperature: bool)
    ensures Absorbed(replies, n, maxRetries, effort, temperature) <==>
      match replies(n)
      case Success => false
      case NoResponse => n < maxRetries
      case HttpError(status, _) =>
        || ((status == 429 || status >= 500) && n < maxRetries)
        || (status == 400 && Count400(replies, n) < (if effort then 1 else 0) + (if temperature then 1 else 0))
  {
  }

  /** The wait after an absorbed reply, if it is retried rather than answered by dropping a field. */
  function WaitAfter(replies: nat -> Reply, n: nat, jitter: nat -> real): seq<real> {
    match replies(n)
    case Success => []
    case NoResponse => [BackoffMs(n, None, jitter(n))]
    case HttpError(status, retryAfter) => if status == 400 then [] else [BackoffMs(n, retryAfter, jitter(n))]
  }

  /** The waits between the first `n` requests and the next. */
  function Waits(replies: nat -> Reply, n: nat, jitter: nat -> real): seq<real> {
    if n == 0 then [] else Waits(replies, n - 1, jitter) + WaitAfter(replies, n - 1, jitter)
  }

  datatype Verdict = Retry(retryAfter: Option<real>) | DropEffort | DropTemperature | Stop(outcome: Outcome)

  /** What one reply leads to, given the fields still being sent. */
  function Decide(reply: Reply, attempt: nat, maxRetries: nat, effort: bool, temperature: bool): Verdict {
    match reply
    case NoResponse => if attempt < maxRetries then Retry(None) else Stop(NetworkFailure)
    case Success => Stop(Answered)
    case HttpError(status, retryAfter) =>
      if status == 400 && effort then DropEffort
      else if status == 400 && temperature then DropTemperature
      else if IsRetryable(status) && attempt < maxRetries then Retry(retryAfter)
      else Stop(HttpFailure(status))
  }

  /** The verdict seen from outside: which replies are absorbed and which fields remain. */
  lemma DecideMeans(replies: nat -> Reply, n: nat, maxRetries: nat, effort: bool, temperature: bool)
    requires Count400(replies, n) <= Flag(effort) + Flag(temperature)
    ensures var e, t := effort && Count400(replies, n) == 0, temperature && Count400(replies, n) <= Flag(effort);
      var e', t' := effort && Count400(replies, n + 1) == 0, temperature && Count400(replies, n + 1) <= Flag(effort);
      var v := Decide(replies(n), n, maxRetries, e, t);
      && (v.Stop? <==> !Absorbed(replies, n, maxRetries, effort, temperature))
      && (v.Stop? ==> v.outcome == OutcomeOf(replies(n)))
      && (v.Retry? ==> n < maxRetries && !Is400(replies(n)) && !replies(n).Success?)
      && (v.Retry? ==> v.retryAfter == if replies(n).NoResponse? then None else replies(n).retryAfter)
      && (v.DropEffort? || v.DropTemperature? ==> Is400(replies(n)))
      && (!v.Stop? ==> e' == (e && v != DropEffort) && t' == (t && v != DropTemperature))
  {
  }

  ghost predicate ShortSleeps(sleeps: seq<real>, maxRetries: nat) {
    |sleeps| <= maxRetries && forall i :: 0 <= i < |sleeps| ==> sleeps[i] <= 10000.0
  }

  /** Waits are few and short: only the first `maxRetries` replies can be retried. */
  lemma {:induction false} WaitsAreShort(replies: nat -> Reply, n: nat, maxRetries: nat,
                                         effort: bool, temperature: bool, jitter: nat -> real)
    requires AllAbsorbed(replies, n, maxRetries, effort, temperature)
    ensures var waits := Waits(replies, n, jitter); ShortSleeps(waits, maxRetries) && |waits| <= n
  {
    if n > 0 {
      WaitsAreShort(replies, n - 1, maxRetries, effort, temperature, jitter);
    }
  }

  /**
    The loop ends at the first reply that is not absorbed, after at most one
    fetch more than retries and droppable fields together allow; it sleeps at
    most `maxRetries` times, each time at most ten seconds.
   */
  method RunRequestLoop(maxRetries: nat, base: nat, effort: bool, temperature: bool,
                        replies: nat -> Reply, jitter: nat -> real)
    returns (outcome: Outcome, fetches: seq<Fetch>, sleeps: seq<real>)
    ensures 1 <= |fetches| <= maxRetries + Flag(effort) + Flag(temperature) + 1
    ensures fetches == Fetches(replies, |fetches|, effort, temperature, base)
    ensures AllAbsorbed(replies, |fetches| - 1, maxRetries, effort, temperature)
    ensures !Absorbed(replies, |fetches| - 1, maxRetries, effort, temperature)
    ensures outcome == OutcomeOf(replies(|fetches| - 1))
    ensures ShortSleeps(sleeps, maxRetries) && sleeps == Waits(replies, |fetches| - 1, jitter)
  {
    var includeEffort, includeTemperature := effort, temperature;
    var attempt := 0;
    fetches, sleeps := [], [];
    while true
      invariant fetches == Fetches(replies, attempt, effort, temperature, base)
      invariant AllAbsorbed(replies, attempt, maxRetries, effort, temperature)
      invariant includeEffort == (effort && Count400(replies, attempt) == 0)
      invariant includeTemperature == (temperature && Count400(replies, attempt) <= Flag(effort))
      invariant sleeps == Waits(replies, attempt, jitter)
      decreases maxRetries + 3 - attempt
    {
      AbsorbedBound(replies, attempt, maxRetries, effort, temperature);
      DecideMeans(replies, attempt, maxRetries, effort, temperature);
      fetches := fetches + [Fetch(includeEffort, includeTemperature, TimeoutForAttempt(base, attempt))];
      match Decide(replies(attempt), attempt, maxRetries, includeEffort, includeTemperature) {
        case Stop(o) =>
          WaitsAreShort(replies, attempt, maxRetries, effort, temperature, jitter);
          outcome := o;
          break;
        case DropEffort => includeEffort := false;
        case DropTemperature => includeTemperature := false;
        case Retry(retryAfter) => sleeps := sleeps + [BackoffMs(attempt, retryAfter, jitter(attempt))];
      }
      attempt := attempt + 1;
    }
  }
}
