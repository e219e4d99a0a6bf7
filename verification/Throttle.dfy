/** The requests-per-minute throttle: a minimum interval between the starts of sequential calls. */
module Throttle {

  const WINDOW_MS: int := 60_000

  function CallsAllowed(requestsPerMinute: int): (r: nat)
    ensures r >= 1
  {
    if requestsPerMinute < 1 then 1 else requestsPerMinute
  }

  /** 60 000 divided by the calls allowed, rounded up. */
  function MinCallIntervalMs(requestsPerMinute: int): nat {
    (WINDOW_MS + CallsAllowed(requestsPerMinute) - 1) / CallsAllowed(requestsPerMinute)
  }

  function ThrottleDelayMs(lastStart: int, interval: nat, now: int): nat {
    if lastStart <= 0 then 0
    else if now - lastStart < interval then interval - (now - lastStart)
    else 0
  }

  /** A call reads the clock, sleeps, and records the clock again; a config switch forgets the last start. */
  datatype Op = Call(now: int, recorded: int) | Switch(requestsPerMinute: int)

  /** `starts` are those recorded since the last switch. */
  datatype State = State(requestsPerMinute: int, lastStart: int, starts: seq<int>)

  function Apply(s: State, op: Op): State {
    match op
    case Call(_, recorded) => s.(lastStart := recorded, starts := s.starts + [recorded])
    case Switch(rpm) => State(rpm, 0, [])
  }

  /** The clock is positive and never steps back, and a sleep is not shorter than asked. */
  predicate ClockOk(s: State, op: Op) {
    op.Call? ==>
      && 0 < op.now && s.lastStart <= op.now
      && op.recorded >= op.now + ThrottleDelayMs(s.lastStart, MinCallIntervalMs(s.requestsPerMinute), op.now)
  }

  ghost predicate ClockOkThroughout(s: State, ops: seq<Op>)
    decreases |ops|
  {
    ops == [] || (ClockOk(s, ops[0]) && ClockOkThroughout(Apply(s, ops[0]), ops[1..]))
  }

  function Run(s: State, ops: seq<Op>): State
    decreases |ops|
  {
    if ops == [] then s else Run(Apply(s, ops[0]), ops[1..])
  }

  ghost predicate Spaced(starts: seq<int>, interval: nat) {
    forall i :: 0 <= i < |starts| - 1 ==> starts[i + 1] - starts[i] >= interval
  }

  ghost predicate Inv(s: State) {
    && Spaced(s.starts, MinCallIntervalMs(s.requestsPerMinute))
    && s.lastStart == (if s.starts == [] then 0 else s.starts[|s.starts| - 1])
    && (s.starts != [] ==> s.lastStart > 0)
  }

  lemma {:induction false} RunKeepsSpacing(s: State, ops: seq<Op>)
    requires Inv(s) && ClockOkThroughout(s, ops)
    ensures Inv(Run(s, ops))
    decreases |ops|
  {
    if ops != [] {
      RunKeepsSpacing(Apply(s, ops[0]), ops[1..]);
    }
  }

  lemma {:induction false} RunAppend(s: State, a: seq<Op>, b: seq<Op>)
    ensures Run(s, a + b) == Run(Run(s, a), b)
    ensures ClockOkThroughout(s, a + b) <==> ClockOkThroughout(s, a) && ClockOkThroughout(Run(s, a), b)
    decreases |a|
  {
    if a == [] {
      assert a + b == b;
    } else {
      RunAppend(Apply(s, a[0]), a[1..], b);
      assert (a + b)[1..] == a[1..] + b;
    }
  }

  /** What one call adds: its start, and a switch if it left another last start behind. */
  function CallOps(now: int, started: int, lastStart: int, requestsPerMinute: int): seq<Op> {
    if lastStart == started then [Call(now, started)] else [Call(now, started), Switch(requestsPerMinute)]
  }

  lemma CallTracked(s: State, now: int, started: int, lastStart: int, requestsPerMinute: int)
    requires ClockOk(s, Call(now, started))
    requires lastStart == 0 < started || (lastStart == started && requestsPerMinute == s.requestsPerMinute)
    ensures var ops := CallOps(now, started, lastStart, requestsPerMinute);
      && ClockOkThroughout(s, ops)
      && Run(s, ops).lastStart == lastStart && Run(s, ops).requestsPerMinute == requestsPerMinute
  {
    var call := Apply(s, Call(now, started));
    assert [Call(now, started)][1..] == [];
    assert Run(call, []) == call;
    if lastStart != started {
      var switch := Switch(requestsPerMinute);
      assert [Call(now, started), switch][1..] == [switch] && [switch][1..] == [];
      assert Run(call, [switch]) == Apply(call, switch);
    }
  }

  /** Recorded starts in the half-open minute from `t`. */
  function CountFrom(starts: seq<int>, t: int): nat
    decreases |starts|
  {
    if starts == [] then 0
    else
      var last := starts[|starts| - 1];
      CountFrom(starts[..|starts| - 1], t) + (if t <= last < t + WINDOW_MS then 1 else 0)
  }

  lemma {:induction false} Apart(starts: seq<int>, interval: nat, i: nat, j: nat)
    requires Spaced(starts, interval) && i <= j < |starts|
    ensures starts[j] - starts[i] >= (j - i) * interval
    decreases j - i
  {
    if i < j {
      Apart(starts, interval, i, j - 1);
      assert (j - i) * interval == (j - 1 - i) * interval + interval;
    }
  }

  /** The counted starts lie between a first and a last one inside the window. */
  lemma {:induction false} CountSpan(starts: seq<int>, t: int) returns (first: nat, last: nat)
    requires CountFrom(starts, t) > 0
    ensures first <= last < |starts|
    ensures t <= starts[first] < t + WINDOW_MS && t <= starts[last] < t + WINDOW_MS
    ensures CountFrom(starts, t) <= last - first + 1
    decreases |starts|
  {
    var n := |starts| - 1;
    var init := starts[..n];
    if t <= starts[n] < t + WINDOW_MS {
      if CountFrom(init, t) == 0 {
        first, last := n, n;
      } else {
        first, last := CountSpan(init, t);
        last := n;
      }
    } else {
      first, last := CountSpan(init, t);
    }
  }

  lemma IntervalCoversWindow(requestsPerMinute: int)
    ensures CallsAllowed(requestsPerMinute) * MinCallIntervalMs(requestsPerMinute) >= WINDOW_MS
  {
  }

  lemma MoreStepsMoreTime(a: nat, b: nat, d: nat)
    requires a >= b
    ensures a * d >= b * d
  {
  }

  /** Between switches, no minute holds more recorded starts than the config allows. */
  lemma AtMostRpmPerMinute(s: State, ops: seq<Op>, t: int)
    requires Inv(s) && ClockOkThroughout(s, ops)
    ensures CountFrom(Run(s, ops).starts, t) <= CallsAllowed(Run(s, ops).requestsPerMinute)
  {
    RunKeepsSpacing(s, ops);
    var r := Run(s, ops);
    var allowed, interval := CallsAllowed(r.requestsPerMinute), MinCallIntervalMs(r.requestsPerMinute);
    if CountFrom(r.starts, t) > 0 {
      var first, last := CountSpan(r.starts, t);
      Apart(r.starts, interval, first, last);
      IntervalCoversWindow(r.requestsPerMinute);
      if last - first >= allowed {
        MoreStepsMoreTime(last - first, allowed, interval);
      }
    }
  }

  /** The interval is the least that keeps to the rate, and the wait the least that keeps to the interval. */
  lemma DelayExact(lastStart: int, requestsPerMinute: int, now: int)
    ensures var interval := MinCallIntervalMs(requestsPerMinute);
      var allowed := if requestsPerMinute < 1 then 1 else requestsPerMinute;
      && (interval - 1) * allowed < 60_000 <= interval * allowed
      && now + ThrottleDelayMs(lastStart, interval, now)
         == if lastStart > 0 && lastStart + interval > now then lastStart + interval else now
  {
    var r := CallsAllowed(requestsPerMinute);
    var n := WINDOW_MS + r - 1;
    assert n == (n / r) * r + n % r;
    IntervalCoversWindow(requestsPerMinute);
    assert (n / r - 1) * r == (n / r) * r - r;
    assert (n / r) * r == r * (n / r);
  }
}
