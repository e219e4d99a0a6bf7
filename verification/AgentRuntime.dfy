/**
  The LLM runtime as the object the agent loop mutates: throttle, pending model
  switch, metering and failover, each method refining its value-level
  counterpart, the whole call refining `LlmFailover.Run`, and a sequence of
  calls refining the runs of `LlmRuns` and `Throttle`.
 */
module AgentRuntime {
  import opened Common
  import F = LlmFailover
  import T = Throttle
  import R = LlmRuns

  class LlmRuntime {
    const ctx: F.Ctx
    var cfg: F.Config
    var usedTokens: int
    var usedPrompt: int
    var usedCompletion: int
    var lastStart: int
    var tried: seq<string>
    /** The task row's config id, which the run reads and promotions write. */
    var taskConfig: Option<string>

    ghost function View(): F.Runtime
      reads this
    {
      F.Runtime(cfg, usedTokens, usedPrompt, usedCompletion, lastStart, tried, taskConfig)
    }

    constructor (ctx: F.Ctx, cfg: F.Config, seed: F.Bill, taskConfig: Option<string>)
      ensures this.ctx == ctx
      ensures View() == F.Runtime(cfg, seed.total, seed.prompt, seed.completion, 0, [], taskConfig)
    {
      this.ctx, this.cfg, this.taskConfig := ctx, cfg, taskConfig;
      usedTokens, usedPrompt, usedCompletion := seed.total, seed.prompt, seed.completion;
      lastStart, tried := 0, [];
    }

    /** Waits out the interval and records the clock, which reads `late` more than the sleep asked for. */
    method Throttle(now: int, late: nat)
      modifies this`lastStart
      ensures lastStart >= now
      ensures 0 < now && old(lastStart) <= now ==>
        T.ClockOk(T.State(cfg.requestsPerMinute, old(lastStart), []), T.Call(now, lastStart))
    {
      var delay := T.ThrottleDelayMs(lastStart, T.MinCallIntervalMs(cfg.requestsPerMinute), now);
      lastStart := now + delay + late;
    }

    method SwitchRuntimeConfig(next: F.Config)
      modifies this`cfg, this`lastStart
      ensures View() == F.SwitchConfig(old(View()), next)
    {
      cfg := next;
      lastStart := 0;
    }

    method ApplyPendingModelSwitch(switchable: bool)
      modifies this`cfg, this`lastStart
      ensures View() == F.ApplyPendingSwitch(ctx, old(View()), switchable)
    {
      if !ctx.hasTask || !ctx.hasUser { return; }
      if taskConfig.None? || taskConfig.value == cfg.id { return; }
      var i := F.ConfigIndex(ctx.configs, taskConfig.value);
      if i == |ctx.configs| || !switchable { return; }
      SwitchRuntimeConfig(ctx.configs[i]);
    }

    method AttemptLlmCall(env: F.Env) returns (dial: F.Dial, result: F.Result)
      modifies this
      ensures F.Attempted(View(), dial, result) == F.Attempt(ctx, old(View()), env)
    {
      ApplyPendingModelSwitch(env.switchable);
      dial := F.Dial(cfg.id, None);
      if env.reply.EndpointError? { return dial, F.LlmError; }
      if env.reply.OtherFailure? { return dial, F.OtherError; }
      var bill := F.BillOf(env.reply);
      dial := F.Dial(cfg.id, Some(bill));
      usedTokens := usedTokens + bill.total;
      usedPrompt := usedPrompt + bill.prompt;
      usedCompletion := usedCompletion + bill.completion;
      if cfg.maxTokensPerRun.Some? && usedTokens > cfg.maxTokensPerRun.value { return dial, F.BudgetError; }
      if cfg.maxCostUsd.Some? {
        var cost := (usedPrompt as real / 1000000.0) * F.Price(cfg.inputPrice)
                    + (usedCompletion as real / 1000000.0) * F.Price(cfg.outputPrice);
        if cost > cfg.maxCostUsd.value { return dial, F.BudgetError; }
      }
      result := if env.reply.blank then F.LlmError else F.Text;
    }

    /** Result: None when another config took over, else how the call ends. */
    method PromoteFailoverConfig(env: F.Env) returns (done: Option<F.Result>)
      modifies this`cfg, this`lastStart, this`tried, this`taskConfig
      ensures match F.PromoteFailoverConfig(ctx, old(View()), env)
        case Promoted(next) => View() == next && done == None
        case NothingLeft(next) => View() == next && done == Some(F.LlmError)
        case NoKey(next) => View() == next && done == Some(F.OtherError)
    {
      tried := tried + [cfg.id];
      var candidates := F.FindFailoverConfigs(ctx.configs, tried, env.healthy);
      ghost var start := View();
      var k := 0;
      while k < |candidates|
        invariant 0 <= k <= |candidates|
        invariant F.TakeFirstSafe(ctx, View(), candidates[k..], env) == F.TakeFirstSafe(ctx, start, candidates, env)
      {
        var candidate := candidates[k];
        if candidate.id !in env.safe {
          tried := tried + [candidate.id];
          assert candidates[k..][1..] == candidates[k + 1..];
          k := k + 1;
        } else if !env.keyOk {
          return Some(F.OtherError);
        } else {
          SwitchRuntimeConfig(candidate);
          if ctx.hasTask && env.persisted { taskConfig := Some(candidate.id); }
          return None;
        }
      }
      done := Some(F.LlmError);
    }

    method OneRound(env: F.Env) returns (dial: F.Dial, done: Option<F.Result>)
      modifies this
      ensures F.RoundOut(View(), dial, done) == F.Round(ctx, old(View()), env)
    {
      var result;
      dial, result := AttemptLlmCall(env);
      if result != F.LlmError || !ctx.hasUser { return dial, Some(result); }
      done := PromoteFailoverConfig(env);
    }

    /**
      The endless retry loop, watched for `limit` rounds: it refines
      `LlmFailover.Run` over the rounds it used. Unless the task row switches it
      back onto a config tried before, it dials no config twice and is over once
      it has had one round more than there are enabled configs left to try.
     */
    method LlmCallWithFailover(env: nat -> F.Env, limit: nat)
      returns (done: Option<F.Result>, rounds: nat, ghost dials: seq<F.Dial>)
      modifies this
      ensures F.RunOut(View(), dials, done) == F.Run(ctx, old(View()), F.Rounds(env, rounds))
      ensures |dials| == rounds <= limit && (done.None? ==> rounds == limit)
      ensures var left := F.LeftIds(ctx.configs, F.Ids(old(tried)));
        !F.BouncesLater(ctx, old(View()), F.Rounds(env, rounds)) ==>
          && F.DistinctDials(dials) && |dials| <= 1 + |left|
          && (limit > |left| ==> done.Some?)
    {
      ghost var start := View();
      done, rounds, dials := None, 0, [];
      while done.None? && rounds < limit
        invariant F.Run(ctx, start, F.Rounds(env, rounds)) == F.RunOut(View(), dials, done)
        invariant |dials| == rounds <= limit
      {
        var dial;
        dial, done := OneRound(env(rounds));
        F.RunSnoc(ctx, start, F.Rounds(env, rounds), env(rounds));
        dials := dials + [dial];
        rounds := rounds + 1;
      }
      if !F.BouncesLater(ctx, start, F.Rounds(env, rounds)) {
        F.AttemptsBound(ctx, start, F.Rounds(env, rounds));
      }
    }

    /** One throttled call. */
    method LlmCall(now: int, late: nat, env: nat -> F.Env, limit: nat)
      returns (done: Option<F.Result>, rounds: nat, started: int)
      modifies this
      ensures 0 < now && old(lastStart) <= now ==>
        T.ClockOk(T.State(old(cfg).requestsPerMinute, old(lastStart), []), T.Call(now, started))
      ensures var r := F.Run(ctx, old(View()).(lastStart := started), F.Rounds(env, rounds));
        r.rt == View() && r.done == done && |r.dials| == rounds
      ensures started >= now
      ensures done == Some(F.Text) ==> !F.OverACap(cfg, usedTokens, usedPrompt, usedCompletion)
    {
      Throttle(now, late);
      started := lastStart;
      ghost var start := View();
      ghost var dials;
      done, rounds, dials := LlmCallWithFailover(env, limit);
      F.BudgetEndsTheCall(ctx, start, F.Rounds(env, rounds));
    }

    ghost predicate Tracks(s: T.State)
      reads this
    {
      s.requestsPerMinute == cfg.requestsPerMinute && s.lastStart == lastStart
    }

    /** One call as a stretch of both histories. */
    method TrackedCall(now: int, late: nat, env: nat -> F.Env, limit: nat, ghost s: T.State)
      returns (done: Option<F.Result>, started: int, ghost ops: seq<T.Op>, ghost steps: seq<R.Step>)
      requires Tracks(s) && 0 < now && lastStart <= now
      modifies this
      ensures T.ClockOkThroughout(s, ops) && Tracks(T.Run(s, ops))
      ensures R.Roll(ctx, old(View()), steps).rt == View()
      ensures now <= started && lastStart <= started
    {
      ghost var before := View();
      var rounds;
      done, rounds, started := LlmCall(now, late, env, limit);
      ops := T.CallOps(now, started, lastStart, cfg.requestsPerMinute);
      steps := [R.Start(started)] + R.Tries(F.Rounds(env, rounds));
      ghost var throttled := before.(lastStart := started);
      F.SwitchResetsThrottle(ctx, throttled, F.Rounds(env, rounds));
      T.CallTracked(s, now, started, lastStart, cfg.requestsPerMinute);
      R.StartedCall(ctx, before, started, F.Rounds(env, rounds));
    }

    /**
      Calls one after the other on a fresh runtime, each `gaps[k]` after the last
      start. Between switches no minute holds more starts than the config allows,
      and no failed config is dialled again while `LlmRuns` guards are met.
     */
    method LlmCalls(first: int, gaps: seq<nat>, lates: nat -> nat, env: nat -> nat -> F.Env, limit: nat)
      returns (made: nat, ghost ops: seq<T.Op>, ghost steps: seq<R.Step>)
      requires 0 < first && lastStart == 0
      modifies this
      ensures made <= |gaps|
      ensures var s := T.State(old(cfg).requestsPerMinute, 0, []);
        && T.ClockOkThroughout(s, ops) && Tracks(T.Run(s, ops))
        && forall t :: T.CountFrom(T.Run(s, ops).starts, t) <= T.CallsAllowed(cfg.requestsPerMinute)
      ensures var r := R.Roll(ctx, old(View()), steps);
        && r.rt == View()
        && (R.NeverRetries(r.tries) <==> R.MayDialThroughout(ctx, old(View()), steps, {}, false))
    {
      ghost var start, s := View(), T.State(cfg.requestsPerMinute, 0, []);
      var clock := first;
      made, ops, steps := 0, [], [];
      var going := true;
      while going && made < |gaps|
        invariant 0 < clock && lastStart <= clock && made <= |gaps|
        invariant T.ClockOkThroughout(s, ops) && Tracks(T.Run(s, ops))
        invariant R.Roll(ctx, start, steps).rt == View()
        decreases |gaps| - made, going
      {
        ghost var moreOps, moreSteps;
        var done, started;
        done, started, moreOps, moreSteps :=
          TrackedCall(clock + gaps[made], lates(made), env(made), limit, T.Run(s, ops));
        T.RunAppend(s, ops, moreOps);
        R.RollAppend(ctx, start, steps, moreSteps);
        ops, steps := ops + moreOps, steps + moreSteps;
        clock, going, made := started, done.Some?, made + 1;
      }
      forall t
        ensures T.CountFrom(T.Run(s, ops).starts, t) <= T.CallsAllowed(cfg.requestsPerMinute)
      {
        T.AtMostRpmPerMinute(s, ops, t);
      }
      R.FailedNeverRetriedExact(ctx, start, steps);
    }
  }
}
