/**
  One LLM call with cross-config failover: the pending model switch before each
  attempt, metering and budget of the attempt, and the promotion of the next
  config after a failure. What endpoints, registry and database answer in one
  round is an input of that round.
 */
module LlmFailover {
  import opened Common

  datatype Config = Config(id: string, enabled: bool, requestsPerMinute: int, maxTokensPerRun: Option<int>,
                           maxCostUsd: Option<real>, inputPrice: Option<real>, outputPrice: Option<real>)

  datatype Usage = Usage(promptTokens: nat, completionTokens: nat, totalTokens: nat)

  /** `blank`: only white space and no tool calls. */
  datatype Reply =
    | EndpointError
    | OtherFailure
    | Answer(promptChars: nat, completionChars: nat, usage: Option<Usage>, blank: bool)

  /** `switchable`: a pending switch finds a safe address and a key; the rest answers a promotion. */
  datatype Env = Env(switchable: bool, reply: Reply, healthy: set<string>, safe: set<string>,
                     keyOk: bool, persisted: bool)

  /** The user's configs in failover order, and whether the call has an owning user and a task. */
  datatype Ctx = Ctx(configs: seq<Config>, hasUser: bool, hasTask: bool)

  /** The runtime, with the task row's config id beside it. */
  datatype Runtime = Runtime(cfg: Config, usedTokens: int, usedPrompt: int, usedCompletion: int,
                             lastStart: int, tried: seq<string>, taskConfig: Option<string>)

  datatype Result = Text | LlmError | BudgetError | OtherError

  // ---------------------------------------------------------------- metering

  datatype Bill = Bill(total: nat, prompt: nat, completion: nat)

  function CeilQuarter(n: nat): nat {
    (n + 3) / 4
  }

  function BillOf(reply: Reply): Bill
    requires reply.Answer?
  {
    match reply.usage
    case Some(u) => Bill(u.totalTokens, u.promptTokens, u.completionTokens)
    case None => Bill(CeilQuarter(reply.promptChars + reply.completionChars),
                      CeilQuarter(reply.promptChars), CeilQuarter(reply.completionChars))
  }

  predicate WithinBudget(rt: Runtime) {
    rt.cfg.maxTokensPerRun.None? || rt.usedTokens <= rt.cfg.maxTokensPerRun.value
  }

  function Price(p: Option<real>): real {
    if p.Some? then p.value else 0.0
  }

  predicate WithinCost(rt: Runtime) {
    rt.cfg.maxCostUsd.None? ||
    (rt.usedPrompt as real / 1000000.0) * Price(rt.cfg.inputPrice)
    + (rt.usedCompletion as real / 1000000.0) * Price(rt.cfg.outputPrice) <= rt.cfg.maxCostUsd.value
  }

  function Meter(rt: Runtime, bill: Bill): Runtime {
    rt.(usedTokens := rt.usedTokens + bill.total,
        usedPrompt := rt.usedPrompt + bill.prompt,
        usedCompletion := rt.usedCompletion + bill.completion)
  }

  // ---------------------------------------------------------------- one round

  function ConfigIndex(configs: seq<Config>, id: string): (i: nat)
    ensures i <= |configs|
    ensures i < |configs| ==> configs[i].id == id && configs[i].enabled
    ensures forall j :: 0 <= j < i ==> !(configs[j].id == id && configs[j].enabled)
  {
    if configs == [] then 0
    else if configs[0].id == id && configs[0].enabled then 0
    else 1 + ConfigIndex(configs[1..], id)
  }

  function SwitchConfig(rt: Runtime, cfg: Config): Runtime {
    rt.(cfg := cfg, lastStart := 0)
  }

  function ApplyPendingSwitch(ctx: Ctx, rt: Runtime, switchable: bool): Runtime {
    if !ctx.hasTask || !ctx.hasUser || rt.taskConfig.None? || rt.taskConfig.value == rt.cfg.id then rt
    else
      var i := ConfigIndex(ctx.configs, rt.taskConfig.value);
      if i < |ctx.configs| && switchable then SwitchConfig(rt, ctx.configs[i]) else rt
  }

  /** One dialled request: which config, and what it was billed if it answered. */
  datatype Dial = Dial(id: string, bill: Option<Bill>)

  datatype Attempted = Attempted(rt: Runtime, dial: Dial, result: Result)

  function Attempt(ctx: Ctx, rt: Runtime, env: Env): Attempted {
    var on := ApplyPendingSwitch(ctx, rt, env.switchable);
    match env.reply
    case EndpointError => Attempted(on, Dial(on.cfg.id, None), LlmError)
    case OtherFailure => Attempted(on, Dial(on.cfg.id, None), OtherError)
    case Answer(_, _, _, blank) =>
      var metered := Meter(on, BillOf(env.reply));
      Attempted(metered, Dial(on.cfg.id, Some(BillOf(env.reply))),
                if !WithinBudget(metered) || !WithinCost(metered) then BudgetError
                else if blank then LlmError
                else Text)
  }

  /** Enabled configs not tried yet, in order. */
  function Untried(configs: seq<Config>, tried: seq<string>): (r: seq<Config>)
    ensures forall i :: 0 <= i < |r| ==> r[i] in configs && r[i].enabled && r[i].id !in tried
  {
    if configs == [] then []
    else (if configs[0].enabled && configs[0].id !in tried then [configs[0]] else []) + Untried(configs[1..], tried)
  }

  function Healthy(cs: seq<Config>, healthy: set<string>): (r: seq<Config>)
    ensures forall i :: 0 <= i < |r| ==> r[i] in cs
  {
    if cs == [] then []
    else (if cs[0].id in healthy then [cs[0]] else []) + Healthy(cs[1..], healthy)
  }

  /** Parked configs are skipped unless every candidate is parked. */
  function FindFailoverConfigs(configs: seq<Config>, tried: seq<string>, healthy: set<string>): seq<Config> {
    var cs := Untried(configs, tried);
    var ok := Healthy(cs, healthy);
    if ok != [] then ok else cs
  }

  datatype Promotion = Promoted(rt: Runtime) | NothingLeft(rt: Runtime) | NoKey(rt: Runtime)

  /** Walk the candidates: unsafe ones are marked tried, the first safe one takes over. */
  function TakeFirstSafe(ctx: Ctx, rt: Runtime, cs: seq<Config>, env: Env): Promotion
    decreases |cs|
  {
    if cs == [] then NothingLeft(rt)
    else if cs[0].id !in env.safe then TakeFirstSafe(ctx, rt.(tried := rt.tried + [cs[0].id]), cs[1..], env)
    else if !env.keyOk then NoKey(rt)
    else
      var on := SwitchConfig(rt, cs[0]);
      Promoted(if ctx.hasTask && env.persisted then on.(taskConfig := Some(cs[0].id)) else on)
  }

  function PromoteFailoverConfig(ctx: Ctx, rt: Runtime, env: Env): Promotion {
    var failed := rt.(tried := rt.tried + [rt.cfg.id]);
    TakeFirstSafe(ctx, failed, FindFailoverConfigs(ctx.configs, failed.tried, env.healthy), env)
  }

  datatype RoundOut = RoundOut(rt: Runtime, dial: Dial, done: Option<Result>)

  function Round(ctx: Ctx, rt: Runtime, env: Env): RoundOut {
    var a := Attempt(ctx, rt, env);
    if a.result != LlmError || !ctx.hasUser then RoundOut(a.rt, a.dial, Some(a.result))
    else
      match PromoteFailoverConfig(ctx, a.rt, env)
      case Promoted(next) => RoundOut(next, a.dial, None)
      case NothingLeft(next) => RoundOut(next, a.dial, Some(LlmError))
      case NoKey(next) => RoundOut(next, a.dial, Some(OtherError))
  }

  datatype RunOut = RunOut(rt: Runtime, dials: seq<Dial>, done: Option<Result>)

  /** The retry loop over the rounds the environment supplies. */
  function Run(ctx: Ctx, rt: Runtime, envs: seq<Env>): RunOut
    decreases |envs|
  {
    if envs == [] then RunOut(rt, [], None)
    else
      var r := Round(ctx, rt, envs[0]);
      if r.done.Some? then RunOut(r.rt, [r.dial], r.done)
      else
        var rest := Run(ctx, r.rt, envs[1..]);
        RunOut(rest.rt, [r.dial] + rest.dials, rest.done)
  }

  /** The first `n` rounds of an endless supply. */
  function Rounds(env: nat -> Env, n: nat): (r: seq<Env>)
    ensures |r| == n && forall i :: 0 <= i < n ==> r[i] == env(i)
  {
    if n == 0 then [] else Rounds(env, n - 1) + [env(n - 1)]
  }

  // -------------------------------------------------- each config at most once

  /** Ids of the enabled configs that are not in `gone`. */
  ghost function LeftIds(configs: seq<Config>, gone: set<string>): set<string> {
    set i | 0 <= i < |configs| && configs[i].enabled && configs[i].id !in gone :: configs[i].id
  }

  ghost function Ids(tried: seq<string>): set<string> {
    set i | 0 <= i < |tried| :: tried[i]
  }

  ghost predicate DistinctDials(dials: seq<Dial>) {
    forall i, j :: 0 <= i < j < |dials| ==> dials[i].id != dials[j].id
  }

  /** The task row names another enabled config. */
  predicate IsPending(ctx: Ctx, rt: Runtime) {
    && ctx.hasTask && ctx.hasUser && rt.taskConfig.Some? && rt.taskConfig.value != rt.cfg.id
    && ConfigIndex(ctx.configs, rt.taskConfig.value) < |ctx.configs|
  }

  /** The attempt is about to be switched onto a config in `gone`. */
  predicate BouncesBack(ctx: Ctx, rt: Runtime, env: Env, gone: set<string>) {
    IsPending(ctx, rt) && env.switchable && rt.taskConfig.value in gone
  }

  lemma DialIs(ctx: Ctx, rt: Runtime, env: Env)
    ensures Round(ctx, rt, env).dial.id ==
            if IsPending(ctx, rt) && env.switchable then rt.taskConfig.value else rt.cfg.id
  {
  }

  lemma {:induction false} TakenIsNew(ctx: Ctx, rt: Runtime, cs: seq<Config>, env: Env)
    requires forall i :: 0 <= i < |cs| && cs[i].id in env.safe ==> cs[i].id !in rt.tried
    ensures var p := TakeFirstSafe(ctx, rt, cs, env);
      && rt.tried <= p.rt.tried
      && (p.Promoted? ==>
            && p.rt.cfg in cs && p.rt.cfg.id !in p.rt.tried
            && p.rt.taskConfig == if ctx.hasTask && env.persisted then Some(p.rt.cfg.id) else rt.taskConfig)
    decreases |cs|
  {
    if cs != [] && cs[0].id !in env.safe {
      TakenIsNew(ctx, rt.(tried := rt.tried + [cs[0].id]), cs[1..], env);
    }
  }

  lemma CandidatesAreUntried(configs: seq<Config>, tried: seq<string>, healthy: set<string>)
    ensures forall c :: c in FindFailoverConfigs(configs, tried, healthy) ==>
      c in configs && c.enabled && c.id !in tried
  {
  }

  /** A round that goes on: the dialled config is marked tried, and one that never was takes over. */
  lemma PromotedIsNew(ctx: Ctx, rt: Runtime, env: Env)
    requires Round(ctx, rt, env).done.None?
    ensures var r := Round(ctx, rt, env);
      && rt.tried <= r.rt.tried && r.dial.id in r.rt.tried
      && r.rt.cfg in ctx.configs && r.rt.cfg.enabled && r.rt.cfg.id !in r.rt.tried
      && r.rt.taskConfig == if ctx.hasTask && env.persisted then Some(r.rt.cfg.id) else rt.taskConfig
  {
    var a := Attempt(ctx, rt, env);
    var tried := a.rt.tried + [a.rt.cfg.id];
    var cs := FindFailoverConfigs(ctx.configs, tried, env.healthy);
    CandidatesAreUntried(ctx.configs, tried, env.healthy);
    TakenIsNew(ctx, a.rt.(tried := tried), cs, env);
    assert tried[|tried| - 1] == a.rt.cfg.id;
  }

  /** After a failover the next attempt is back on the failed config exactly when this holds. */
  lemma BounceExact(ctx: Ctx, rt: Runtime, env: Env, next: Env)
    requires Round(ctx, rt, env).done.None?
    ensures var r := Round(ctx, rt, env);
      Round(ctx, r.rt, next).dial.id == r.dial.id <==>
        && ctx.hasTask && !env.persisted && next.switchable
        && rt.taskConfig == Some(r.dial.id) && ConfigIndex(ctx.configs, r.dial.id) < |ctx.configs|
  {
    PromotedIsNew(ctx, rt, env);
    DialIs(ctx, Round(ctx, rt, env).rt, next);
  }

  /** Each dial is outside `gone` and differs from the dials before it. */
  ghost predicate FreshDials(dials: seq<Dial>, gone: set<string>)
    decreases |dials|
  {
    dials == [] || (dials[0].id !in gone && FreshDials(dials[1..], gone + {dials[0].id}))
  }

  lemma {:induction false} FreshMeans(dials: seq<Dial>, gone: set<string>)
    ensures FreshDials(dials, gone) <==>
            DistinctDials(dials) && forall i :: 0 <= i < |dials| ==> dials[i].id !in gone
    decreases |dials|
  {
    if dials != [] {
      var rest := dials[1..];
      FreshMeans(rest, gone + {dials[0].id});
      assert forall i :: 0 < i < |dials| ==> dials[i] == rest[i - 1];
      assert forall i :: 0 <= i < |rest| ==> rest[i] == dials[i + 1];
    }
  }

  /** Some round of the call is switched onto a config that is in `gone` or was dialled before it. */
  ghost predicate BouncesIn(ctx: Ctx, rt: Runtime, envs: seq<Env>, gone: set<string>)
    decreases |envs|
  {
    envs != [] &&
    (|| BouncesBack(ctx, rt, envs[0], gone)
     || (var r := Round(ctx, rt, envs[0]); r.done.None? && BouncesIn(ctx, r.rt, envs[1..], gone + {r.dial.id})))
  }

  lemma {:induction false} FreshExact(ctx: Ctx, rt: Runtime, envs: seq<Env>, gone: set<string>)
    requires rt.cfg.id !in gone && forall g :: g in gone ==> g in rt.tried
    ensures FreshDials(Run(ctx, rt, envs).dials, gone) <==> !BouncesIn(ctx, rt, envs, gone)
    decreases |envs|
  {
    if envs != [] {
      var r := Round(ctx, rt, envs[0]);
      DialIs(ctx, rt, envs[0]);
      if r.done.None? {
        PromotedIsNew(ctx, rt, envs[0]);
        FreshExact(ctx, r.rt, envs[1..], gone + {r.dial.id});
        var rest := Run(ctx, r.rt, envs[1..]).dials;
        assert ([r.dial] + rest)[1..] == rest;
      }
    }
  }

  /**
    One call dials no config twice if and only if no attempt is switched, by the
    task row, onto a config the call has dialled already.
   */
  lemma DialsAtMostOnce(ctx: Ctx, rt: Runtime, envs: seq<Env>)
    ensures DistinctDials(Run(ctx, rt, envs).dials) <==> !BouncesIn(ctx, rt, envs, {})
  {
    FreshExact(ctx, rt, envs, {});
    FreshMeans(Run(ctx, rt, envs).dials, {});
  }

  // --------------------------------------------------------- how long a call is

  /** After its first attempt the call is switched onto a config tried before it or dialled by it. */
  ghost predicate BouncesLater(ctx: Ctx, rt: Runtime, envs: seq<Env>) {
    envs != [] && var r := Round(ctx, rt, envs[0]);
    r.done.None? && BouncesIn(ctx, r.rt, envs[1..], Ids(rt.tried) + {r.dial.id})
  }

  /** Distinct dials, all among `ids`, no more of them than there are ids. */
  ghost predicate DialsWithin(dials: seq<Dial>, ids: set<string>) {
    DistinctDials(dials) && |dials| <= |ids| && forall i :: 0 <= i < |dials| ==> dials[i].id in ids
  }

  lemma Smaller<T>(a: set<T>, b: set<T>)
    requires a <= b
    ensures |a| <= |b|
  {
    if a != b {
      var extra := b - a;
      assert b == a + extra;
    }
  }

  /** Each dial uses one of `left` up, and a call that is not over has one more in hand. */
  ghost predicate UsesUp(r: RunOut, left: set<string>) {
    DialsWithin(r.dials, left) && (r.done.None? ==> |r.dials| < |left|)
  }

  lemma OneMoreDial(dial: Dial, rest: RunOut, left: set<string>)
    requires dial.id in left && UsesUp(rest, left - {dial.id})
    ensures UsesUp(RunOut(rest.rt, [dial] + rest.dials, rest.done), left)
  {
    assert left == (left - {dial.id}) + {dial.id};
  }

  lemma LastDial(r: RunOut, left: set<string>)
    requires r.done.Some? && |r.dials| == 1 && r.dials[0].id in left
    ensures UsesUp(r, left)
  {
    assert left == (left - {r.dials[0].id}) + {r.dials[0].id};
  }

  lemma LeftShrinks(configs: seq<Config>, gone: set<string>, id: string)
    ensures LeftIds(configs, gone + {id}) == LeftIds(configs, gone) - {id}
  {
  }

  lemma IsLeft(configs: seq<Config>, c: Config, gone: set<string>)
    requires c in configs && c.enabled && c.id !in gone
    ensures c.id in LeftIds(configs, gone)
  {
  }

  /** Starting on a config that is left. */
  lemma {:induction false} LeftRun(ctx: Ctx, rt: Runtime, envs: seq<Env>, gone: set<string>)
    requires rt.cfg.id in LeftIds(ctx.configs, gone) && !BouncesIn(ctx, rt, envs, gone)
    requires forall g :: g in gone ==> g in rt.tried
    ensures UsesUp(Run(ctx, rt, envs), LeftIds(ctx.configs, gone))
    decreases |envs|
  {
    var left := LeftIds(ctx.configs, gone);
    if envs == [] {
      assert left == left - {rt.cfg.id} + {rt.cfg.id};
    } else {
      var r := Round(ctx, rt, envs[0]);
      DialInLeft(ctx, rt, envs[0], gone);
      if r.done.None? {
        GoesOn(ctx, rt, envs[0], gone);
        LeftRun(ctx, r.rt, envs[1..], gone + {r.dial.id});
        OneMoreDial(r.dial, Run(ctx, r.rt, envs[1..]), left);
      } else {
        LastDial(Run(ctx, rt, envs), left);
      }
    }
  }

  lemma GoesOn(ctx: Ctx, rt: Runtime, env: Env, gone: set<string>)
    requires Round(ctx, rt, env).done.None? && forall g :: g in gone ==> g in rt.tried
    ensures var r := Round(ctx, rt, env);
      && r.rt.cfg.id in LeftIds(ctx.configs, gone + {r.dial.id})
      && LeftIds(ctx.configs, gone + {r.dial.id}) == LeftIds(ctx.configs, gone) - {r.dial.id}
      && (forall g :: g in gone + {r.dial.id} ==> g in r.rt.tried)
  {
    var r := Round(ctx, rt, env);
    PromotedIsNew(ctx, rt, env);
    IsLeft(ctx.configs, r.rt.cfg, gone + {r.dial.id});
    LeftShrinks(ctx.configs, gone, r.dial.id);
  }

  lemma DialInLeft(ctx: Ctx, rt: Runtime, env: Env, gone: set<string>)
    requires rt.cfg.id in LeftIds(ctx.configs, gone) && !BouncesBack(ctx, rt, env, gone)
    ensures Round(ctx, rt, env).dial.id in LeftIds(ctx.configs, gone)
  {
    DialIs(ctx, rt, env);
    if IsPending(ctx, rt) && env.switchable {
      IsLeft(ctx.configs, ctx.configs[ConfigIndex(ctx.configs, rt.taskConfig.value)], gone);
    }
  }

  /**
    Without such a switch a call makes at most one attempt more than there are
    enabled configs not tried before, and is over after that many rounds.
   */
  lemma AttemptsBound(ctx: Ctx, rt: Runtime, envs: seq<Env>)
    requires !BouncesLater(ctx, rt, envs)
    ensures var r, left := Run(ctx, rt, envs), LeftIds(ctx.configs, Ids(rt.tried));
      && DistinctDials(r.dials) && |r.dials| <= 1 + |left|
      && (forall i :: 0 < i < |r.dials| ==> r.dials[i].id in left)
      && (|envs| > |left| ==> r.done.Some?)
  {
    if envs != [] && Round(ctx, rt, envs[0]).done.None? {
      var r := Round(ctx, rt, envs[0]);
      GoesOn(ctx, rt, envs[0], Ids(rt.tried));
      LeftRun(ctx, r.rt, envs[1..], Ids(rt.tried) + {r.dial.id});
      StillGoing(ctx, r.rt, envs[1..]);
      OneDialBefore(r.dial, Run(ctx, r.rt, envs[1..]), LeftIds(ctx.configs, Ids(rt.tried)));
    }
  }

  lemma OneDialBefore(dial: Dial, rest: RunOut, left: set<string>)
    requires UsesUp(rest, left - {dial.id})
    ensures var dials := [dial] + rest.dials;
      && DistinctDials(dials) && |dials| <= 1 + |left|
      && (forall i :: 0 < i < |dials| ==> dials[i].id in left)
      && (rest.done.None? ==> |dials| <= |left|)
  {
    Smaller(left - {dial.id}, left);
  }

  lemma {:induction false} StillGoing(ctx: Ctx, rt: Runtime, envs: seq<Env>)
    ensures Run(ctx, rt, envs).done.None? ==> |Run(ctx, rt, envs).dials| == |envs|
    decreases |envs|
  {
    if envs != [] && Round(ctx, rt, envs[0]).done.None? {
      StillGoing(ctx, Round(ctx, rt, envs[0]).rt, envs[1..]);
    }
  }

  lemma {:induction false} SettledNeverBounces(ctx: Ctx, rt: Runtime, envs: seq<Env>, gone: set<string>)
    requires ctx.hasTask ==> rt.taskConfig == Some(rt.cfg.id)
    requires ctx.hasTask ==> forall i :: 0 <= i < |envs| ==> envs[i].persisted
    ensures !BouncesIn(ctx, rt, envs, gone)
    decreases |envs|
  {
    if envs != [] && Round(ctx, rt, envs[0]).done.None? {
      var r := Round(ctx, rt, envs[0]);
      PromotedIsNew(ctx, rt, envs[0]);
      SettledNeverBounces(ctx, r.rt, envs[1..], gone + {r.dial.id});
    }
  }

  /** A call without a task, or whose promoted ids all reach the task row, never bounces. */
  lemma PersistedNeverBounces(ctx: Ctx, rt: Runtime, envs: seq<Env>)
    requires ctx.hasTask ==> forall i :: 0 <= i < |envs| ==> envs[i].persisted
    ensures !BouncesLater(ctx, rt, envs)
  {
    if envs != [] && Round(ctx, rt, envs[0]).done.None? {
      var r := Round(ctx, rt, envs[0]);
      PromotedIsNew(ctx, rt, envs[0]);
      SettledNeverBounces(ctx, r.rt, envs[1..], Ids(rt.tried) + {r.dial.id});
    }
  }

  /** One more round after a run that is still going. */
  lemma {:induction false} RunSnoc(ctx: Ctx, rt: Runtime, envs: seq<Env>, env: Env)
    requires Run(ctx, rt, envs).done.None?
    ensures var sofar := Run(ctx, rt, envs);
      var r := Round(ctx, sofar.rt, env);
      Run(ctx, rt, envs + [env]) == RunOut(r.rt, sofar.dials + [r.dial], r.done)
    decreases |envs|
  {
    if envs == [] {
      assert envs + [env] == [env] && [env][1..] == [];
      assert Run(ctx, Round(ctx, rt, env).rt, []) == RunOut(Round(ctx, rt, env).rt, [], None);
    } else {
      RunSnoc(ctx, Round(ctx, rt, envs[0]).rt, envs[1..], env);
      assert (envs + [env])[1..] == envs[1..] + [env];
    }
  }

  lemma {:induction false} TakeResets(ctx: Ctx, rt: Runtime, cs: seq<Config>, env: Env)
    ensures var p := TakeFirstSafe(ctx, rt, cs, env);
      if p.Promoted? then p.rt.lastStart == 0 else p.rt.lastStart == rt.lastStart && p.rt.cfg == rt.cfg
    decreases |cs|
  {
    if cs != [] && cs[0].id !in env.safe {
      TakeResets(ctx, rt.(tried := rt.tried + [cs[0].id]), cs[1..], env);
    }
  }

  lemma RoundResets(ctx: Ctx, rt: Runtime, env: Env)
    ensures var r := Round(ctx, rt, env).rt; r.lastStart == 0 || (r.lastStart == rt.lastStart && r.cfg == rt.cfg)
  {
    var a := Attempt(ctx, rt, env).rt;
    var failed := a.(tried := a.tried + [a.cfg.id]);
    TakeResets(ctx, failed, FindFailoverConfigs(ctx.configs, failed.tried, env.healthy), env);
  }

  /** A call that ends on another config than it started with has reset the throttle. */
  lemma {:induction false} SwitchResetsThrottle(ctx: Ctx, rt: Runtime, envs: seq<Env>)
    ensures var r := Run(ctx, rt, envs).rt; r.lastStart == 0 || (r.lastStart == rt.lastStart && r.cfg == rt.cfg)
    decreases |envs|
  {
    if envs != [] {
      RoundResets(ctx, rt, envs[0]);
      if Round(ctx, rt, envs[0]).done.None? {
        SwitchResetsThrottle(ctx, Round(ctx, rt, envs[0]).rt, envs[1..]);
      }
    }
  }

  // ---------------------------------------------- when the id is not persisted

  predicate IsOther(c: Config, rt: Runtime, a: string) {
    c.enabled && c.id != a && c.id !in rt.tried
  }

  /** The task row names enabled config `a`, and some other enabled config was never tried. */
  ghost predicate Stuck(ctx: Ctx, rt: Runtime, a: string) {
    && ctx.hasUser && ctx.hasTask && rt.taskConfig == Some(a) && ConfigIndex(ctx.configs, a) < |ctx.configs|
    && exists i :: 0 <= i < |ctx.configs| && IsOther(ctx.configs[i], rt, a)
  }

  /** The endpoint fails, every address is safe, and the promoted id does not reach the row. */
  ghost predicate FailsUnpersisted(ctx: Ctx, env: Env) {
    && env.reply.EndpointError? && env.switchable && env.keyOk && !env.persisted
    && forall i :: 0 <= i < |ctx.configs| ==> ctx.configs[i].id in env.safe
  }

  lemma {:induction false} UntriedHas(configs: seq<Config>, tried: seq<string>, i: nat)
    requires i < |configs| && configs[i].enabled && configs[i].id !in tried
    ensures Untried(configs, tried) != []
  {
    if i > 0 { UntriedHas(configs[1..], tried, i - 1); }
  }

  lemma BounceRound(ctx: Ctx, rt: Runtime, env: Env, a: string)
    requires Stuck(ctx, rt, a) && FailsUnpersisted(ctx, env)
    ensures var r := Round(ctx, rt, env); r.done.None? && r.dial.id == a && Stuck(ctx, r.rt, a)
  {
    var i :| 0 <= i < |ctx.configs| && IsOther(ctx.configs[i], rt, a);
    var on := ApplyPendingSwitch(ctx, rt, env.switchable);
    var tried := rt.tried + [a];
    assert on.cfg.id == a && on.tried == rt.tried && on.taskConfig == rt.taskConfig;
    UntriedHas(ctx.configs, tried, i);
    CandidatesAreUntried(ctx.configs, tried, env.healthy);
    var cs := FindFailoverConfigs(ctx.configs, tried, env.healthy);
    assert cs[0] in ctx.configs && cs[0].id in env.safe;
    assert Round(ctx, rt, env).rt.tried == tried;
  }

  /** Then the pending-switch step undoes every failover: the failed config is dialled again, without end. */
  lemma {:induction false} UnpersistedBouncesForever(ctx: Ctx, rt: Runtime, envs: seq<Env>, a: string)
    requires Stuck(ctx, rt, a)
    requires forall i :: 0 <= i < |envs| ==> FailsUnpersisted(ctx, envs[i])
    ensures var r := Run(ctx, rt, envs);
      r.done.None? && |r.dials| == |envs| && forall i :: 0 <= i < |envs| ==> r.dials[i].id == a
    decreases |envs|
  {
    if envs != [] {
      BounceRound(ctx, rt, envs[0], a);
      UnpersistedBouncesForever(ctx, Round(ctx, rt, envs[0]).rt, envs[1..], a);
    }
  }

  // ------------------------------------------------------------------- tokens

  function Total(dials: seq<Dial>): nat {
    if dials == [] then 0 else (if dials[0].bill.Some? then dials[0].bill.value.total else 0) + Total(dials[1..])
  }

  function PromptTotal(dials: seq<Dial>): nat {
    if dials == [] then 0
    else (if dials[0].bill.Some? then dials[0].bill.value.prompt else 0) + PromptTotal(dials[1..])
  }

  function CompletionTotal(dials: seq<Dial>): nat {
    if dials == [] then 0
    else (if dials[0].bill.Some? then dials[0].bill.value.completion else 0) + CompletionTotal(dials[1..])
  }

  lemma {:induction false} TakeKeepsCounters(ctx: Ctx, rt: Runtime, cs: seq<Config>, env: Env)
    ensures var p := TakeFirstSafe(ctx, rt, cs, env);
      p.rt.usedTokens == rt.usedTokens && p.rt.usedPrompt == rt.usedPrompt && p.rt.usedCompletion == rt.usedCompletion
    decreases |cs|
  {
    if cs != [] && cs[0].id !in env.safe {
      TakeKeepsCounters(ctx, rt.(tried := rt.tried + [cs[0].id]), cs[1..], env);
    }
  }

  lemma RoundBills(ctx: Ctx, rt: Runtime, env: Env)
    ensures var r := Round(ctx, rt, env);
      && r.rt.usedTokens == rt.usedTokens + Total([r.dial])
      && r.rt.usedPrompt == rt.usedPrompt + PromptTotal([r.dial])
      && r.rt.usedCompletion == rt.usedCompletion + CompletionTotal([r.dial])
  {
    var a := Attempt(ctx, rt, env);
    var failed := a.rt.(tried := a.rt.tried + [a.rt.cfg.id]);
    TakeKeepsCounters(ctx, failed, FindFailoverConfigs(ctx.configs, failed.tried, env.healthy), env);
  }

  /**
    Every answered attempt on any config, blank or over budget included, is in
    the counters exactly once; switching configs neither loses nor resets them.
   */
  lemma {:induction false} TokensAreConserved(ctx: Ctx, rt: Runtime, envs: seq<Env>)
    ensures var r := Run(ctx, rt, envs);
      && r.rt.usedTokens == rt.usedTokens + Total(r.dials)
      && r.rt.usedPrompt == rt.usedPrompt + PromptTotal(r.dials)
      && r.rt.usedCompletion == rt.usedCompletion + CompletionTotal(r.dials)
    decreases |envs|
  {
    if envs != [] {
      RoundBills(ctx, rt, envs[0]);
      var r := Round(ctx, rt, envs[0]);
      if r.done.None? {
        TokensAreConserved(ctx, r.rt, envs[1..]);
        var rest := Run(ctx, r.rt, envs[1..]).dials;
        assert ([r.dial] + rest)[1..] == rest;
      }
    }
  }

  /** A budget error ends the call on the config that ran over; a returned text is within that config's cap. */
  lemma {:induction false} BudgetEndsTheCall(ctx: Ctx, rt: Runtime, envs: seq<Env>)
    ensures var r := Run(ctx, rt, envs);
      && (r.done == Some(BudgetError) ==>
            |r.dials| > 0 && r.dials[|r.dials| - 1].id == r.rt.cfg.id
            && OverACap(r.rt.cfg, r.rt.usedTokens, r.rt.usedPrompt, r.rt.usedCompletion))
      && (r.done == Some(Text) ==>
            |r.dials| > 0 && r.dials[|r.dials| - 1].id == r.rt.cfg.id
            && !OverACap(r.rt.cfg, r.rt.usedTokens, r.rt.usedPrompt, r.rt.usedCompletion))
    decreases |envs|
  {
    if envs != [] {
      var r := Round(ctx, rt, envs[0]);
      AttemptExact(ctx, rt, envs[0]);
      if r.done.None? {
        BudgetEndsTheCall(ctx, r.rt, envs[1..]);
      }
    }
  }

  predicate Unreported(env: Env) {
    env.reply.Answer? ==> env.reply.usage.None?
  }

  /** Rounding each side up costs at most one token a call over rounding the sum up. */
  lemma SplitRounding(p: nat, c: nat)
    ensures 0 <= CeilQuarter(p) + CeilQuarter(c) - CeilQuarter(p + c) <= 1
  {
  }

  /** With no usage reported, `n` attempts leave the split above the total by 0 to `n`. */
  lemma {:induction false} SplitDrift(ctx: Ctx, rt: Runtime, envs: seq<Env>)
    requires forall i :: 0 <= i < |envs| ==> Unreported(envs[i])
    ensures var dials := Run(ctx, rt, envs).dials;
      0 <= PromptTotal(dials) + CompletionTotal(dials) - Total(dials) <= |dials|
    decreases |envs|
  {
    if envs != [] {
      var r := Round(ctx, rt, envs[0]);
      if envs[0].reply.Answer? {
        SplitRounding(envs[0].reply.promptChars, envs[0].reply.completionChars);
      }
      if r.done.None? {
        SplitDrift(ctx, r.rt, envs[1..]);
        var rest := Run(ctx, r.rt, envs[1..]).dials;
        assert ([r.dial] + rest)[1..] == rest;
      }
    }
  }

  // ---------------------------------------------------------- who takes over

  /** Some enabled config that was not tried is not parked. */
  predicate HealthyLeft(configs: seq<Config>, tried: seq<string>, env: Env) {
    exists i | 0 <= i < |configs| ::
      configs[i].enabled && configs[i].id !in tried && configs[i].id in env.healthy
  }

  /** May take over: enabled, not tried, at a safe address, and not parked unless every one is. */
  predicate MayTakeOver(configs: seq<Config>, c: Config, tried: seq<string>, env: Env) {
    && c.enabled && c.id !in tried && c.id in env.safe
    && (HealthyLeft(configs, tried, env) ==> c.id in env.healthy)
  }

  function FirstSafe(cs: seq<Config>, safe: set<string>): Option<Config> {
    if cs == [] then None else if cs[0].id in safe then Some(cs[0]) else FirstSafe(cs[1..], safe)
  }

  lemma {:induction false} TakesFirstSafe(ctx: Ctx, rt: Runtime, cs: seq<Config>, env: Env)
    ensures var p, first := TakeFirstSafe(ctx, rt, cs, env), FirstSafe(cs, env.safe);
      && (p.Promoted? <==> first.Some? && env.keyOk)
      && (p.NoKey? <==> first.Some? && !env.keyOk)
      && (p.Promoted? ==> p.rt.cfg == first.value)
    decreases |cs|
  {
    if cs != [] && cs[0].id !in env.safe {
      TakesFirstSafe(ctx, rt.(tried := rt.tried + [cs[0].id]), cs[1..], env);
    }
  }

  /** Walking the candidates marks exactly those before the first safe one as tried. */
  lemma {:induction false} SkippedAreMarked(ctx: Ctx, rt: Runtime, cs: seq<Config>, env: Env) returns (n: nat)
    ensures n <= |cs| && (n < |cs| ==> cs[n].id in env.safe)
    ensures forall i :: 0 <= i < n ==> cs[i].id !in env.safe
    ensures var marked := TakeFirstSafe(ctx, rt, cs, env).rt.tried;
      && |marked| == |rt.tried| + n && rt.tried <= marked
      && forall i :: 0 <= i < n ==> marked[|rt.tried| + i] == cs[i].id
    decreases |cs|
  {
    n := 0;
    if cs != [] && cs[0].id !in env.safe {
      var next := rt.(tried := rt.tried + [cs[0].id]);
      n := SkippedAreMarked(ctx, next, cs[1..], env);
      n := n + 1;
      var marked := TakeFirstSafe(ctx, rt, cs, env).rt.tried;
      assert marked[|rt.tried|] == next.tried[|rt.tried|];
      forall i | 1 <= i < n
        ensures cs[i].id !in env.safe && marked[|rt.tried| + i] == cs[i].id
      {
        assert cs[1..][i - 1] == cs[i] && marked[|next.tried| + (i - 1)] == cs[1..][i - 1].id;
      }
    }
  }

  /** The first config in the user's order that is enabled, untried, safe and, if asked for, healthy. */
  function FirstCandidate(configs: seq<Config>, tried: seq<string>, env: Env, healthyOnly: bool): Option<Config> {
    if configs == [] then None
    else if IsCandidate(configs[0], tried, env, healthyOnly) then Some(configs[0])
    else FirstCandidate(configs[1..], tried, env, healthyOnly)
  }

  lemma {:induction false} FirstCandidateAt(configs: seq<Config>, tried: seq<string>, env: Env, healthyOnly: bool)
    returns (k: nat)
    ensures k <= |configs| && (k < |configs| <==> FirstCandidate(configs, tried, env, healthyOnly).Some?)
    ensures k < |configs| ==> FirstCandidate(configs, tried, env, healthyOnly) == Some(configs[k])
                              && IsCandidate(configs[k], tried, env, healthyOnly)
    ensures forall j :: 0 <= j < k ==> !IsCandidate(configs[j], tried, env, healthyOnly)
  {
    if configs == [] || IsCandidate(configs[0], tried, env, healthyOnly) {
      k := 0;
    } else {
      k := FirstCandidateAt(configs[1..], tried, env, healthyOnly);
      k := k + 1;
    }
  }

  predicate IsCandidate(c: Config, tried: seq<string>, env: Env, healthyOnly: bool) {
    c.enabled && c.id !in tried && c.id in env.safe && (healthyOnly ==> c.id in env.healthy)
  }

  lemma UntriedCons(configs: seq<Config>, tried: seq<string>, healthy: set<string>)
    requires configs != []
    ensures var c, rest := configs[0], Untried(configs[1..], tried);
      Untried(configs, tried) == (if c.enabled && c.id !in tried then [c] + rest else rest)
    ensures var c, rest := configs[0], Healthy(Untried(configs[1..], tried), healthy);
      Healthy(Untried(configs, tried), healthy)
      == (if c.enabled && c.id !in tried && c.id in healthy then [c] + rest else rest)
  {
    var c, rest := configs[0], Untried(configs[1..], tried);
    if c.enabled && c.id !in tried {
      assert ([c] + rest)[1..] == rest;
      assert [] + Healthy(rest, healthy) == Healthy(rest, healthy);
    } else {
      assert [] + rest == rest;
    }
  }

  lemma FirstSafeCons(c: Config, rest: seq<Config>, safe: set<string>)
    ensures FirstSafe([c] + rest, safe) == if c.id in safe then Some(c) else FirstSafe(rest, safe)
  {
    assert ([c] + rest)[1..] == rest;
  }

  lemma {:induction false} FirstOfUntried(configs: seq<Config>, tried: seq<string>, env: Env)
    ensures FirstSafe(Untried(configs, tried), env.safe) == FirstCandidate(configs, tried, env, false)
  {
    if configs != [] {
      FirstOfUntried(configs[1..], tried, env);
      UntriedCons(configs, tried, env.healthy);
      FirstSafeCons(configs[0], Untried(configs[1..], tried), env.safe);
    }
  }

  lemma {:induction false} FirstOfHealthy(configs: seq<Config>, tried: seq<string>, env: Env)
    ensures FirstSafe(Healthy(Untried(configs, tried), env.healthy), env.safe)
            == FirstCandidate(configs, tried, env, true)
  {
    if configs != [] {
      FirstOfHealthy(configs[1..], tried, env);
      UntriedCons(configs, tried, env.healthy);
      FirstSafeCons(configs[0], Healthy(Untried(configs[1..], tried), env.healthy), env.safe);
    }
  }

  lemma {:induction false} SomeHealthy(configs: seq<Config>, tried: seq<string>, env: Env)
    ensures Healthy(Untried(configs, tried), env.healthy) != [] <==> HealthyLeft(configs, tried, env)
  {
    if configs != [] {
      SomeHealthy(configs[1..], tried, env);
      UntriedCons(configs, tried, env.healthy);
      HealthyLeftCons(configs, tried, env);
    }
  }

  lemma HealthyLeftCons(configs: seq<Config>, tried: seq<string>, env: Env)
    requires configs != []
    ensures HealthyLeft(configs, tried, env) <==>
      || (configs[0].enabled && configs[0].id !in tried && configs[0].id in env.healthy)
      || HealthyLeft(configs[1..], tried, env)
  {
    var rest := configs[1..];
    assert forall i :: 0 < i < |configs| ==> configs[i] == rest[i - 1];
    if HealthyLeft(rest, tried, env) {
      var i :| 0 <= i < |rest| && rest[i].enabled && rest[i].id !in tried && rest[i].id in env.healthy;
      assert configs[i + 1] == rest[i];
    }
  }

  lemma CandidatesFirst(configs: seq<Config>, tried: seq<string>, env: Env)
    ensures FirstSafe(FindFailoverConfigs(configs, tried, env.healthy), env.safe)
            == FirstCandidate(configs, tried, env, HealthyLeft(configs, tried, env))
  {
    FirstOfUntried(configs, tried, env);
    FirstOfHealthy(configs, tried, env);
    SomeHealthy(configs, tried, env);
  }

  lemma CandidateMeans(configs: seq<Config>, c: Config, tried: seq<string>, env: Env)
    ensures IsCandidate(c, tried, env, HealthyLeft(configs, tried, env)) <==> MayTakeOver(configs, c, tried, env)
  {
  }

  /**
    A failed attempt is followed by another in the same call exactly when there is
    an owning user, a config that may take over, and its key; then the first such
    config in the user's order takes over. A parked one does so only if every
    untried one is parked.
   */
  lemma TakeoverExact(ctx: Ctx, rt: Runtime, env: Env)
    ensures var r := Round(ctx, rt, env);
      var tried := rt.tried + [r.dial.id];
      && (r.done.None? <==>
            && Attempt(ctx, rt, env).result == LlmError && ctx.hasUser && env.keyOk
            && exists k :: 0 <= k < |ctx.configs| && MayTakeOver(ctx.configs, ctx.configs[k], tried, env))
      && (r.done.None? ==>
            exists k :: 0 <= k < |ctx.configs| && r.rt.cfg == ctx.configs[k]
                        && MayTakeOver(ctx.configs, ctx.configs[k], tried, env)
                        && forall j :: 0 <= j < k ==> !MayTakeOver(ctx.configs, ctx.configs[j], tried, env))
  {
    var a := Attempt(ctx, rt, env);
    var tried := rt.tried + [a.rt.cfg.id];
    assert a.rt.tried == rt.tried && a.dial.id == a.rt.cfg.id;
    var cs, healthyOnly := FindFailoverConfigs(ctx.configs, tried, env.healthy), HealthyLeft(ctx.configs, tried, env);
    TakesFirstSafe(ctx, a.rt.(tried := tried), cs, env);
    CandidatesFirst(ctx.configs, tried, env);
    var k := FirstCandidateAt(ctx.configs, tried, env, healthyOnly);
    forall j | 0 <= j < |ctx.configs|
      ensures IsCandidate(ctx.configs[j], tried, env, healthyOnly)
              <==> MayTakeOver(ctx.configs, ctx.configs[j], tried, env)
    {
      CandidateMeans(ctx.configs, ctx.configs[j], tried, env);
    }
  }

  // ------------------------------------------------------- what one attempt means

  /** A reported usage is billed as reported; otherwise four characters make a token, begun ones counted. */
  lemma BillExact(reply: Reply)
    requires reply.Answer?
    ensures var b := BillOf(reply);
      && (reply.usage.Some? ==>
            && b.total == reply.usage.value.totalTokens && b.prompt == reply.usage.value.promptTokens
            && b.completion == reply.usage.value.completionTokens)
      && (reply.usage.None? ==>
            && 4 * b.total - 4 < reply.promptChars + reply.completionChars <= 4 * b.total
            && 4 * b.prompt - 4 < reply.promptChars <= 4 * b.prompt
            && 4 * b.completion - 4 < reply.completionChars <= 4 * b.completion)
  {
  }

  /** Over the token cap, or over the cost cap at the prices per million of each side. */
  ghost predicate OverACap(cfg: Config, total: int, prompt: int, completion: int) {
    || (cfg.maxTokensPerRun.Some? && total > cfg.maxTokensPerRun.value)
    || (cfg.maxCostUsd.Some? &&
          prompt as real * (if cfg.inputPrice.Some? then cfg.inputPrice.value else 0.0)
          + completion as real * (if cfg.outputPrice.Some? then cfg.outputPrice.value else 0.0)
          > cfg.maxCostUsd.value * 1000000.0)
  }

  lemma PerMillion(p: real, a: real, c: real, b: real, cap: real)
    ensures (p / 1000000.0) * a + (c / 1000000.0) * b <= cap <==> p * a + c * b <= cap * 1000000.0
  {
    assert (p / 1000000.0) * a == (p * a) / 1000000.0 && (c / 1000000.0) * b == (c * b) / 1000000.0;
  }

  lemma CapsExact(rt: Runtime)
    ensures WithinBudget(rt) && WithinCost(rt) <==> !OverACap(rt.cfg, rt.usedTokens, rt.usedPrompt, rt.usedCompletion)
  {
    if rt.cfg.maxCostUsd.Some? {
      PerMillion(rt.usedPrompt as real, Price(rt.cfg.inputPrice), rt.usedCompletion as real, Price(rt.cfg.outputPrice),
                 rt.cfg.maxCostUsd.value);
    }
  }

  /**
    How an attempt ends: an answer over a cap of the answering config is a budget
    error, blank or not; within the caps a blank one calls for failover, as does an
    endpoint that fails.
   */
  lemma AttemptExact(ctx: Ctx, rt: Runtime, env: Env)
    ensures var a := Attempt(ctx, rt, env);
      var over := OverACap(a.rt.cfg, a.rt.usedTokens, a.rt.usedPrompt, a.rt.usedCompletion);
      && (a.result == Text <==> env.reply.Answer? && !over && !env.reply.blank)
      && (a.result == BudgetError <==> env.reply.Answer? && over)
      && (a.result == LlmError <==> env.reply.EndpointError? || (env.reply.Answer? && !over && env.reply.blank))
      && (a.result == OtherError <==> env.reply.OtherFailure?)
  {
    CapsExact(Attempt(ctx, rt, env).rt);
  }
}
