/**
  A run: many LLM calls on one runtime. Calls start with the throttle, their
  rounds follow one another, and between rounds anybody may write the task row.
  The next call goes on with whatever config the last one left.
 */
module LlmRuns {
  import opened Common
  import opened LlmFailover

  datatype Step = Start(at: int) | Try(env: Env) | RowWrite(row: Option<string>)

  /** One attempt: what was dialled, and whether it failed in the way that calls for failover. */
  datatype Tried = Tried(dial: Dial, failed: bool)

  datatype Rolled = Rolled(rt: Runtime, tries: seq<Tried>)

  predicate Fails(ctx: Ctx, rt: Runtime, env: Env) {
    Attempt(ctx, rt, env).result == LlmError
  }

  function Next(ctx: Ctx, rt: Runtime, step: Step): Runtime {
    match step
    case Start(at) => rt.(lastStart := at)
    case Try(env) => Round(ctx, rt, env).rt
    case RowWrite(row) => rt.(taskConfig := row)
  }

  function TriesOf(ctx: Ctx, rt: Runtime, step: Step): seq<Tried> {
    if step.Try? then [Tried(Round(ctx, rt, step.env).dial, Fails(ctx, rt, step.env))] else []
  }

  function Roll(ctx: Ctx, rt: Runtime, steps: seq<Step>): Rolled
    decreases |steps|
  {
    if steps == [] then Rolled(rt, [])
    else
      var rest := Roll(ctx, Next(ctx, rt, steps[0]), steps[1..]);
      Rolled(rest.rt, TriesOf(ctx, rt, steps[0]) + rest.tries)
  }

  // ----------------------------------------------------- calls are stretches of a run

  function Tries(envs: seq<Env>): (r: seq<Step>)
    ensures |r| == |envs| && forall i :: 0 <= i < |r| ==> r[i] == Try(envs[i])
  {
    seq(|envs|, i requires 0 <= i < |envs| => Try(envs[i]))
  }

  function DialsOf(tries: seq<Tried>): (r: seq<Dial>)
    ensures |r| == |tries| && forall i :: 0 <= i < |r| ==> r[i] == tries[i].dial
  {
    seq(|tries|, i requires 0 <= i < |tries| => tries[i].dial)
  }

  lemma {:induction false} RollAppend(ctx: Ctx, rt: Runtime, a: seq<Step>, b: seq<Step>)
    ensures var first := Roll(ctx, rt, a);
      var second := Roll(ctx, first.rt, b);
      Roll(ctx, rt, a + b) == Rolled(second.rt, first.tries + second.tries)
    decreases |a|
  {
    if a == [] {
      assert a + b == b;
    } else {
      RollAppend(ctx, Next(ctx, rt, a[0]), a[1..], b);
      assert (a + b)[1..] == a[1..] + b;
    }
  }

  /** A call that used all its rounds is that stretch of a run: same runtime, same dials. */
  lemma {:induction false} CallIsRoll(ctx: Ctx, rt: Runtime, envs: seq<Env>)
    requires |Run(ctx, rt, envs).dials| == |envs|
    ensures var call, roll := Run(ctx, rt, envs), Roll(ctx, rt, Tries(envs));
      call.rt == roll.rt && call.dials == DialsOf(roll.tries)
    decreases |envs|
  {
    if envs != [] {
      var r := Round(ctx, rt, envs[0]);
      assert Tries(envs)[1..] == Tries(envs[1..]);
      if r.done.None? {
        CallIsRoll(ctx, r.rt, envs[1..]);
      } else {
        assert Tries(envs[1..]) == [];
      }
      assert DialsOf(Roll(ctx, rt, Tries(envs)).tries) == [r.dial] + DialsOf(Roll(ctx, r.rt, Tries(envs[1..])).tries);
    }
  }

  lemma StartedCall(ctx: Ctx, rt: Runtime, at: int, envs: seq<Env>)
    requires |Run(ctx, rt.(lastStart := at), envs).dials| == |envs|
    ensures Roll(ctx, rt, [Start(at)] + Tries(envs)).rt == Run(ctx, rt.(lastStart := at), envs).rt
  {
    CallIsRoll(ctx, rt.(lastStart := at), envs);
    assert ([Start(at)] + Tries(envs))[1..] == Tries(envs);
  }

  /** A config picked for the task is dialled from the next attempt on: if it is enabled and the switch goes through. */
  lemma RowDecides(ctx: Ctx, rt: Runtime, id: string, env: Env)
    ensures var picked := exists i :: 0 <= i < |ctx.configs| && ctx.configs[i].id == id && ctx.configs[i].enabled;
      Round(ctx, Next(ctx, rt, RowWrite(Some(id))), env).dial.id ==
        if ctx.hasTask && ctx.hasUser && picked && env.switchable then id else rt.cfg.id
  {
    DialIs(ctx, Next(ctx, rt, RowWrite(Some(id))), env);
  }

  // ------------------------------------------------- failed configs are not retried

  /** The promise of the run: a config that failed is not dialled again. */
  ghost predicate NeverRetries(tries: seq<Tried>) {
    forall i, j :: 0 <= i < j < |tries| && tries[i].failed ==> tries[j].dial.id != tries[i].dial.id
  }

  ghost predicate Fresh(tries: seq<Tried>, gone: set<string>)
    decreases |tries|
  {
    tries == [] ||
    (tries[0].dial.id !in gone && Fresh(tries[1..], if tries[0].failed then gone + {tries[0].dial.id} else gone))
  }

  lemma {:induction false} FreshMeansNever(tries: seq<Tried>, gone: set<string>)
    ensures Fresh(tries, gone) <==>
            NeverRetries(tries) && forall i :: 0 <= i < |tries| ==> tries[i].dial.id !in gone
    decreases |tries|
  {
    if tries != [] {
      var rest := tries[1..];
      FreshMeansNever(rest, if tries[0].failed then gone + {tries[0].dial.id} else gone);
      assert forall i :: 0 < i < |tries| ==> tries[i] == rest[i - 1];
      assert forall i :: 0 <= i < |rest| ==> rest[i] == tries[i + 1];
    }
  }

  /** The round failed and ended its call: nothing left, no key, or no user to fail over for. */
  predicate Spends(ctx: Ctx, rt: Runtime, env: Env) {
    Fails(ctx, rt, env) && Round(ctx, rt, env).done.Some?
  }

  /** No switch by the row onto a failed config; without a switch, no last call that ended on its own failure. */
  predicate MayDial(ctx: Ctx, rt: Runtime, env: Env, gone: set<string>, spent: bool) {
    if IsPending(ctx, rt) && env.switchable then rt.taskConfig.value !in gone else !spent
  }

  ghost predicate MayDialThroughout(ctx: Ctx, rt: Runtime, steps: seq<Step>, gone: set<string>, spent: bool)
    decreases |steps|
  {
    if steps == [] then true
    else if !steps[0].Try? then MayDialThroughout(ctx, Next(ctx, rt, steps[0]), steps[1..], gone, spent)
    else
      var env := steps[0].env;
      && MayDial(ctx, rt, env, gone, spent)
      && MayDialThroughout(ctx, Next(ctx, rt, steps[0]), steps[1..],
           if Fails(ctx, rt, env) then gone + {Round(ctx, rt, env).dial.id} else gone, Spends(ctx, rt, env))
  }

  /** The runtime stands on a failed config exactly when its last call ended on that failure. */
  ghost predicate Standing(ctx: Ctx, rt: Runtime, gone: set<string>, spent: bool) {
    (spent <==> rt.cfg.id in gone) && (ctx.hasUser ==> forall g :: g in gone ==> g in rt.tried)
  }

  lemma {:induction false} UnpromotedKeeps(ctx: Ctx, rt: Runtime, cs: seq<Config>, env: Env)
    ensures var p := TakeFirstSafe(ctx, rt, cs, env);
      rt.tried <= p.rt.tried && (!p.Promoted? ==> p.rt.cfg == rt.cfg)
    decreases |cs|
  {
    if cs != [] && cs[0].id !in env.safe {
      UnpromotedKeeps(ctx, rt.(tried := rt.tried + [cs[0].id]), cs[1..], env);
    }
  }

  /** A round that ends its call leaves the runtime on the config it dialled, marked tried if it failed. */
  lemma EndedKeepsConfig(ctx: Ctx, rt: Runtime, env: Env)
    requires Round(ctx, rt, env).done.Some?
    ensures var r := Round(ctx, rt, env);
      && r.rt.cfg.id == r.dial.id && rt.tried <= r.rt.tried
      && (ctx.hasUser && Fails(ctx, rt, env) ==> r.dial.id in r.rt.tried)
  {
    var a := Attempt(ctx, rt, env);
    var tried := a.rt.tried + [a.rt.cfg.id];
    UnpromotedKeeps(ctx, a.rt.(tried := tried), FindFailoverConfigs(ctx.configs, tried, env.healthy), env);
    assert tried[|tried| - 1] == a.rt.cfg.id;
  }

  lemma RoundStands(ctx: Ctx, rt: Runtime, env: Env, gone: set<string>, spent: bool)
    requires Standing(ctx, rt, gone, spent) && MayDial(ctx, rt, env, gone, spent)
    ensures var r := Round(ctx, rt, env);
      Standing(ctx, r.rt, if Fails(ctx, rt, env) then gone + {r.dial.id} else gone, Spends(ctx, rt, env))
  {
    DialIs(ctx, rt, env);
    if Round(ctx, rt, env).done.None? {
      PromotedIsNew(ctx, rt, env);
    } else {
      EndedKeepsConfig(ctx, rt, env);
    }
  }

  lemma {:induction false} RollExact(ctx: Ctx, rt: Runtime, steps: seq<Step>, gone: set<string>, spent: bool)
    requires Standing(ctx, rt, gone, spent)
    ensures Fresh(Roll(ctx, rt, steps).tries, gone) <==> MayDialThroughout(ctx, rt, steps, gone, spent)
    decreases |steps|
  {
    if steps != [] {
      var next, rest := Next(ctx, rt, steps[0]), Roll(ctx, Next(ctx, rt, steps[0]), steps[1..]).tries;
      if !steps[0].Try? {
        RollExact(ctx, next, steps[1..], gone, spent);
        assert [] + rest == rest;
      } else {
        var env := steps[0].env;
        var t := TriesOf(ctx, rt, steps[0])[0];
        DialIs(ctx, rt, env);
        assert MayDial(ctx, rt, env, gone, spent) <==> t.dial.id !in gone;
        assert ([t] + rest)[0] == t && ([t] + rest)[1..] == rest;
        if MayDial(ctx, rt, env, gone, spent) {
          RoundStands(ctx, rt, env, gone, spent);
          RollExact(ctx, next, steps[1..], if t.failed then gone + {t.dial.id} else gone, Spends(ctx, rt, env));
        }
      }
    }
  }

  /**
    Over every run of calls no config that failed is dialled again, if and only
    if no attempt is switched by the task row onto a failed config, and no other
    attempt follows a call that ended on its own failure.
   */
  lemma FailedNeverRetriedExact(ctx: Ctx, rt: Runtime, steps: seq<Step>)
    ensures NeverRetries(Roll(ctx, rt, steps).tries) <==> MayDialThroughout(ctx, rt, steps, {}, false)
  {
    RollExact(ctx, rt, steps, {}, false);
    FreshMeansNever(Roll(ctx, rt, steps).tries, {});
  }

  /** After a call that ended on its own failure the next call dials the same config, unless the row switches it. */
  lemma NextCallRedials(ctx: Ctx, rt: Runtime, env: Env, next: Env)
    requires Spends(ctx, rt, env)
    requires var after := Round(ctx, rt, env).rt; !(IsPending(ctx, after) && next.switchable)
    ensures Round(ctx, Round(ctx, rt, env).rt, next).dial.id == Round(ctx, rt, env).dial.id
  {
    EndedKeepsConfig(ctx, rt, env);
    DialIs(ctx, Round(ctx, rt, env).rt, next);
  }

  /** The only config, a dead endpoint, two calls whose failures the caller swallows: it is dialled in both. */
  lemma DeadEndpointIsRetried(c: Config, env: Env, used: int)
    requires env.reply.EndpointError?
    ensures var ctx := Ctx([c], true, false);
      var rt := Runtime(c, used, used, used, 0, [], None);
      var first, second := Run(ctx, rt, [env]), Run(ctx, Run(ctx, rt, [env]).rt, [env]);
      && first.done == Some(LlmError) && second.done == Some(LlmError)
      && |first.dials| == 1 && |second.dials| == 1 && first.dials[0].id == second.dials[0].id == c.id
      && c.id in first.rt.tried
      && !BouncesIn(ctx, rt, [env], {}) && !BouncesIn(ctx, first.rt, [env], {})
  {
    var ctx := Ctx([c], true, false);
    var rt := Runtime(c, used, used, used, 0, [], None);
    NoneLeft(ctx, rt, env, c);
    var after := Round(ctx, rt, env).rt;
    EndedKeepsConfig(ctx, rt, env);
    NoneLeft(ctx, after, env, c);
  }

  lemma NoneLeft(ctx: Ctx, rt: Runtime, env: Env, c: Config)
    requires ctx == Ctx([c], true, false) && rt.cfg == c && env.reply.EndpointError?
    ensures var r := Round(ctx, rt, env);
      r.done == Some(LlmError) && r.dial.id == c.id && r.rt.cfg == c && c.id in r.rt.tried
  {
    var tried := rt.tried + [c.id];
    assert tried[|tried| - 1] == c.id;
    assert [c][1..] == [] && Untried([c], tried) == [];
    assert FindFailoverConfigs([c], tried, env.healthy) == [];
  }
}
