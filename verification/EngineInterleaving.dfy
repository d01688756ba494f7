/**
 Rate-limit rules under interleaving: any number of evaluations run at once, each going through the stages of
 its rule's action, every stage a Get and a Use of the limiter's lock regions, with the cleaner and other callers
 in between. Which rule an evaluation tries is left open, so the bounds hold whatever conditions decide; only a
 request_count condition, which looks at the limiter itself, is a stage of its own before the action.
 */
module EngineInterleaving {
  import opened Wrappers
  import opened BucketKeys
  import opened RateLimiter
  import opened LimiterRuns
  import opened LimiterQuota
  import opened LimiterCleanup
  import opened LimiterRegions
  import opened LimiterInterleaving
  import opened RulesEngine
  import opened RuleSelection
  import opened EngineLimits
  import opened EngineRuns

  /** A rule whose request_count condition does not hold is skipped. */
  datatype Stage = AtCount | AtRequests | AtCost | AtTokens | Finished(allowed: bool) | Skipped

  /** An evaluation that tries a rate-limit rule, all of whose other conditions hold. */
  datatype Eval = Eval(c: Compiled, ctx: Context, stage: Stage)

  datatype Traffic = Traffic(limiter: State, evals: map<nat, Eval>)

  datatype Act =
    | Begin(eval: nat, c: Compiled, ctx: Context)
    | Advance(eval: nat)
    | Other(region: Region)

  datatype Tick = Tick(now: int, act: Act)

  predicate EvalOk(rules: seq<Compiled>, ev: Eval) {
    ev.c in rules && ev.c.act.RateLimit? && ev.ctx.cost >= 0.0
  }

  /** The limiter operation of the evaluation's stage, if the action configures one. */
  function StageOp(ev: Eval): Option<Op>
    requires ev.c.act.RateLimit? && ev.ctx.cost >= 0.0
  {
    var s := ScopeOr(ev.c.act.scope);
    match ev.stage
    case AtCount => Some(Peek(ReqKey("agent", ev.ctx.agentID, ev.c.rule.id)))
    case AtRequests => if LimitsRequests(ev.c.act) then Some(Request(ReqKey(s, ev.ctx.agentID, ev.c.rule.id))) else None
    case AtCost => if LimitsCost(ev.c.act) then Some(Charge(CostKey(s, ev.ctx.agentID, ev.c.rule.id), ev.ctx.cost)) else None
    case AtTokens =>
      if LimitsTokens(ev.c.act) then Some(Charge(TokKey(s, ev.ctx.agentID, ev.c.rule.id), ev.ctx.inputTokens as real)) else None
    case _ => None
  }

  /** Where the evaluation of a rule starts. */
  function FirstStage(c: Compiled): Stage { if CountsRequests(c.rule) then AtCount else AtRequests }

  lemma StageOpOk(ev: Eval)
    requires ev.c.act.RateLimit? && ev.ctx.cost >= 0.0
    ensures StageOp(ev).Some? ==> Answers(StageOp(ev).value) && OpOk(StageOp(ev).value)
  {
    KindsAreDisjoint(ScopeOr(ev.c.act.scope), ev.ctx.agentID, ev.c.rule.id);
    KindsAreDisjoint("agent", ev.ctx.agentID, ev.c.rule.id);
  }

  /** The stage after this one, once the limiter has answered: a count is exceeded if the peek says no. */
  function Answered(stage: Stage, ok: bool): Stage {
    if stage.AtCount? then (if ok then Skipped else AtRequests) else if ok then After(stage) else Finished(false)
  }

  function After(stage: Stage): Stage {
    match stage
    case AtRequests => AtCost
    case AtCost => AtTokens
    case _ => Finished(true)
  }

  /** Callers are evaluations in the middle of a stage, or somebody else. */
  ghost predicate EngineInv(cfg: Config, rules: seq<Compiled>, e: Traffic, now: int) {
    && RegionInv(cfg, e.limiter, now)
    && (forall t :: t in e.evals ==> EvalOk(rules, e.evals[t]))
    && (forall t :: t in e.evals && t in e.limiter.callers ==> StageOp(e.evals[t]) == Some(e.limiter.callers[t].op))
  }

  /** The lock region that an act of the engine performs, if any. */
  function RegionOf(e: Traffic, act: Act): Option<Region>
    requires act.Advance? ==> act.eval in e.evals && e.evals[act.eval].c.act.RateLimit? && e.evals[act.eval].ctx.cost >= 0.0
  {
    match act
    case Begin(_, _, _) => None
    case Advance(t) =>
      var op := StageOp(e.evals[t]);
      if op == None then None else if t in e.limiter.callers then Some(Use(t)) else Some(Get(t, op.value))
    case Other(a) => Some(a)
  }

  predicate CanDo(rules: seq<Compiled>, e: Traffic, act: Act) {
    match act
    case Begin(t, c, ctx) => t !in e.evals && t !in e.limiter.callers && EvalOk(rules, Eval(c, ctx, FirstStage(c)))
    case Advance(t) =>
      && t in e.evals && !e.evals[t].stage.Finished? && !e.evals[t].stage.Skipped? && EvalOk(rules, e.evals[t])
      && var r := RegionOf(e, act); r.Some? ==> Enabled(e.limiter, r.value)
    case Other(a) => Enabled(e.limiter, a) && (a.Get? || a.Use? ==> a.caller !in e.evals)
  }

  function Regions(rules: seq<Compiled>, e: Traffic, tick: Tick): seq<Move>
    requires CanDo(rules, e, tick.act)
  {
    var r := RegionOf(e, tick.act);
    if r.Some? then [Move(tick.now, r.value)] else []
  }

  function Does(cfg: Config, rules: seq<Compiled>, e: Traffic, tick: Tick): Traffic
    requires WellFormed(e.limiter) && CanDo(rules, e, tick.act)
  {
    var r := RegionOf(e, tick.act);
    var limiter := if r.Some? then Next(cfg, e.limiter, Move(tick.now, r.value)) else e.limiter;
    match tick.act
    case Begin(t, c, ctx) => Traffic(limiter, e.evals[t := Eval(c, ctx, FirstStage(c))])
    case Advance(t) =>
      var ev := e.evals[t];
      var stage :=
        if r == None then After(ev.stage)
        else
          var told := Told(e.limiter, Move(tick.now, r.value));
          if told == [] then ev.stage else Answered(ev.stage, told[0]);
      Traffic(limiter, e.evals[t := ev.(stage := stage)])
    case Other(_) => Traffic(limiter, e.evals)
  }

  lemma TickKeepsInv(cfg: Config, rules: seq<Compiled>, e: Traffic, tick: Tick, t0: int)
    requires EngineInv(cfg, rules, e, t0) && t0 <= tick.now && CanDo(rules, e, tick.act)
    ensures EngineInv(cfg, rules, Does(cfg, rules, e, tick), tick.now)
  {
    var r := RegionOf(e, tick.act);
    if r.Some? {
      MoveKeepsInv(cfg, e.limiter, Move(tick.now, r.value), t0);
    } else {
      BucketsOkLater(cfg, e.limiter.heap, t0, tick.now);
    }
  }

  // ---- Whole runs ----

  ghost predicate CanRun(cfg: Config, rules: seq<Compiled>, e: Traffic, ticks: seq<Tick>, t0: int)
    requires EngineInv(cfg, rules, e, t0)
    decreases |ticks|
  {
    ticks != [] ==>
      && t0 <= ticks[0].now && CanDo(rules, e, ticks[0].act)
      && (TickKeepsInv(cfg, rules, e, ticks[0], t0);
          CanRun(cfg, rules, Does(cfg, rules, e, ticks[0]), ticks[1..], ticks[0].now))
  }

  ghost function LastTick(ticks: seq<Tick>, t0: int): int {
    if ticks == [] then t0 else ticks[|ticks| - 1].now
  }

  ghost function RunTraffic(cfg: Config, rules: seq<Compiled>, e: Traffic, ticks: seq<Tick>, t0: int): (r: Traffic)
    requires EngineInv(cfg, rules, e, t0) && CanRun(cfg, rules, e, ticks, t0)
    ensures EngineInv(cfg, rules, r, LastTick(ticks, t0))
    decreases |ticks|
  {
    if ticks == [] then e
    else
      TickKeepsInv(cfg, rules, e, ticks[0], t0);
      RunTraffic(cfg, rules, Does(cfg, rules, e, ticks[0]), ticks[1..], ticks[0].now)
  }

  /** The lock regions that a run performs. */
  ghost function RegionsOf(cfg: Config, rules: seq<Compiled>, e: Traffic, ticks: seq<Tick>, t0: int): seq<Move>
    requires EngineInv(cfg, rules, e, t0) && CanRun(cfg, rules, e, ticks, t0)
    decreases |ticks|
  {
    if ticks == [] then []
    else
      TickKeepsInv(cfg, rules, e, ticks[0], t0);
      Regions(rules, e, ticks[0]) + RegionsOf(cfg, rules, Does(cfg, rules, e, ticks[0]), ticks[1..], ticks[0].now)
  }

  /** Has not been refused, as of e. */
  predicate Unrefused(e: Traffic, t: nat) { t in e.evals ==> e.evals[t].stage != Finished(false) }

  /** Evaluation t uses its bucket for this stage in this tick. */
  predicate UsesAt(e: Traffic, tick: Tick, t: nat, stage: Stage) {
    tick.act == Advance(t) && t in e.evals && e.evals[t].stage == stage && t in e.limiter.callers
  }

  predicate OfRule(ev: Eval, c: Compiled, agent: string) { ev.c == c && ev.ctx.agentID == agent }

  function StageOf(q: Meter): Stage { if q.Money? then AtCost else AtTokens }

  /** A winner among the agent's requests under the rule uses its bucket for this stage in this tick. */
  predicate WinnerUses(e: Traffic, tick: Tick, c: Compiled, agent: string, winners: set<nat>, stage: Stage) {
    tick.act.Advance? && tick.act.eval in winners && UsesAt(e, tick, tick.act.eval, stage) && OfRule(e.evals[tick.act.eval], c, agent)
  }

  function GrantedNow(e: Traffic, tick: Tick, c: Compiled, agent: string, winners: set<nat>): nat {
    if WinnerUses(e, tick, c, agent, winners, AtRequests) then 1 else 0
  }

  function SpentNow(e: Traffic, tick: Tick, c: Compiled, agent: string, winners: set<nat>, q: Meter): real {
    if WinnerUses(e, tick, c, agent, winners, StageOf(q)) then Amount(q, e.evals[tick.act.eval].ctx) else 0.0
  }

  /** How many requests of the agent took the rule's token in this run and are among the winners. */
  ghost function Granted(cfg: Config, rules: seq<Compiled>, e: Traffic, ticks: seq<Tick>, t0: int,
                         c: Compiled, agent: string, winners: set<nat>): nat
    requires EngineInv(cfg, rules, e, t0) && CanRun(cfg, rules, e, ticks, t0)
    decreases |ticks|
  {
    if ticks == [] then 0
    else
      TickKeepsInv(cfg, rules, e, ticks[0], t0);
      GrantedNow(e, ticks[0], c, agent, winners)
      + Granted(cfg, rules, Does(cfg, rules, e, ticks[0]), ticks[1..], ticks[0].now, c, agent, winners)
  }

  /** What the winners among them were charged on the meter. */
  ghost function Spent(cfg: Config, rules: seq<Compiled>, e: Traffic, ticks: seq<Tick>, t0: int,
                       c: Compiled, agent: string, winners: set<nat>, q: Meter): real
    requires EngineInv(cfg, rules, e, t0) && CanRun(cfg, rules, e, ticks, t0)
    decreases |ticks|
  {
    if ticks == [] then 0.0
    else
      TickKeepsInv(cfg, rules, e, ticks[0], t0);
      SpentNow(e, ticks[0], c, agent, winners, q)
      + Spent(cfg, rules, Does(cfg, rules, e, ticks[0]), ticks[1..], ticks[0].now, c, agent, winners, q)
  }

  // ---- What winners got was passed by the limiter ----

  lemma RefusalIsFinal(cfg: Config, rules: seq<Compiled>, e: Traffic, tick: Tick, t: nat)
    requires WellFormed(e.limiter) && CanDo(rules, e, tick.act)
    ensures Unrefused(Does(cfg, rules, e, tick), t) ==> Unrefused(e, t)
  {
  }

  lemma {:induction false} RefusalStays(cfg: Config, rules: seq<Compiled>, e: Traffic, ticks: seq<Tick>, t0: int, t: nat)
    requires EngineInv(cfg, rules, e, t0) && CanRun(cfg, rules, e, ticks, t0)
    ensures Unrefused(RunTraffic(cfg, rules, e, ticks, t0), t) ==> Unrefused(e, t)
    decreases |ticks|
  {
    if ticks != [] {
      TickKeepsInv(cfg, rules, e, ticks[0], t0);
      RefusalStays(cfg, rules, Does(cfg, rules, e, ticks[0]), ticks[1..], ticks[0].now, t);
      RefusalIsFinal(cfg, rules, e, ticks[0], t);
    }
  }

  /** A winner's use of its bucket is a pass, or a payment of its amount. */
  lemma WinnerPays(cfg: Config, rules: seq<Compiled>, e: Traffic, tick: Tick, t0: int, t: nat)
    requires EngineInv(cfg, rules, e, t0) && t0 <= tick.now && CanDo(rules, e, tick.act)
    requires tick.act == Advance(t) && t in e.limiter.callers && Unrefused(Does(cfg, rules, e, tick), t)
    ensures Regions(rules, e, tick) == [Move(tick.now, Use(t))] && Enabled(e.limiter, Use(t))
    ensures var ev := e.evals[t]; var mv := Move(tick.now, Use(t)); var s := ScopeOr(ev.c.act.scope);
      && (ev.stage.AtRequests? ==> Passes(e.limiter, mv, ReqKey(s, ev.ctx.agentID, ev.c.rule.id)))
      && (ev.stage.AtCost? ==> Pays(e.limiter, mv, CostKey(s, ev.ctx.agentID, ev.c.rule.id)) == ev.ctx.cost)
      && (ev.stage.AtTokens? ==> Pays(e.limiter, mv, TokKey(s, ev.ctx.agentID, ev.c.rule.id)) == ev.ctx.inputTokens as real)
  {
  }

  /** A run of the engine is a run of its lock regions. */
  lemma {:induction false} RegionsRun(cfg: Config, rules: seq<Compiled>, e: Traffic, ticks: seq<Tick>, t0: int)
    requires EngineInv(cfg, rules, e, t0) && CanRun(cfg, rules, e, ticks, t0)
    ensures Possible(cfg, e.limiter, RegionsOf(cfg, rules, e, ticks, t0), t0)
    ensures Run(cfg, e.limiter, RegionsOf(cfg, rules, e, ticks, t0), t0) == RunTraffic(cfg, rules, e, ticks, t0).limiter
    decreases |ticks|
  {
    if ticks != [] {
      var tick := ticks[0];
      TickKeepsInv(cfg, rules, e, tick, t0);
      var e' := Does(cfg, rules, e, tick);
      RegionsRun(cfg, rules, e', ticks[1..], tick.now);
      var rest := RegionsOf(cfg, rules, e', ticks[1..], tick.now);
      if Regions(rules, e, tick) == [] {
        SeenEarlier(cfg, e.limiter, rest, t0, tick.now, "");
        assert [] + rest == rest;
      } else {
        MoveThenRest(cfg, e.limiter, Regions(rules, e, tick)[0], rest, t0, "");
      }
    }
  }

  lemma {:induction false} RegionTimes(cfg: Config, rules: seq<Compiled>, e: Traffic, ticks: seq<Tick>, t0: int)
    requires EngineInv(cfg, rules, e, t0) && CanRun(cfg, rules, e, ticks, t0)
    ensures t0 <= LastTick(ticks, t0) && (ticks != [] ==> ticks[0].now <= LastTick(ticks, t0))
    ensures ticks != [] ==>
      forall mv :: mv in RegionsOf(cfg, rules, e, ticks, t0) ==> ticks[0].now <= mv.now <= LastTick(ticks, t0)
    decreases |ticks|
  {
    if ticks != [] {
      TickKeepsInv(cfg, rules, e, ticks[0], t0);
      RegionTimes(cfg, rules, Does(cfg, rules, e, ticks[0]), ticks[1..], ticks[0].now);
      assert LastTick(ticks[1..], ticks[0].now) == LastTick(ticks, t0);
    }
  }

  /** The rule's request key for an agent. */
  function RequestKey(c: Compiled, agent: string): string
    requires c.act.RateLimit?
  {
    ReqKey(ScopeOr(c.act.scope), agent, c.rule.id)
  }

  /** What one tick grants or charges to winners is no more than what its region passes or charges. */
  lemma TickPays(cfg: Config, rules: seq<Compiled>, e: Traffic, tick: Tick, t0: int, c: Compiled, agent: string, winners: set<nat>, q: Meter)
    requires EngineInv(cfg, rules, e, t0) && t0 <= tick.now && CanDo(rules, e, tick.act) && c.act.RateLimit?
    requires forall t :: t in winners ==> Unrefused(Does(cfg, rules, e, tick), t)
    ensures var regions := Regions(rules, e, tick);
      var granted, charged := GrantedNow(e, tick, c, agent, winners), SpentNow(e, tick, c, agent, winners, q);
      if regions == [] then granted == 0 && charged == 0.0
      else
        && regions == [regions[0]] && regions[0].now == tick.now && Enabled(e.limiter, regions[0].act)
        && (granted == 1 ==> Passes(e.limiter, regions[0], RequestKey(c, agent)))
        && charged <= Pays(e.limiter, regions[0], MeterKey(q, c.act, agent, c.rule.id))
  {
    if tick.act.Advance? && tick.act.eval in e.limiter.callers && tick.act.eval in winners {
      WinnerPays(cfg, rules, e, tick, t0, tick.act.eval);
    }
  }

  lemma {:induction false} TickThenRest(cfg: Config, rules: seq<Compiled>, e: Traffic, tick: Tick, rest: seq<Move>, t0: int,
                                        c: Compiled, agent: string, winners: set<nat>, q: Meter)
    requires EngineInv(cfg, rules, e, t0) && t0 <= tick.now && CanDo(rules, e, tick.act) && c.act.RateLimit?
    requires forall t :: t in winners ==> Unrefused(Does(cfg, rules, e, tick), t)
    requires var e' := Does(cfg, rules, e, tick); EngineInv(cfg, rules, e', tick.now) && Possible(cfg, e'.limiter, rest, tick.now)
    ensures var mvs := Regions(rules, e, tick) + rest; var l := Does(cfg, rules, e, tick).limiter;
      && Possible(cfg, e.limiter, mvs, t0)
      && GrantedNow(e, tick, c, agent, winners) + Passed(cfg, l, rest, tick.now, RequestKey(c, agent), false)
         <= Passed(cfg, e.limiter, mvs, t0, RequestKey(c, agent), false)
      && SpentNow(e, tick, c, agent, winners, q) + Paid(cfg, l, rest, tick.now, MeterKey(q, c.act, agent, c.rule.id), false)
         <= Paid(cfg, e.limiter, mvs, t0, MeterKey(q, c.act, agent, c.rule.id), false)
  {
    TickPays(cfg, rules, e, tick, t0, c, agent, winners, q);
    var reqKey, meterKey := RequestKey(c, agent), MeterKey(q, c.act, agent, c.rule.id);
    if Regions(rules, e, tick) == [] {
      SeenEarlier(cfg, e.limiter, rest, t0, tick.now, reqKey);
      SeenEarlier(cfg, e.limiter, rest, t0, tick.now, meterKey);
      assert [] + rest == rest;
    } else {
      MoveThenRest(cfg, e.limiter, Regions(rules, e, tick)[0], rest, t0, reqKey);
      MoveThenRest(cfg, e.limiter, Regions(rules, e, tick)[0], rest, t0, meterKey);
    }
  }

  lemma {:induction false} GrantedArePassed(cfg: Config, rules: seq<Compiled>, e: Traffic, ticks: seq<Tick>, t0: int,
                                            c: Compiled, agent: string, winners: set<nat>)
    requires EngineInv(cfg, rules, e, t0) && CanRun(cfg, rules, e, ticks, t0) && c.act.RateLimit?
    requires forall t :: t in winners ==> Unrefused(RunTraffic(cfg, rules, e, ticks, t0), t)
    ensures Possible(cfg, e.limiter, RegionsOf(cfg, rules, e, ticks, t0), t0)
    ensures Granted(cfg, rules, e, ticks, t0, c, agent, winners)
      <= Passed(cfg, e.limiter, RegionsOf(cfg, rules, e, ticks, t0), t0, RequestKey(c, agent), false)
    decreases |ticks|
  {
    RegionsRun(cfg, rules, e, ticks, t0);
    if ticks != [] {
      var tick := ticks[0];
      TickKeepsInv(cfg, rules, e, tick, t0);
      var e' := Does(cfg, rules, e, tick);
      GrantedArePassed(cfg, rules, e', ticks[1..], tick.now, c, agent, winners);
      StillUnrefused(cfg, rules, e', ticks[1..], tick.now, winners);
      TickThenRest(cfg, rules, e, tick, RegionsOf(cfg, rules, e', ticks[1..], tick.now), t0, c, agent, winners, Money);
    }
  }

  lemma {:induction false} SpentArePaid(cfg: Config, rules: seq<Compiled>, e: Traffic, ticks: seq<Tick>, t0: int,
                                        c: Compiled, agent: string, winners: set<nat>, q: Meter)
    requires EngineInv(cfg, rules, e, t0) && CanRun(cfg, rules, e, ticks, t0) && c.act.RateLimit?
    requires forall t :: t in winners ==> Unrefused(RunTraffic(cfg, rules, e, ticks, t0), t)
    ensures Possible(cfg, e.limiter, RegionsOf(cfg, rules, e, ticks, t0), t0)
    ensures Spent(cfg, rules, e, ticks, t0, c, agent, winners, q)
      <= Paid(cfg, e.limiter, RegionsOf(cfg, rules, e, ticks, t0), t0, MeterKey(q, c.act, agent, c.rule.id), false)
    decreases |ticks|
  {
    RegionsRun(cfg, rules, e, ticks, t0);
    if ticks != [] {
      var tick := ticks[0];
      TickKeepsInv(cfg, rules, e, tick, t0);
      var e' := Does(cfg, rules, e, tick);
      SpentArePaid(cfg, rules, e', ticks[1..], tick.now, c, agent, winners, q);
      StillUnrefused(cfg, rules, e', ticks[1..], tick.now, winners);
      TickThenRest(cfg, rules, e, tick, RegionsOf(cfg, rules, e', ticks[1..], tick.now), t0, c, agent, winners, q);
    }
  }

  lemma {:induction false} StillUnrefused(cfg: Config, rules: seq<Compiled>, e: Traffic, ticks: seq<Tick>, t0: int, winners: set<nat>)
    requires EngineInv(cfg, rules, e, t0) && CanRun(cfg, rules, e, ticks, t0)
    requires forall t :: t in winners ==> Unrefused(RunTraffic(cfg, rules, e, ticks, t0), t)
    ensures forall t :: t in winners ==> Unrefused(e, t)
  {
    forall t | t in winners ensures Unrefused(e, t) {
      RefusalStays(cfg, rules, e, ticks, t0, t);
    }
  }

  // ---- The bounds ----

  lemma FewerWithinBound(l: Limits, n: int, more: int, span: int)
    requires WithinBound(l, more, span) && n <= more
    ensures WithinBound(l, n, span)
  {
  }

  lemma {:induction false} RegionSpan(cfg: Config, rules: seq<Compiled>, e: Traffic, ticks: seq<Tick>, t0: int)
    requires EngineInv(cfg, rules, e, t0) && CanRun(cfg, rules, e, ticks, t0) && ticks != []
    ensures var mvs := RegionsOf(cfg, rules, e, ticks, t0); var d := LastTick(ticks, t0) - ticks[0].now;
      0 <= d && (mvs != [] ==> LastMove(mvs, t0) - mvs[0].now <= d)
  {
    RegionTimes(cfg, rules, e, ticks, t0);
    var mvs := RegionsOf(cfg, rules, e, ticks, t0);
    if mvs != [] {
      assert mvs[0] in mvs && mvs[|mvs| - 1] in mvs;
    }
  }

  /** What late uses of the key's bucket let through in the run. */
  ghost function LatePassed(cfg: Config, rules: seq<Compiled>, e: Traffic, ticks: seq<Tick>, t0: int, key: string): nat
    requires EngineInv(cfg, rules, e, t0) && CanRun(cfg, rules, e, ticks, t0)
  {
    RegionsRun(cfg, rules, e, ticks, t0);
    Passed(cfg, e.limiter, RegionsOf(cfg, rules, e, ticks, t0), t0, key, true)
  }

  ghost function LatePaid(cfg: Config, rules: seq<Compiled>, e: Traffic, ticks: seq<Tick>, t0: int, key: string): real
    requires EngineInv(cfg, rules, e, t0) && CanRun(cfg, rules, e, ticks, t0)
  {
    RegionsRun(cfg, rules, e, ticks, t0);
    Paid(cfg, e.limiter, RegionsOf(cfg, rules, e, ticks, t0), t0, key, true)
  }

  function RequestLimits(c: Compiled): Limits
    requires LimitsRequests(c.act)
  {
    Limits(c.act.maxReq, c.act.windowSec, 0.0, 1)
  }

  lemma {:induction false} StretchGrants(cfg: Config, rules: seq<Compiled>, e: Traffic, ticks: seq<Tick>, t0: int, c: Compiled, agent: string, winners: set<nat>, span: int)
    requires Fits(cfg, rules) && EngineInv(cfg, rules, e, t0) && CanRun(cfg, rules, e, ticks, t0) && ticks != []
    requires c in rules && LimitsRequests(c.act)
    requires span == LastTick(ticks, t0) - ticks[0].now
    requires forall t :: t in winners ==> Unrefused(RunTraffic(cfg, rules, e, ticks, t0), t)
    ensures WithinBound(RequestLimits(c),
      Granted(cfg, rules, e, ticks, t0, c, agent, winners) - LatePassed(cfg, rules, e, ticks, t0, RequestKey(c, agent)), span)
  {
    var key := RequestKey(c, agent);
    assert FitsRule(cfg, c, agent);
    KindsAreDisjoint(ScopeOr(c.act.scope), agent, c.rule.id);
    GrantedArePassed(cfg, rules, e, ticks, t0, c, agent, winners);
    RegionSpan(cfg, rules, e, ticks, t0);
    var mvs := RegionsOf(cfg, rules, e, ticks, t0);
    PassesWithin(cfg, e.limiter, mvs, t0, key, span);
    FewerWithinBound(RequestLimits(c), Granted(cfg, rules, e, ticks, t0, c, agent, winners) - LatePassed(cfg, rules, e, ticks, t0, key),
                     Passed(cfg, e.limiter, mvs, t0, key, false) - Passed(cfg, e.limiter, mvs, t0, key, true), span);
  }

  lemma {:induction false} StretchSpends(cfg: Config, rules: seq<Compiled>, e: Traffic, ticks: seq<Tick>, t0: int,
                      c: Compiled, agent: string, winners: set<nat>, q: Meter)
    requires Fits(cfg, rules) && EngineInv(cfg, rules, e, t0) && CanRun(cfg, rules, e, ticks, t0) && ticks != []
    requires c in rules && Meters(q, c.act) && LastTick(ticks, t0) - ticks[0].now <= DAY_SEC * SECOND
    requires forall t :: t in winners ==> Unrefused(RunTraffic(cfg, rules, e, ticks, t0), t)
    ensures Spent(cfg, rules, e, ticks, t0, c, agent, winners, q)
      <= 2.0 * DailyLimit(q, c.act) + LatePaid(cfg, rules, e, ticks, t0, MeterKey(q, c.act, agent, c.rule.id))
  {
    var key := MeterKey(q, c.act, agent, c.rule.id);
    assert FitsRule(cfg, c, agent);
    KindsAreDisjoint(ScopeOr(c.act.scope), agent, c.rule.id);
    SpentArePaid(cfg, rules, e, ticks, t0, c, agent, winners, q);
    RegionSpan(cfg, rules, e, ticks, t0);
    var mvs := RegionsOf(cfg, rules, e, ticks, t0);
    if mvs != [] {
      StretchPays(cfg, e.limiter, mvs, t0, key);
    }
  }

  /** In an undisturbed stretch nothing is late. */
  lemma {:induction false} UndisturbedStretch(cfg: Config, rules: seq<Compiled>, e: Traffic, ticks: seq<Tick>, t0: int, key: string)
    requires EngineInv(cfg, rules, e, t0) && CanRun(cfg, rules, e, ticks, t0) && AllLive(e.limiter)
    requires Possible(cfg, e.limiter, RegionsOf(cfg, rules, e, ticks, t0), t0)
    requires Undisturbed(cfg, e.limiter, RegionsOf(cfg, rules, e, ticks, t0), t0)
    ensures LatePassed(cfg, rules, e, ticks, t0, key) == 0 && LatePaid(cfg, rules, e, ticks, t0, key) == 0.0
  {
    NothingIsLate(cfg, e.limiter, RegionsOf(cfg, rules, e, ticks, t0), t0, key);
  }

  // ---- Runs from the start ----

  const QUIET := Traffic(START, map[])

  lemma QuietInv(cfg: Config, rules: seq<Compiled>, t0: int)
    ensures EngineInv(cfg, rules, QUIET, t0)
  {
    StartInv(cfg, t0);
  }

  lemma {:induction false} SplitTraffic(cfg: Config, rules: seq<Compiled>, e: Traffic, ticks: seq<Tick>, t0: int, i: nat)
    requires EngineInv(cfg, rules, e, t0) && CanRun(cfg, rules, e, ticks, t0) && i <= |ticks|
    ensures CanRun(cfg, rules, e, ticks[..i], t0)
    ensures var r := RunTraffic(cfg, rules, e, ticks[..i], t0); var t := LastTick(ticks[..i], t0);
      CanRun(cfg, rules, r, ticks[i..], t) && RunTraffic(cfg, rules, r, ticks[i..], t) == RunTraffic(cfg, rules, e, ticks, t0)
    decreases |ticks|
  {
    if i > 0 {
      TickKeepsInv(cfg, rules, e, ticks[0], t0);
      SplitTraffic(cfg, rules, Does(cfg, rules, e, ticks[0]), ticks[1..], ticks[0].now, i - 1);
      assert ticks[..i][1..] == ticks[1..][..i - 1] && ticks[..i][0] == ticks[0];
      assert ticks[i..] == ticks[1..][i - 1..];
      assert LastTick(ticks[..i], t0) == LastTick(ticks[1..][..i - 1], ticks[0].now);
    } else {
      assert ticks[0..] == ticks;
    }
  }

  /** What follows a stretch undoes no refusal in it. */
  lemma {:induction false} UnrefusedBefore(cfg: Config, rules: seq<Compiled>, e: Traffic, ticks: seq<Tick>, t0: int, n: nat, winners: set<nat>)
    requires EngineInv(cfg, rules, e, t0) && CanRun(cfg, rules, e, ticks, t0) && n <= |ticks|
    requires forall w :: w in winners ==> Unrefused(RunTraffic(cfg, rules, e, ticks, t0), w)
    ensures CanRun(cfg, rules, e, ticks[..n], t0)
    ensures forall w :: w in winners ==> Unrefused(RunTraffic(cfg, rules, e, ticks[..n], t0), w)
  {
    SplitTraffic(cfg, rules, e, ticks, t0, n);
    StillUnrefused(cfg, rules, RunTraffic(cfg, rules, e, ticks[..n], t0), ticks[n..], LastTick(ticks[..n], t0), winners);
  }

  lemma {:induction false} StretchOfTraffic(cfg: Config, rules: seq<Compiled>, ticks: seq<Tick>, t0: int, i: nat, j: nat)
      returns (e: Traffic, t: int)
    requires EngineInv(cfg, rules, QUIET, t0) && CanRun(cfg, rules, QUIET, ticks, t0) && i <= j <= |ticks|
    ensures CanRun(cfg, rules, QUIET, ticks[..i], t0)
    ensures e == RunTraffic(cfg, rules, QUIET, ticks[..i], t0) && t == LastTick(ticks[..i], t0)
    ensures EngineInv(cfg, rules, e, t) && CanRun(cfg, rules, e, ticks[i..j], t)
    ensures forall w :: w in Winners(RunTraffic(cfg, rules, QUIET, ticks, t0)) ==> Unrefused(RunTraffic(cfg, rules, e, ticks[i..j], t), w)
  {
    SplitTraffic(cfg, rules, QUIET, ticks, t0, i);
    assert ticks[i..][..j - i] == ticks[i..j];
    e, t := RunTraffic(cfg, rules, QUIET, ticks[..i], t0), LastTick(ticks[..i], t0);
    UnrefusedBefore(cfg, rules, e, ticks[i..], t, j - i, Winners(RunTraffic(cfg, rules, QUIET, ticks, t0)));
  }

  lemma StretchEnds(ticks: seq<Tick>, t: int, i: nat, j: nat)
    requires i < j <= |ticks|
    ensures ticks[i..j] != [] && ticks[i..j][0] == ticks[i] && LastTick(ticks[i..j], t) == ticks[j - 1].now
  {
  }

  /** The evaluations that end in an allow. */
  function Winners(e: Traffic): set<nat> { set t | t in e.evals && e.evals[t].stage == Finished(true) }

  /**
   In every interleaving of evaluations, peeks and cleanup from an idle engine, over any stretch: of the
   requests that a rule allows one agent in the end, those that took their token in the stretch number at most
   maxReq + ceil(D * maxReq / window) (twice the limit in a window), besides what passes late.
   */
  lemma {:induction false} AllowedUnderInterleaving(cfg: Config, rules: seq<Compiled>, ticks: seq<Tick>, t0: int, i: nat, j: nat, c: Compiled, agent: string)
      returns (e: Traffic, t: int)
    requires Fits(cfg, rules) && EngineInv(cfg, rules, QUIET, t0) && CanRun(cfg, rules, QUIET, ticks, t0)
    requires i < j <= |ticks| && c in rules && LimitsRequests(c.act)
    ensures CanRun(cfg, rules, QUIET, ticks[..i], t0)
    ensures e == RunTraffic(cfg, rules, QUIET, ticks[..i], t0) && t == LastTick(ticks[..i], t0)
    ensures EngineInv(cfg, rules, e, t) && CanRun(cfg, rules, e, ticks[i..j], t)
    ensures WithinBound(RequestLimits(c),
      Granted(cfg, rules, e, ticks[i..j], t, c, agent, Winners(RunTraffic(cfg, rules, QUIET, ticks, t0)))
      - LatePassed(cfg, rules, e, ticks[i..j], t, RequestKey(c, agent)), ticks[j - 1].now - ticks[i].now)
  {
    e, t := StretchOfTraffic(cfg, rules, ticks, t0, i, j);
    StretchEnds(ticks, t, i, j);
    StretchGrants(cfg, rules, e, ticks[i..j], t, c, agent, Winners(RunTraffic(cfg, rules, QUIET, ticks, t0)), ticks[j - 1].now - ticks[i].now);
  }

  /** And in a day those charged in the stretch cost, or hold tokens, at most twice the budget besides what is charged late. */
  lemma {:induction false} SpentUnderInterleaving(cfg: Config, rules: seq<Compiled>, ticks: seq<Tick>, t0: int, i: nat, j: nat, c: Compiled, agent: string, q: Meter)
      returns (e: Traffic, t: int)
    requires Fits(cfg, rules) && EngineInv(cfg, rules, QUIET, t0) && CanRun(cfg, rules, QUIET, ticks, t0)
    requires i < j <= |ticks| && c in rules && Meters(q, c.act) && ticks[j - 1].now - ticks[i].now <= DAY_SEC * SECOND
    ensures CanRun(cfg, rules, QUIET, ticks[..i], t0)
    ensures e == RunTraffic(cfg, rules, QUIET, ticks[..i], t0) && t == LastTick(ticks[..i], t0)
    ensures EngineInv(cfg, rules, e, t) && CanRun(cfg, rules, e, ticks[i..j], t)
    ensures Spent(cfg, rules, e, ticks[i..j], t, c, agent, Winners(RunTraffic(cfg, rules, QUIET, ticks, t0)), q)
      <= 2.0 * DailyLimit(q, c.act) + LatePaid(cfg, rules, e, ticks[i..j], t, MeterKey(q, c.act, agent, c.rule.id))
  {
    e, t := StretchOfTraffic(cfg, rules, ticks, t0, i, j);
    StretchEnds(ticks, t, i, j);
    StretchSpends(cfg, rules, e, ticks[i..j], t, c, agent, Winners(RunTraffic(cfg, rules, QUIET, ticks, t0)), q);
  }

  // ---- Rules with a request_count condition never get to act ----

  ghost predicate NoCounterKey(rules: seq<Compiled>, key: string) {
    forall c, scope: string, agent: string :: c in rules && CountsRequests(c.rule) ==> key != ReqKey(scope, agent, c.rule.id)
  }

  /** No bucket of such a rule has ever been created. */
  ghost predicate NoCounters(rules: seq<Compiled>, heap: seq<Cell>) {
    forall p :: 0 <= p < |heap| ==> NoCounterKey(rules, heap[p].key)
  }

  /** Evaluations of such rules have not got past their count. */
  predicate CountersWait(e: Traffic) {
    forall t :: t in e.evals && CountsRequests(e.evals[t].c.rule) ==> e.evals[t].stage.AtCount? || e.evals[t].stage.Skipped?
  }

  /** Callers that are no evaluations only peek, as conditions do. */
  predicate OthersPeek(tick: Tick) { tick.act.Other? && tick.act.region.Get? ==> tick.act.region.op.Peek? }

  lemma CellKeys(cfg: Config, s: State, mv: Move)
    requires WellFormed(s) && Enabled(s, mv.act)
    ensures var s' := Next(cfg, s, mv);
      && |s.heap| <= |s'.heap| && (forall p :: 0 <= p < |s.heap| ==> s'.heap[p].key == s.heap[p].key)
      && (mv.act.Get? && !mv.act.op.Peek? ==> forall p :: |s.heap| <= p < |s'.heap| ==> s'.heap[p].key == mv.act.op.key)
      && (!mv.act.Get? || mv.act.op.Peek? ==> |s'.heap| == |s.heap|)
  {
  }

  lemma NoCountersNext(rules: seq<Compiled>, cfg: Config, s: State, mv: Move)
    requires WellFormed(s) && Enabled(s, mv.act) && NoCounters(rules, s.heap)
    requires mv.act.Get? && !mv.act.op.Peek? ==> NoCounterKey(rules, mv.act.op.key)
    ensures NoCounters(rules, Next(cfg, s, mv).heap)
  {
    CellKeys(cfg, s, mv);
    var s' := Next(cfg, s, mv);
    forall p | 0 <= p < |s'.heap| ensures NoCounterKey(rules, s'.heap[p].key) {
      assert p < |s.heap| ==> s'.heap[p].key == s.heap[p].key;
    }
  }

  /** The action of another rule uses keys of its own. */
  lemma OtherRulesKeys(rules: seq<Compiled>, ev: Eval)
    requires EvalOk(rules, ev) && DistinctCompiled(rules) && !CountsRequests(ev.c.rule) && StageOp(ev).Some? && !StageOp(ev).value.Peek?
    ensures NoCounterKey(rules, StageOp(ev).value.key)
  {
    var s := ScopeOr(ev.c.act.scope);
    var key := StageOp(ev).value.key;
    KindsAreDisjoint(s, ev.ctx.agentID, ev.c.rule.id);
    forall c, scope: string, agent: string | c in rules && CountsRequests(c.rule) ensures key != ReqKey(scope, agent, c.rule.id) {
      KindsAreDisjoint(scope, agent, c.rule.id);
      KeysFixTheRule(s, ev.ctx.agentID, ev.c.rule.id, scope, agent, c.rule.id);
      SameIDSameCompiled(rules, c, ev.c);
    }
  }

  lemma SameIDSameCompiled(rules: seq<Compiled>, a: Compiled, b: Compiled)
    requires DistinctCompiled(rules) && a in rules && b in rules
    ensures a.rule.id == b.rule.id <==> a == b
  {
    var i :| 0 <= i < |rules| && rules[i] == a;
    var j :| 0 <= j < |rules| && rules[j] == b;
  }

  /** Where there is no bucket a count is not exceeded, so the rule is skipped. */
  lemma CountIsSkipped(cfg: Config, rules: seq<Compiled>, e: Traffic, now: int, t: nat)
    requires WellFormed(e.limiter) && CanDo(rules, e, Advance(t)) && NoCounters(rules, e.limiter.heap)
    requires t in e.limiter.callers ==> StageOp(e.evals[t]) == Some(e.limiter.callers[t].op)
    requires CountsRequests(e.evals[t].c.rule) && e.evals[t].stage.AtCount?
    ensures var e' := Does(cfg, rules, e, Tick(now, Advance(t)));
      e'.limiter == e.limiter && e'.evals == e.evals[t := e.evals[t].(stage := Skipped)]
  {
    var key := ReqKey("agent", e.evals[t].ctx.agentID, e.evals[t].c.rule.id);
    assert !NoCounterKey(rules, key);
    CountNotHeld(rules, e, t, key);
    assert key !in e.limiter.ptrs;
  }

  lemma CountNotHeld(rules: seq<Compiled>, e: Traffic, t: nat, key: string)
    requires WellFormed(e.limiter) && NoCounters(rules, e.limiter.heap) && !NoCounterKey(rules, key)
    ensures t in e.limiter.callers ==> e.limiter.callers[t].op.key != key
  {
    assert t in e.limiter.callers ==> CallerOk(e.limiter.callers[t], e.limiter.heap);
  }

  lemma CountersStayOut(cfg: Config, rules: seq<Compiled>, e: Traffic, tick: Tick, t0: int)
    requires EngineInv(cfg, rules, e, t0) && t0 <= tick.now && CanDo(rules, e, tick.act) && DistinctCompiled(rules) && OthersPeek(tick)
    requires NoCounters(rules, e.limiter.heap) && CountersWait(e)
    ensures var e' := Does(cfg, rules, e, tick); NoCounters(rules, e'.limiter.heap) && CountersWait(e')
  {
    var r := RegionOf(e, tick.act);
    if tick.act.Advance? && CountsRequests(e.evals[tick.act.eval].c.rule) {
      CountIsSkipped(cfg, rules, e, tick.now, tick.act.eval);
    } else if r.Some? {
      if tick.act.Advance? && r.value.Get? && !r.value.op.Peek? {
        OtherRulesKeys(rules, e.evals[tick.act.eval]);
      }
      NoCountersNext(rules, cfg, e.limiter, Move(tick.now, r.value));
    }
  }

  lemma {:induction false} RunKeepsCountersOut(cfg: Config, rules: seq<Compiled>, e: Traffic, ticks: seq<Tick>, t0: int)
    requires EngineInv(cfg, rules, e, t0) && CanRun(cfg, rules, e, ticks, t0) && DistinctCompiled(rules)
    requires forall i :: 0 <= i < |ticks| ==> OthersPeek(ticks[i])
    requires NoCounters(rules, e.limiter.heap) && CountersWait(e)
    ensures var r := RunTraffic(cfg, rules, e, ticks, t0); NoCounters(rules, r.limiter.heap) && CountersWait(r)
    decreases |ticks|
  {
    if ticks != [] {
      TickKeepsInv(cfg, rules, e, ticks[0], t0);
      CountersStayOut(cfg, rules, e, ticks[0], t0);
      RunKeepsCountersOut(cfg, rules, Does(cfg, rules, e, ticks[0]), ticks[1..], ticks[0].now);
    }
  }

  /**
   In no interleaving from an idle engine does an evaluation of a rule with a request_count condition get to the
   rule's action, and no bucket of such a rule is ever created.
   */
  lemma {:induction false} CountingRulesNeverAct(cfg: Config, rules: seq<Compiled>, ticks: seq<Tick>, t0: int)
    requires EngineInv(cfg, rules, QUIET, t0) && CanRun(cfg, rules, QUIET, ticks, t0) && DistinctCompiled(rules)
    requires forall i :: 0 <= i < |ticks| ==> OthersPeek(ticks[i])
    ensures var e := RunTraffic(cfg, rules, QUIET, ticks, t0);
      && (forall t :: t in e.evals && CountsRequests(e.evals[t].c.rule) ==> e.evals[t].stage.AtCount? || e.evals[t].stage.Skipped?)
      && (forall p, c, scope: string, agent: string ::
            0 <= p < |e.limiter.heap| && c in rules && CountsRequests(c.rule) ==> e.limiter.heap[p].key != ReqKey(scope, agent, c.rule.id))
  {
    RunKeepsCountersOut(cfg, rules, QUIET, ticks, t0);
    var e := RunTraffic(cfg, rules, QUIET, ticks, t0);
    forall p, c, scope: string, agent: string | 0 <= p < |e.limiter.heap| && c in rules && CountsRequests(c.rule)
      ensures e.limiter.heap[p].key != ReqKey(scope, agent, c.rule.id)
    {
      assert NoCounterKey(rules, e.limiter.heap[p].key);
    }
  }
}
