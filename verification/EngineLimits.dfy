/**
 What a rate-limit rule guarantees over any stretch of a whole run of the engine, its evaluations one after
 the other (EngineInterleaving lets them overlap). The engine's run
 is turned into the run of bucket operations it performs, and the bounds of LimiterRuns and
 LimiterQuota are read back as bounds on the requests, and on their cost, that the rule allowed.
 */
module EngineLimits {
  import opened BucketKeys
  import opened RateLimiter
  import opened LimiterRuns
  import opened LimiterQuota
  import opened RulesEngine
  import opened RuleSelection
  import opened EngineRuns

  /** A clock that never goes back, and costs that are never negative. */
  predicate TicksOk(ticks: seq<Tick>, t0: int) {
    ticks != [] ==>
      && t0 <= ticks[0].now && (ticks[0].Evaluate? ==> ticks[0].ctx.cost >= 0.0)
      && TicksOk(ticks[1..], ticks[0].now)
  }

  // ---- The limits each bucket key is used with ----

  /** What the two daily budgets count. */
  datatype Meter = Money | Tokens

  predicate Meters(q: Meter, act: Action) {
    match q
    case Money => LimitsCost(act)
    case Tokens => LimitsTokens(act)
  }

  function Amount(q: Meter, ctx: Context): real {
    match q
    case Money => ctx.cost
    case Tokens => ctx.inputTokens as real
  }

  function MeterKey(q: Meter, act: Action, agent: string, id: int): string
    requires act.RateLimit?
  {
    match q
    case Money => CostKey(ScopeOr(act.scope), agent, id)
    case Tokens => TokKey(ScopeOr(act.scope), agent, id)
  }

  function DailyLimit(q: Meter, act: Action): real
    requires act.RateLimit?
  {
    match q
    case Money => act.maxCost
    case Tokens => act.maxTokDay as real
  }

  ghost predicate OwnsReq(rules: seq<Compiled>, c: Compiled, agent: string, k: string) {
    c in rules && LimitsRequests(c.act) && k == ReqKey(ScopeOr(c.act.scope), agent, c.rule.id)
  }

  ghost predicate OwnsCost(rules: seq<Compiled>, c: Compiled, agent: string, k: string) {
    c in rules && LimitsCost(c.act) && k == CostKey(ScopeOr(c.act.scope), agent, c.rule.id)
  }

  ghost predicate OwnsTok(rules: seq<Compiled>, c: Compiled, agent: string, k: string) {
    c in rules && LimitsTokens(c.act) && k == TokKey(ScopeOr(c.act.scope), agent, c.rule.id)
  }

  /** A key is only ever used by the rule whose id it carries, so its limits are that rule's. */
  ghost function LimitsOf(rules: seq<Compiled>, k: string): Limits {
    if exists c, a :: OwnsReq(rules, c, a, k) then
      var c, a :| OwnsReq(rules, c, a, k); Limits(c.act.maxReq, c.act.windowSec, 0.0, 1)
    else if exists c, a :: OwnsCost(rules, c, a, k) then
      var c, a :| OwnsCost(rules, c, a, k); Limits(1, 1, c.act.maxCost, DAY_SEC)
    else if exists c, a :: OwnsTok(rules, c, a, k) then
      var c, a :| OwnsTok(rules, c, a, k); Limits(1, 1, c.act.maxTokDay as real, DAY_SEC)
    else Limits(1, 1, 0.0, 1)
  }

  ghost function ConfigOf(rules: seq<Compiled>): Config { k => LimitsOf(rules, k) }

  lemma SameIDSameCompiled(rules: seq<Compiled>, c: Compiled, d: Compiled)
    requires DistinctCompiled(rules) && c in rules && d in rules && c.rule.id == d.rule.id
    ensures c == d
  {
    var i :| 0 <= i < |rules| && rules[i] == c;
    var j :| 0 <= j < |rules| && rules[j] == d;
  }

  lemma ReqLimits(rules: seq<Compiled>, c: Compiled, agent: string)
    requires DistinctCompiled(rules) && c in rules && LimitsRequests(c.act)
    ensures LimitsOf(rules, ReqKey(ScopeOr(c.act.scope), agent, c.rule.id)) == Limits(c.act.maxReq, c.act.windowSec, 0.0, 1)
  {
    var k := ReqKey(ScopeOr(c.act.scope), agent, c.rule.id);
    assert OwnsReq(rules, c, agent, k);
    forall d, a | OwnsReq(rules, d, a, k) ensures d == c {
      KeysFixTheRule(ScopeOr(c.act.scope), agent, c.rule.id, ScopeOr(d.act.scope), a, d.rule.id);
      SameIDSameCompiled(rules, c, d);
    }
  }

  lemma CostLimits(rules: seq<Compiled>, c: Compiled, agent: string)
    requires DistinctCompiled(rules) && c in rules && LimitsCost(c.act)
    ensures LimitsOf(rules, CostKey(ScopeOr(c.act.scope), agent, c.rule.id)) == Limits(1, 1, c.act.maxCost, DAY_SEC)
  {
    var k := CostKey(ScopeOr(c.act.scope), agent, c.rule.id);
    assert OwnsCost(rules, c, agent, k);
    KindsAreDisjoint(ScopeOr(c.act.scope), agent, c.rule.id);
    forall d, a ensures !OwnsReq(rules, d, a, k) {
      if d.act.RateLimit? { KindsAreDisjoint(ScopeOr(d.act.scope), a, d.rule.id); }
    }
    forall d, a | OwnsCost(rules, d, a, k) ensures d == c {
      KeysFixTheRule(ScopeOr(c.act.scope), agent, c.rule.id, ScopeOr(d.act.scope), a, d.rule.id);
      SameIDSameCompiled(rules, c, d);
    }
  }

  lemma TokLimits(rules: seq<Compiled>, c: Compiled, agent: string)
    requires DistinctCompiled(rules) && c in rules && LimitsTokens(c.act)
    ensures LimitsOf(rules, TokKey(ScopeOr(c.act.scope), agent, c.rule.id)) == Limits(1, 1, c.act.maxTokDay as real, DAY_SEC)
  {
    var k := TokKey(ScopeOr(c.act.scope), agent, c.rule.id);
    assert OwnsTok(rules, c, agent, k);
    KindsAreDisjoint(ScopeOr(c.act.scope), agent, c.rule.id);
    forall d, a ensures !OwnsReq(rules, d, a, k) && !OwnsCost(rules, d, a, k) {
      if d.act.RateLimit? { KindsAreDisjoint(ScopeOr(d.act.scope), a, d.rule.id); }
    }
    forall d, a | OwnsTok(rules, d, a, k) ensures d == c {
      KeysFixTheRule(ScopeOr(c.act.scope), agent, c.rule.id, ScopeOr(d.act.scope), a, d.rule.id);
      SameIDSameCompiled(rules, c, d);
    }
  }

  /** The keys of this rule and agent are configured with the rule's own limits. */
  ghost predicate FitsRule(cfg: Config, c: Compiled, agent: string)
    requires c.act.RateLimit?
  {
    var s := ScopeOr(c.act.scope);
    && (LimitsRequests(c.act) ==> cfg(ReqKey(s, agent, c.rule.id)) == Limits(c.act.maxReq, c.act.windowSec, 0.0, 1))
    && (LimitsCost(c.act) ==> cfg(CostKey(s, agent, c.rule.id)) == Limits(1, 1, c.act.maxCost, DAY_SEC))
    && (LimitsTokens(c.act) ==> cfg(TokKey(s, agent, c.rule.id)) == Limits(1, 1, c.act.maxTokDay as real, DAY_SEC))
  }

  ghost predicate Fits(cfg: Config, rules: seq<Compiled>) {
    && DistinctCompiled(rules)
    && forall c, agent :: c in rules && c.act.RateLimit? ==> FitsRule(cfg, c, agent)
  }

  lemma ConfigFits(rules: seq<Compiled>)
    requires DistinctCompiled(rules)
    ensures Fits(ConfigOf(rules), rules)
  {
    forall c, agent: string | c in rules && c.act.RateLimit? ensures FitsRule(ConfigOf(rules), c, agent) {
      if LimitsRequests(c.act) { ReqLimits(rules, c, agent); }
      if LimitsCost(c.act) { CostLimits(rules, c, agent); }
      if LimitsTokens(c.act) { TokLimits(rules, c, agent); }
    }
  }

  lemma SomeConfigFits(ext: External, rows: seq<Rule>) returns (cfg: Config)
    requires DistinctIDs(rows)
    ensures Fits(cfg, Load(ext, rows))
  {
    LoadDistinct(ext, rows);
    ConfigFits(Load(ext, rows));
    cfg := ConfigOf(Load(ext, rows));
  }

  // ---- The bucket operations of one evaluation ----

  function RequestEvents(act: Action, ctx: Context, id: int, now: int): seq<Event> {
    if LimitsRequests(act) then [Event(now, Request(ReqKey(ScopeOr(act.scope), ctx.agentID, id)))] else []
  }

  function CostEvents(act: Action, ctx: Context, id: int, now: int): seq<Event>
    requires ctx.cost >= 0.0
  {
    if LimitsCost(act) then [Event(now, Charge(CostKey(ScopeOr(act.scope), ctx.agentID, id), ctx.cost))] else []
  }

  function TokenEvents(act: Action, ctx: Context, id: int, now: int): seq<Event> {
    if LimitsTokens(act) then [Event(now, Charge(TokKey(ScopeOr(act.scope), ctx.agentID, id), ctx.inputTokens as real))] else []
  }

  /** The operations ApplyLimit performs: it stops at the first refusal. */
  function LimitEvents(act: Action, ctx: Context, id: int, m: Buckets, now: int): seq<Event>
    requires KindsMatch(m) && ctx.cost >= 0.0
  {
    if !act.RateLimit? then []
    else
      var (m1, ok1) := RequestStage(act, ctx, id, m, now);
      var e1 := RequestEvents(act, ctx, id, now);
      if !ok1 then e1
      else
        var (m2, ok2) := CostStage(act, ctx, id, m1, now);
        var e2 := e1 + CostEvents(act, ctx, id, now);
        if !ok2 then e2 else e2 + TokenEvents(act, ctx, id, now)
  }

  function TickEvents(ext: External, rules: seq<Compiled>, m: Buckets, tick: Tick): seq<Event>
    requires KindsMatch(m) && (tick.Evaluate? ==> tick.ctx.cost >= 0.0)
  {
    match tick
    case Sweep(now) => [Event(now, Cleanup)]
    case Evaluate(now, ctx) =>
      var i := FirstMatch(ext, rules, ctx, m, now);
      if i < |rules| then LimitEvents(rules[i].act, ctx, rules[i].rule.id, m, now) else []
  }

  // ---- Runs compose ----

  lemma {:induction false} RunConcat(cfg: Config, m: Buckets, a: seq<Event>, b: seq<Event>, t0: int)
    requires Inv(cfg, m, t0) && RunOk(a, t0) && RunOk(b, LastTime(a, t0))
    ensures Inv(cfg, Exec(cfg, m, a, t0), LastTime(a, t0))
    ensures RunOk(a + b, t0) && LastTime(a + b, t0) == LastTime(b, LastTime(a, t0))
    ensures Exec(cfg, m, a + b, t0) == Exec(cfg, Exec(cfg, m, a, t0), b, LastTime(a, t0))
    decreases |a|
  {
    ExecKeepsInv(cfg, m, a, t0);
    if a == [] {
      assert a + b == b;
    } else {
      StepKeepsInv(cfg, m, a[0], t0);
      assert (a + b)[1..] == a[1..] + b && (a + b)[0] == a[0];
      assert LastTime(a, t0) == LastTime(a[1..], a[0].now);
      RunConcat(cfg, Step(cfg, m, a[0]).0, a[1..], b, a[0].now);
    }
  }

  lemma {:induction false} SumsConcat(cfg: Config, m: Buckets, a: seq<Event>, b: seq<Event>, t0: int, key: string)
    requires Inv(cfg, m, t0) && RunOk(a, t0) && RunOk(b, LastTime(a, t0))
    requires RunOk(a + b, t0) && Inv(cfg, Exec(cfg, m, a, t0), LastTime(a, t0))
    ensures Admitted(cfg, m, a + b, t0, key)
      == Admitted(cfg, m, a, t0, key) + Admitted(cfg, Exec(cfg, m, a, t0), b, LastTime(a, t0), key)
    ensures Charged(cfg, m, a + b, t0, key)
      == Charged(cfg, m, a, t0, key) + Charged(cfg, Exec(cfg, m, a, t0), b, LastTime(a, t0), key)
    decreases |a|
  {
    if a == [] {
      assert a + b == b;
    } else {
      StepKeepsInv(cfg, m, a[0], t0);
      assert (a + b)[1..] == a[1..] + b && (a + b)[0] == a[0];
      assert LastTime(a, t0) == LastTime(a[1..], a[0].now);
      SumsConcat(cfg, Step(cfg, m, a[0]).0, a[1..], b, a[0].now, key);
    }
  }

  lemma {:induction false} RunOfOne(cfg: Config, m: Buckets, e: Event, t0: int)
    requires Inv(cfg, m, t0) && OpOk(e.op) && t0 <= e.now
    ensures KindsMatch(m) && RunOk([e], t0) && LastTime([e], t0) == e.now
    ensures Exec(cfg, m, [e], t0) == Step(cfg, m, e).0
    ensures forall k :: Admitted(cfg, m, [e], t0, k) == if e.op == Request(k) && Step(cfg, m, e).1 then 1 else 0
    ensures forall k :: Charged(cfg, m, [e], t0, k) == Gain(e, Step(cfg, m, e).1, k)
  {
    StepKeepsInv(cfg, m, e, t0);
    assert [e][1..] == [];
  }

  /** `evs` is what really happens between m and m', and its last event is no later than `now`. */
  ghost predicate Performs(cfg: Config, m: Buckets, evs: seq<Event>, m': Buckets, t0: int, now: int) {
    && Inv(cfg, m, t0) && RunOk(evs, t0) && LastTime(evs, t0) <= now
    && Exec(cfg, m, evs, t0) == m' && Inv(cfg, m', LastTime(evs, t0))
  }

  lemma PerformsBoth(cfg: Config, m: Buckets, a: seq<Event>, m1: Buckets, b: seq<Event>, m2: Buckets, t0: int, now: int)
    requires Performs(cfg, m, a, m1, t0, now) && Performs(cfg, m1, b, m2, LastTime(a, t0), now)
    ensures Performs(cfg, m, a + b, m2, t0, now)
  {
    RunConcat(cfg, m, a, b, t0);
  }

  lemma PerformsNothing(cfg: Config, m: Buckets, t0: int, now: int)
    requires Inv(cfg, m, t0) && t0 <= now
    ensures Performs(cfg, m, [], m, t0, now)
  {
  }

  lemma PerformsOne(cfg: Config, m: Buckets, e: Event, t0: int)
    requires Inv(cfg, m, t0) && OpOk(e.op) && t0 <= e.now
    ensures KindsMatch(m) && Performs(cfg, m, [e], Step(cfg, m, e).0, t0, e.now)
  {
    RunOfOne(cfg, m, e, t0);
    StepKeepsInv(cfg, m, e, t0);
  }

  // ---- Each stage is a limiter run of at most one operation ----

  lemma {:induction false} RequestStageRuns(cfg: Config, rules: seq<Compiled>, c: Compiled, ctx: Context, m: Buckets, now: int, t0: int)
    requires Fits(cfg, rules) && c in rules && c.act.RateLimit?
    requires Inv(cfg, m, t0) && t0 <= now && KindsMatch(m)
    ensures var evs := RequestEvents(c.act, ctx, c.rule.id, now);
      var (m', ok) := RequestStage(c.act, ctx, c.rule.id, m, now);
      var k := ReqKey(ScopeOr(c.act.scope), ctx.agentID, c.rule.id);
      && Performs(cfg, m, evs, m', t0, now)
      && (ok && LimitsRequests(c.act) ==> Admitted(cfg, m, evs, t0, k) == 1)
  {
    assert FitsRule(cfg, c, ctx.agentID);
    KindsAreDisjoint(ScopeOr(c.act.scope), ctx.agentID, c.rule.id);
    if LimitsRequests(c.act) {
      var e := Event(now, Request(ReqKey(ScopeOr(c.act.scope), ctx.agentID, c.rule.id)));
      PerformsOne(cfg, m, e, t0);
      RunOfOne(cfg, m, e, t0);
    } else {
      PerformsNothing(cfg, m, t0, now);
    }
  }

  lemma {:induction false} CostStageRuns(cfg: Config, rules: seq<Compiled>, c: Compiled, ctx: Context, m: Buckets, now: int, t0: int)
    requires Fits(cfg, rules) && c in rules && c.act.RateLimit? && ctx.cost >= 0.0
    requires Inv(cfg, m, t0) && t0 <= now
    ensures var evs := CostEvents(c.act, ctx, c.rule.id, now);
      var (m', ok) := CostStage(c.act, ctx, c.rule.id, m, now);
      var k := CostKey(ScopeOr(c.act.scope), ctx.agentID, c.rule.id);
      && Performs(cfg, m, evs, m', t0, now)
      && (ok && LimitsCost(c.act) ==> Charged(cfg, m, evs, t0, k) == ctx.cost)
  {
    assert FitsRule(cfg, c, ctx.agentID);
    KindsAreDisjoint(ScopeOr(c.act.scope), ctx.agentID, c.rule.id);
    if LimitsCost(c.act) {
      var e := Event(now, Charge(CostKey(ScopeOr(c.act.scope), ctx.agentID, c.rule.id), ctx.cost));
      PerformsOne(cfg, m, e, t0);
      RunOfOne(cfg, m, e, t0);
    } else {
      PerformsNothing(cfg, m, t0, now);
    }
  }

  lemma {:induction false} TokenStageRuns(cfg: Config, rules: seq<Compiled>, c: Compiled, ctx: Context, m: Buckets, now: int, t0: int)
    requires Fits(cfg, rules) && c in rules && c.act.RateLimit?
    requires Inv(cfg, m, t0) && t0 <= now
    ensures var evs := TokenEvents(c.act, ctx, c.rule.id, now);
      var (m', ok) := TokenStage(c.act, ctx, c.rule.id, m, now);
      var k := TokKey(ScopeOr(c.act.scope), ctx.agentID, c.rule.id);
      && Performs(cfg, m, evs, m', t0, now)
      && (ok && LimitsTokens(c.act) ==> Charged(cfg, m, evs, t0, k) == ctx.inputTokens as real)
  {
    assert FitsRule(cfg, c, ctx.agentID);
    KindsAreDisjoint(ScopeOr(c.act.scope), ctx.agentID, c.rule.id);
    if LimitsTokens(c.act) {
      var e := Event(now, Charge(TokKey(ScopeOr(c.act.scope), ctx.agentID, c.rule.id), ctx.inputTokens as real));
      PerformsOne(cfg, m, e, t0);
      RunOfOne(cfg, m, e, t0);
    } else {
      PerformsNothing(cfg, m, t0, now);
    }
  }

  lemma {:induction false} ChargedNonNegative(cfg: Config, m: Buckets, evs: seq<Event>, t0: int, key: string)
    requires Inv(cfg, m, t0) && RunOk(evs, t0)
    ensures Charged(cfg, m, evs, t0, key) >= 0.0
    decreases |evs|
  {
    if evs != [] {
      StepKeepsInv(cfg, m, evs[0], t0);
      ChargedNonNegative(cfg, Step(cfg, m, evs[0]).0, evs[1..], evs[0].now, key);
    }
  }

  /** What a tick's operations admit and charge at least, when the tick allowed the request. */
  ghost predicate PaysFor(cfg: Config, m: Buckets, evs: seq<Event>, t0: int, c: Compiled, ctx: Context, q: Meter)
    requires c.act.RateLimit? && Inv(cfg, m, t0) && RunOk(evs, t0)
  {
    && (LimitsRequests(c.act) ==> Admitted(cfg, m, evs, t0, ReqKey(ScopeOr(c.act.scope), ctx.agentID, c.rule.id)) >= 1)
    && (Meters(q, c.act) ==> Charged(cfg, m, evs, t0, MeterKey(q, c.act, ctx.agentID, c.rule.id)) >= Amount(q, ctx))
  }

  lemma {:induction false} PaysForMore(cfg: Config, m: Buckets, a: seq<Event>, m1: Buckets, b: seq<Event>, m2: Buckets, t0: int, now: int, key: string)
    requires Performs(cfg, m, a, m1, t0, now) && Performs(cfg, m1, b, m2, LastTime(a, t0), now)
    ensures Performs(cfg, m, a + b, m2, t0, now)
    ensures Admitted(cfg, m, a + b, t0, key) >= Admitted(cfg, m, a, t0, key)
    ensures Charged(cfg, m, a + b, t0, key) >= Charged(cfg, m, a, t0, key)
    ensures Charged(cfg, m, a + b, t0, key) >= Charged(cfg, m1, b, LastTime(a, t0), key)
  {
    PerformsBoth(cfg, m, a, m1, b, m2, t0, now);
    SumsConcat(cfg, m, a, b, t0, key);
    ChargedNonNegative(cfg, m, a, t0, key);
    ChargedNonNegative(cfg, m1, b, LastTime(a, t0), key);
  }

  lemma LimitRuns(cfg: Config, rules: seq<Compiled>, c: Compiled, ctx: Context, m: Buckets, now: int, t0: int, q: Meter)
    requires Fits(cfg, rules) && c in rules && c.act.RateLimit? && ctx.cost >= 0.0
    requires Inv(cfg, m, t0) && t0 <= now && KindsMatch(m)
    ensures var (m', r) := ApplyLimit(c.act, ctx, c.rule.id, m, now);
      var evs := LimitEvents(c.act, ctx, c.rule.id, m, now);
      && Performs(cfg, m, evs, m', t0, now)
      && (r.verdict.Allowed? ==> PaysFor(cfg, m, evs, t0, c, ctx, q))
  {
    var id := c.rule.id;
    var rk := ReqKey(ScopeOr(c.act.scope), ctx.agentID, id);
    var qk := MeterKey(q, c.act, ctx.agentID, id);
    var e1, e2, e3 := RequestEvents(c.act, ctx, id, now), CostEvents(c.act, ctx, id, now), TokenEvents(c.act, ctx, id, now);
    var (m1, ok1) := RequestStage(c.act, ctx, id, m, now);
    RequestStageRuns(cfg, rules, c, ctx, m, now, t0);
    if ok1 {
      var t1 := LastTime(e1, t0);
      var (m2, ok2) := CostStage(c.act, ctx, id, m1, now);
      CostStageRuns(cfg, rules, c, ctx, m1, now, t1);
      PaysForMore(cfg, m, e1, m1, e2, m2, t0, now, rk);
      PaysForMore(cfg, m, e1, m1, e2, m2, t0, now, qk);
      if ok2 {
        var t2 := LastTime(e1 + e2, t0);
        var (m3, ok3) := TokenStage(c.act, ctx, id, m2, now);
        TokenStageRuns(cfg, rules, c, ctx, m2, now, t2);
        PaysForMore(cfg, m, e1 + e2, m2, e3, m3, t0, now, rk);
        PaysForMore(cfg, m, e1 + e2, m2, e3, m3, t0, now, qk);
      }
    }
  }

  lemma TickRuns(ext: External, cfg: Config, rules: seq<Compiled>, m: Buckets, tick: Tick, t0: int)
    requires Fits(cfg, rules) && Inv(cfg, m, t0) && t0 <= tick.now
    requires KindsMatch(m) && (tick.Evaluate? ==> tick.ctx.cost >= 0.0)
    ensures Performs(cfg, m, TickEvents(ext, rules, m, tick), EngineStep(ext, rules, m, tick), t0, tick.now)
  {
    if tick.Sweep? {
      PerformsOne(cfg, m, Event(tick.now, Cleanup), t0);
    } else {
      var i := FirstMatch(ext, rules, tick.ctx, m, tick.now);
      if i < |rules| && rules[i].act.RateLimit? {
        LimitRuns(cfg, rules, rules[i], tick.ctx, m, tick.now, t0, Money);
      } else {
        PerformsNothing(cfg, m, t0, tick.now);
      }
    }
  }

  // ---- Whole runs ----

  ghost function RunEvents(ext: External, rules: seq<Compiled>, m: Buckets, ticks: seq<Tick>, t0: int): seq<Event>
    requires KindsMatch(m) && TicksOk(ticks, t0)
    decreases |ticks|
  {
    if ticks == [] then []
    else
      StepKeepsKinds(ext, rules, m, ticks[0]);
      TickEvents(ext, rules, m, ticks[0]) + RunEvents(ext, rules, EngineStep(ext, rules, m, ticks[0]), ticks[1..], ticks[0].now)
  }

  /** The tick was a request of this agent, decided by rule `id` and allowed by its action. */
  predicate AllowedTick(ext: External, rules: seq<Compiled>, m: Buckets, tick: Tick, id: int, agent: string)
    requires KindsMatch(m)
  {
    tick.Evaluate? && tick.ctx.agentID == agent
    && EvaluateStep(ext, rules, tick.ctx, m, tick.now).1 == AllowedBy(id)
  }

  /** How many requests of the agent the rule allowed, and what they cost or how many tokens they had. */
  ghost function AllowedRequests(ext: External, rules: seq<Compiled>, m: Buckets, ticks: seq<Tick>, id: int, agent: string): nat
    requires KindsMatch(m)
    decreases |ticks|
  {
    if ticks == [] then 0
    else
      StepKeepsKinds(ext, rules, m, ticks[0]);
      (if AllowedTick(ext, rules, m, ticks[0], id, agent) then 1 else 0)
      + AllowedRequests(ext, rules, EngineStep(ext, rules, m, ticks[0]), ticks[1..], id, agent)
  }

  ghost function AllowedAmount(ext: External, rules: seq<Compiled>, m: Buckets, ticks: seq<Tick>, id: int, agent: string, q: Meter): real
    requires KindsMatch(m)
    decreases |ticks|
  {
    if ticks == [] then 0.0
    else
      StepKeepsKinds(ext, rules, m, ticks[0]);
      (if AllowedTick(ext, rules, m, ticks[0], id, agent) then Amount(q, ticks[0].ctx) else 0.0)
      + AllowedAmount(ext, rules, EngineStep(ext, rules, m, ticks[0]), ticks[1..], id, agent, q)
  }

  lemma {:induction false} AllowedTickPays(ext: External, cfg: Config, rules: seq<Compiled>, m: Buckets, tick: Tick, c: Compiled, t0: int, q: Meter)
    requires Fits(cfg, rules) && c in rules && c.act.RateLimit? && KindsMatch(m)
    requires Inv(cfg, m, t0) && t0 <= tick.now && tick.Evaluate? && tick.ctx.cost >= 0.0
    requires AllowedTick(ext, rules, m, tick, c.rule.id, tick.ctx.agentID)
    ensures RunOk(TickEvents(ext, rules, m, tick), t0)
    ensures PaysFor(cfg, m, TickEvents(ext, rules, m, tick), t0, c, tick.ctx, q)
  {
    var i := FirstMatch(ext, rules, tick.ctx, m, tick.now);
    OutcomeNamesRule(rules[i].act, tick.ctx, rules[i].rule.id, m, tick.now);
    SameIDSameCompiled(rules, rules[i], c);
    LimitRuns(cfg, rules, c, tick.ctx, m, tick.now, t0, q);
  }

  lemma {:induction false} RunEventsOk(ext: External, cfg: Config, rules: seq<Compiled>, m: Buckets, ticks: seq<Tick>, t0: int, t: int)
    requires Fits(cfg, rules) && KindsMatch(m)
    requires Inv(cfg, m, t0) && t0 <= t && TicksOk(ticks, t)
    ensures RunOk(RunEvents(ext, rules, m, ticks, t), t0)
    decreases |ticks|
  {
    if ticks != [] {
      var tick := ticks[0];
      var m' := EngineStep(ext, rules, m, tick);
      var a := TickEvents(ext, rules, m, tick);
      StepKeepsKinds(ext, rules, m, tick);
      TickRuns(ext, cfg, rules, m, tick, t0);
      RunEventsOk(ext, cfg, rules, m', ticks[1..], LastTime(a, t0), tick.now);
      RunConcat(cfg, m, a, RunEvents(ext, rules, m', ticks[1..], tick.now), t0);
    }
  }

  predicate AllAt(evs: seq<Event>, now: int) { forall i :: 0 <= i < |evs| ==> evs[i].now == now }

  lemma AllAtConcat(a: seq<Event>, b: seq<Event>, now: int)
    requires AllAt(a, now) && AllAt(b, now)
    ensures AllAt(a + b, now)
  {
  }

  lemma LimitEventTimes(act: Action, ctx: Context, id: int, m: Buckets, now: int)
    requires KindsMatch(m) && ctx.cost >= 0.0
    ensures AllAt(LimitEvents(act, ctx, id, m, now), now)
  {
    var a, b, c := RequestEvents(act, ctx, id, now), CostEvents(act, ctx, id, now), TokenEvents(act, ctx, id, now);
    AllAtConcat(a, b, now);
    AllAtConcat(a + b, c, now);
  }

  lemma TickEventTimes(ext: External, rules: seq<Compiled>, m: Buckets, tick: Tick)
    requires KindsMatch(m) && (tick.Evaluate? ==> tick.ctx.cost >= 0.0)
    ensures forall e :: e in TickEvents(ext, rules, m, tick) ==> e.now == tick.now
  {
    if tick.Evaluate? {
      var i := FirstMatch(ext, rules, tick.ctx, m, tick.now);
      if i < |rules| {
        LimitEventTimes(rules[i].act, tick.ctx, rules[i].rule.id, m, tick.now);
      }
    }
  }

  lemma {:induction false} TicksAscend(ticks: seq<Tick>, t: int)
    requires TicksOk(ticks, t) && ticks != []
    ensures t <= ticks[0].now <= ticks[|ticks| - 1].now
    decreases |ticks|
  {
    if |ticks| > 1 {
      TicksAscend(ticks[1..], ticks[0].now);
    }
  }

  lemma {:induction false} RunEventTimes(ext: External, rules: seq<Compiled>, m: Buckets, ticks: seq<Tick>, t: int)
    requires KindsMatch(m) && TicksOk(ticks, t) && ticks != []
    ensures forall e :: e in RunEvents(ext, rules, m, ticks, t) ==> ticks[0].now <= e.now <= ticks[|ticks| - 1].now
    decreases |ticks|
  {
    var tick := ticks[0];
    StepKeepsKinds(ext, rules, m, tick);
    TickEventTimes(ext, rules, m, tick);
    TicksAscend(ticks, t);
    if |ticks| > 1 {
      RunEventTimes(ext, rules, EngineStep(ext, rules, m, tick), ticks[1..], tick.now);
      TicksAscend(ticks[1..], tick.now);
    }
  }

  /** Every allowed request is paid for by an admitted operation on the rule's own buckets. */
  lemma {:induction false} RunPays(ext: External, cfg: Config, rules: seq<Compiled>, m: Buckets, ticks: seq<Tick>, t0: int, t: int, c: Compiled, agent: string, q: Meter)
    requires Fits(cfg, rules) && c in rules && c.act.RateLimit? && KindsMatch(m)
    requires Inv(cfg, m, t0) && t0 <= t && TicksOk(ticks, t)
    requires RunOk(RunEvents(ext, rules, m, ticks, t), t0)
    ensures LimitsRequests(c.act) ==>
      AllowedRequests(ext, rules, m, ticks, c.rule.id, agent)
      <= Admitted(cfg, m, RunEvents(ext, rules, m, ticks, t), t0, ReqKey(ScopeOr(c.act.scope), agent, c.rule.id))
    ensures Meters(q, c.act) ==>
      AllowedAmount(ext, rules, m, ticks, c.rule.id, agent, q)
      <= Charged(cfg, m, RunEvents(ext, rules, m, ticks, t), t0, MeterKey(q, c.act, agent, c.rule.id))
    decreases |ticks|
  {
    if ticks != [] {
      var tick := ticks[0];
      var m' := EngineStep(ext, rules, m, tick);
      var a := TickEvents(ext, rules, m, tick);
      StepKeepsKinds(ext, rules, m, tick);
      TickRuns(ext, cfg, rules, m, tick, t0);
      var t1 := LastTime(a, t0);
      RunEventsOk(ext, cfg, rules, m', ticks[1..], t1, tick.now);
      RunPays(ext, cfg, rules, m', ticks[1..], t1, tick.now, c, agent, q);
      var b := RunEvents(ext, rules, m', ticks[1..], tick.now);
      SumsAtLeast(ext, cfg, rules, m, tick, m', b, t0, c, agent, q);
    }
  }

  /** One tick's share of the sums, whatever the later operations b are. */
  lemma {:induction false} SumsAtLeast(ext: External, cfg: Config, rules: seq<Compiled>, m: Buckets, tick: Tick, m': Buckets, b: seq<Event>, t0: int, c: Compiled, agent: string, q: Meter)
    requires Fits(cfg, rules) && c in rules && c.act.RateLimit? && KindsMatch(m)
    requires Inv(cfg, m, t0) && t0 <= tick.now && (tick.Evaluate? ==> tick.ctx.cost >= 0.0)
    requires var a := TickEvents(ext, rules, m, tick);
      Performs(cfg, m, a, m', t0, tick.now) && RunOk(b, LastTime(a, t0)) && RunOk(a + b, t0)
    ensures var a := TickEvents(ext, rules, m, tick); var t1 := LastTime(a, t0);
      var rk := ReqKey(ScopeOr(c.act.scope), agent, c.rule.id);
      var qk := MeterKey(q, c.act, agent, c.rule.id);
      var hit := AllowedTick(ext, rules, m, tick, c.rule.id, agent);
      && (LimitsRequests(c.act) ==> Admitted(cfg, m, a + b, t0, rk) >= (if hit then 1 else 0) + Admitted(cfg, m', b, t1, rk))
      && (Meters(q, c.act) ==> Charged(cfg, m, a + b, t0, qk) >= (if hit then Amount(q, tick.ctx) else 0.0) + Charged(cfg, m', b, t1, qk))
  {
    var a := TickEvents(ext, rules, m, tick);
    var rk := ReqKey(ScopeOr(c.act.scope), agent, c.rule.id);
    var qk := MeterKey(q, c.act, agent, c.rule.id);
    SumsConcat(cfg, m, a, b, t0, rk);
    SumsConcat(cfg, m, a, b, t0, qk);
    ChargedNonNegative(cfg, m, a, t0, qk);
    if AllowedTick(ext, rules, m, tick, c.rule.id, agent) {
      AllowedTickPays(ext, cfg, rules, m, tick, c, t0, q);
    }
  }

  // ---- Stretches of a run ----

  ghost function LastTick(ticks: seq<Tick>, t: int): int {
    if ticks == [] then t else ticks[|ticks| - 1].now
  }

  lemma {:induction false} SplitTicks(ticks: seq<Tick>, t: int, i: nat)
    requires TicksOk(ticks, t) && i <= |ticks|
    ensures TicksOk(ticks[..i], t) && TicksOk(ticks[i..], LastTick(ticks[..i], t))
    decreases |ticks|
  {
    if i > 0 {
      SplitTicks(ticks[1..], ticks[0].now, i - 1);
      assert ticks[..i][1..] == ticks[1..][..i - 1];
      assert ticks[i..] == ticks[1..][i - 1..];
    } else {
      assert ticks[0..] == ticks;
    }
  }

  lemma {:induction false} EngineKeepsInv(ext: External, cfg: Config, rules: seq<Compiled>, m: Buckets, ticks: seq<Tick>, t: int)
    requires Fits(cfg, rules) && KindsMatch(m) && Inv(cfg, m, t) && TicksOk(ticks, t)
    ensures Inv(cfg, EngineExec(ext, rules, m, ticks), LastTick(ticks, t))
    decreases |ticks|
  {
    if ticks != [] {
      var tick := ticks[0];
      StepKeepsKinds(ext, rules, m, tick);
      TickRuns(ext, cfg, rules, m, tick, t);
      var a := TickEvents(ext, rules, m, tick);
      InvLater(cfg, EngineStep(ext, rules, m, tick), LastTime(a, t), tick.now);
      EngineKeepsInv(ext, cfg, rules, EngineStep(ext, rules, m, tick), ticks[1..], tick.now);
    }
  }

  /** A stretch of a run: the state it starts in ... */
  lemma {:induction false} StretchStart(ext: External, cfg: Config, rules: seq<Compiled>, ticks: seq<Tick>, t: int, i: nat, j: nat)
    requires Fits(cfg, rules) && TicksOk(ticks, t) && i < j <= |ticks|
    ensures var t1 := LastTick(ticks[..i], t);
      TicksOk(ticks[i..j], t1) && Inv(cfg, EngineExec(ext, rules, map[], ticks[..i]), t1)
  {
    SplitTicks(ticks, t, i);
    SplitTicks(ticks[i..], LastTick(ticks[..i], t), j - i);
    assert ticks[i..][..j - i] == ticks[i..j];
    EngineKeepsInv(ext, cfg, rules, map[], ticks[..i], t);
  }

  /** ... and how long the bucket operations from any state on may take. */
  lemma {:induction false} StretchTimes(ext: External, cfg: Config, rules: seq<Compiled>, m: Buckets, ticks: seq<Tick>, t: int)
    requires Fits(cfg, rules) && KindsMatch(m) && Inv(cfg, m, t) && TicksOk(ticks, t) && ticks != []
    ensures var evs := RunEvents(ext, rules, m, ticks, t);
      RunOk(evs, t) && (evs != [] ==> LastTime(evs, t) - evs[0].now <= ticks[|ticks| - 1].now - ticks[0].now)
  {
    RunEventsOk(ext, cfg, rules, m, ticks, t, t);
    RunEventTimes(ext, rules, m, ticks, t);
    var evs := RunEvents(ext, rules, m, ticks, t);
    if evs != [] {
      assert evs[0] in evs && evs[|evs| - 1] in evs;
    }
  }

  lemma LoadDistinct(ext: External, rows: seq<Rule>)
    requires DistinctIDs(rows)
    ensures DistinctCompiled(Load(ext, rows))
  {
    CompileKeepsDistinct(ext, rows);
    PermutedDistinct(CompileAll(ext, rows), Load(ext, rows));
  }

  lemma {:induction false} StretchAllows(ext: External, cfg: Config, rules: seq<Compiled>, m: Buckets, ticks: seq<Tick>, t: int, c: Compiled, agent: string)
    requires Fits(cfg, rules) && KindsMatch(m) && Inv(cfg, m, t) && TicksOk(ticks, t) && ticks != []
    requires c in rules && LimitsRequests(c.act) && ticks[|ticks| - 1].now - ticks[0].now <= c.act.windowSec * SECOND
    ensures AllowedRequests(ext, rules, m, ticks, c.rule.id, agent) <= 2 * c.act.maxReq
  {
    StretchTimes(ext, cfg, rules, m, ticks, t);
    var evs := RunEvents(ext, rules, m, ticks, t);
    RunPays(ext, cfg, rules, m, ticks, t, t, c, agent, Money);
    assert FitsRule(cfg, c, agent);
    KindsAreDisjoint(ScopeOr(c.act.scope), agent, c.rule.id);
    if evs != [] {
      IntervalBound(cfg, m, evs, t, ReqKey(ScopeOr(c.act.scope), agent, c.rule.id));
    }
  }

  lemma {:induction false} StretchSpends(ext: External, cfg: Config, rules: seq<Compiled>, m: Buckets, ticks: seq<Tick>, t: int, c: Compiled, agent: string, q: Meter)
    requires Fits(cfg, rules) && KindsMatch(m) && Inv(cfg, m, t) && TicksOk(ticks, t) && ticks != []
    requires c in rules && Meters(q, c.act) && ticks[|ticks| - 1].now - ticks[0].now <= DAY_SEC * SECOND
    ensures AllowedAmount(ext, rules, m, ticks, c.rule.id, agent, q) <= 2.0 * DailyLimit(q, c.act)
  {
    StretchTimes(ext, cfg, rules, m, ticks, t);
    var evs := RunEvents(ext, rules, m, ticks, t);
    RunPays(ext, cfg, rules, m, ticks, t, t, c, agent, q);
    var key := MeterKey(q, c.act, agent, c.rule.id);
    assert FitsRule(cfg, c, agent);
    KindsAreDisjoint(ScopeOr(c.act.scope), agent, c.rule.id);
    ChargedAcrossPeriods(cfg, m, evs, t, key);
    LeftWithinQuota(cfg, m, t, key);
  }

  lemma StretchEnds(ticks: seq<Tick>, i: nat, j: nat)
    requires i < j <= |ticks|
    ensures var stretch := ticks[i..j]; stretch != [] && stretch[0] == ticks[i] && stretch[|stretch| - 1] == ticks[j - 1]
  {
  }

  /**
   In every run of the engine that evaluates its requests one after the other, over any stretch no longer
   than the rule's window, a rate-limit rule allows at most twice its request limit per agent, whatever
   other rules and agents do and wherever sweeps run between the evaluations.
   */
  lemma {:induction false} AllowedRequestsInAnyWindow(ext: External, rows: seq<Rule>, ticks: seq<Tick>, t: int, i: nat, j: nat, c: Compiled, agent: string)
    requires DistinctIDs(rows) && TicksOk(ticks, t) && i < j <= |ticks|
    requires c in Load(ext, rows) && LimitsRequests(c.act)
    requires ticks[j - 1].now - ticks[i].now <= c.act.windowSec * SECOND
    ensures var rules := Load(ext, rows);
      AllowedRequests(ext, rules, EngineExec(ext, rules, map[], ticks[..i]), ticks[i..j], c.rule.id, agent) <= 2 * c.act.maxReq
  {
    var rules := Load(ext, rows);
    var cfg := SomeConfigFits(ext, rows);
    StretchStart(ext, cfg, rules, ticks, t, i, j);
    StretchEnds(ticks, i, j);
    StretchAllows(ext, cfg, rules, EngineExec(ext, rules, map[], ticks[..i]), ticks[i..j], LastTick(ticks[..i], t), c, agent);
  }

  /**
   Likewise for the daily budgets: over any stretch of at most a day, the requests a rule allows one
   agent cost at most twice its money budget and hold at most twice its token budget.
   */
  lemma {:induction false} AllowedAmountInAnyDay(ext: External, rows: seq<Rule>, ticks: seq<Tick>, t: int, i: nat, j: nat, c: Compiled, agent: string, q: Meter)
    requires DistinctIDs(rows) && TicksOk(ticks, t) && i < j <= |ticks|
    requires c in Load(ext, rows) && Meters(q, c.act)
    requires ticks[j - 1].now - ticks[i].now <= DAY_SEC * SECOND
    ensures var rules := Load(ext, rows);
      AllowedAmount(ext, rules, EngineExec(ext, rules, map[], ticks[..i]), ticks[i..j], c.rule.id, agent, q) <= 2.0 * DailyLimit(q, c.act)
  {
    var rules := Load(ext, rows);
    var cfg := SomeConfigFits(ext, rows);
    StretchStart(ext, cfg, rules, ticks, t, i, j);
    StretchEnds(ticks, i, j);
    StretchSpends(ext, cfg, rules, EngineExec(ext, rules, map[], ticks[..i]), ticks[i..j], LastTick(ticks[..i], t), c, agent, q);
  }
}
