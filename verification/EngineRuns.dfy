/**
 Whole runs of the rules engine with a fixed set of stored rules: requests evaluated one after the
 other, cleanup sweeps in between, starting from an empty limiter; and which rules can never fire in
 any of them.
 */
module EngineRuns {
  import opened Wrappers
  import opened BucketKeys
  import opened RateLimiter
  import opened LimiterRuns
  import opened RulesEngine
  import opened RuleSelection

  datatype Tick = Evaluate(now: int, ctx: Context) | Sweep(now: int)

  function EngineStep(ext: External, rules: seq<Compiled>, m: Buckets, tick: Tick): Buckets
    requires KindsMatch(m)
  {
    match tick
    case Evaluate(now, ctx) => EvaluateStep(ext, rules, ctx, m, now).0
    case Sweep(now) => CleanupStep(m, now)
  }

  lemma StagesKeepKinds(act: Action, ctx: Context, id: int, m: Buckets, now: int)
    requires KindsMatch(m)
    ensures KindsMatch(ApplyAction(act, ctx, id, m, now).0)
  {
    if act.RateLimit? {
      KindsAreDisjoint(ScopeOr(act.scope), ctx.agentID, id);
      var m1 := RequestStage(act, ctx, id, m, now).0;
      var m2 := CostStage(act, ctx, id, m1, now).0;
      assert KindsMatch(m2);
      assert KindsMatch(TokenStage(act, ctx, id, m2, now).0);
    }
  }

  lemma StepKeepsKinds(ext: External, rules: seq<Compiled>, m: Buckets, tick: Tick)
    requires KindsMatch(m)
    ensures KindsMatch(EngineStep(ext, rules, m, tick))
  {
    if tick.Evaluate? {
      var i := FirstMatch(ext, rules, tick.ctx, m, tick.now);
      if i < |rules| {
        StagesKeepKinds(rules[i].act, tick.ctx, rules[i].rule.id, m, tick.now);
      }
    }
  }

  ghost function EngineExec(ext: External, rules: seq<Compiled>, m: Buckets, ticks: seq<Tick>): (r: Buckets)
    requires KindsMatch(m)
    ensures KindsMatch(r)
    decreases |ticks|
  {
    if ticks == [] then m
    else
      StepKeepsKinds(ext, rules, m, ticks[0]);
      EngineExec(ext, rules, EngineStep(ext, rules, m, ticks[0]), ticks[1..])
  }

  // ---- Rules with a request_count condition never fire ----

  predicate CountsRequests(r: Rule) {
    exists i :: 0 <= i < |r.conditions| && r.conditions[i].kind == "request_count"
  }

  ghost predicate NoRequestBucket(m: Buckets, id: int) {
    forall s: string, a: string :: ReqKey(s, a, id) !in m
  }

  ghost predicate CountersAbsent(rows: seq<Rule>, m: Buckets) {
    forall r :: r in rows && CountsRequests(r) ==> NoRequestBucket(m, r.id)
  }

  lemma CountingConditionIsOff(ext: External, id: int, ctx: Context, m: Buckets, now: int)
    requires KindsMatch(m) && NoRequestBucket(m, id)
    ensures !Holds(ext, RequestCountCond(id), ctx, m, now)
  {
    assert ReqKey("agent", ctx.agentID, id) !in m;
  }

  lemma CountingConditionCompiled(ext: External, spec: ConditionSpec, id: int)
    requires spec.kind == "request_count"
    ensures CompileCondition(ext, spec, id) == Some(RequestCountCond(id))
  {
  }

  /** Without its own request bucket, a request_count condition is false: the peek says "allowed". */
  lemma CountingRuleIsOff(ext: External, c: Compiled, ctx: Context, m: Buckets, now: int)
    requires KindsMatch(m) && Compile(ext, c.rule) == Some(c)
    requires CountsRequests(c.rule) && NoRequestBucket(m, c.rule.id)
    ensures !Applies(ext, c, ctx, m, now)
  {
    var i :| 0 <= i < |c.rule.conditions| && c.rule.conditions[i].kind == "request_count";
    assert CompileConditions(ext, c.rule.conditions, c.rule.id) == Some(c.conditions);
    CountingConditionCompiled(ext, c.rule.conditions[i], c.rule.id);
    assert c.conditions[i] == RequestCountCond(c.rule.id);
    CountingConditionIsOff(ext, c.rule.id, ctx, m, now);
  }

  lemma StepKeepsCountersAbsent(ext: External, rows: seq<Rule>, m: Buckets, tick: Tick)
    requires DistinctIDs(rows) && KindsMatch(m) && CountersAbsent(rows, m)
    ensures CountersAbsent(rows, EngineStep(ext, Load(ext, rows), m, tick))
  {
    var rules := Load(ext, rows);
    LoadFacts(ext, rows);
    var m' := EngineStep(ext, rules, m, tick);
    forall r, s: string, a: string | r in rows && CountsRequests(r) ensures ReqKey(s, a, r.id) !in m' {
      var k := ReqKey(s, a, r.id);
      assert NoRequestBucket(m, r.id) && k !in m;
      if tick.Evaluate? {
        var i := FirstMatch(ext, rules, tick.ctx, m, tick.now);
        if i < |rules| {
          var w := rules[i];
          assert w in rules;
          assert !CountsRequests(w.rule) by {
            if CountsRequests(w.rule) { CountingRuleIsOff(ext, w, tick.ctx, m, tick.now); }
          }
          assert w.rule.id != r.id by { SameIDSameRow(rows, w.rule, r); }
          assert IsKeyFor(k, s, a, r.id) && KeyOfRule(k, r.id);
          OutcomeNamesRule(w.act, tick.ctx, w.rule.id, m, tick.now);
          EvaluateTouchesOneRule(ext, rows, tick.ctx, m, tick.now, k, r.id);
        }
      }
    }
  }

  lemma SameIDSameRow(rows: seq<Rule>, r: Rule, s: Rule)
    requires DistinctIDs(rows) && r in rows && s in rows
    ensures r.id == s.id <==> r == s
  {
    var i :| 0 <= i < |rows| && rows[i] == r;
    var j :| 0 <= j < |rows| && rows[j] == s;
  }

  lemma {:induction false} RunKeepsCountersAbsent(ext: External, rows: seq<Rule>, m: Buckets, ticks: seq<Tick>)
    requires DistinctIDs(rows) && KindsMatch(m) && CountersAbsent(rows, m)
    ensures CountersAbsent(rows, EngineExec(ext, Load(ext, rows), m, ticks))
    decreases |ticks|
  {
    if ticks != [] {
      var rules := Load(ext, rows);
      StepKeepsKinds(ext, rules, m, ticks[0]);
      StepKeepsCountersAbsent(ext, rows, m, ticks[0]);
      RunKeepsCountersAbsent(ext, rows, EngineStep(ext, rules, m, ticks[0]), ticks[1..]);
    }
  }

  /**
   In no run does a rule carrying a request_count condition ever apply: its bucket could only be
   created by its own action, which the condition keeps from running. The built-in "rate-limiter"
   template is such a rule, so it limits nothing.
   */
  lemma {:induction false} RequestCountRulesNeverFire(ext: External, rows: seq<Rule>, ticks: seq<Tick>, c: Compiled, ctx: Context, now: int)
    requires DistinctIDs(rows) && c in Load(ext, rows) && CountsRequests(c.rule)
    ensures !Applies(ext, c, ctx, EngineExec(ext, Load(ext, rows), map[], ticks), now)
  {
    LoadFacts(ext, rows);
    RunKeepsCountersAbsent(ext, rows, map[], ticks);
    CountingRuleIsOff(ext, c, ctx, EngineExec(ext, Load(ext, rows), map[], ticks), now);
  }

  /** The "Request Rate Limiter" template with its default parameters, as a stored rule. */
  function RateLimiterTemplate(id: int): Rule {
    Rule(id, true, 80, "", [ConditionSpec("request_count", "", "", 60.0, "")],
         ActionSpec("rate_limit", 429, "Rate limit exceeded. Slow down.", "", "", "", [], 60, 60, 0.0, 0, "agent"))
  }

  /** Installed alone, the template lets every request of every run through. */
  lemma {:induction false} TemplateLimitsNothing(ext: External, id: int, ticks: seq<Tick>, ctx: Context, now: int)
    ensures var rules := Load(ext, [RateLimiterTemplate(id)]);
      var m := EngineExec(ext, rules, map[], ticks);
      EvaluateStep(ext, rules, ctx, m, now) == (m, NoMatch(), false)
  {
    var rows := [RateLimiterTemplate(id)];
    var rules := Load(ext, rows);
    var m := EngineExec(ext, rules, map[], ticks);
    LoadFacts(ext, rows);
    assert rows[0].conditions[0].kind == "request_count";
    forall c | c in rules ensures !Applies(ext, c, ctx, m, now) {
      assert c.rule == rows[0];
      RequestCountRulesNeverFire(ext, rows, ticks, c, ctx, now);
    }
    NoneDecides(ext, rules, ctx, m, now);
  }

  // ---- Deleting the rules that never fire changes no run ----

  function WithoutCounting(rows: seq<Rule>): (r: seq<Rule>)
    ensures forall x :: x in r <==> x in rows && !CountsRequests(x)
  {
    if rows == [] then []
    else if CountsRequests(rows[0]) then WithoutCounting(rows[1..])
    else [rows[0]] + WithoutCounting(rows[1..])
  }

  lemma {:induction false} WithoutCountingDistinct(rows: seq<Rule>)
    requires DistinctIDs(rows)
    ensures DistinctIDs(WithoutCounting(rows))
  {
    if rows != [] {
      WithoutCountingDistinct(rows[1..]);
      forall x | x in WithoutCounting(rows[1..]) ensures x.id != rows[0].id {
        SameIDSameRow(rows, rows[0], x);
        var j :| 0 <= j < |rows[1..]| && rows[1..][j] == x;
      }
    }
  }

  lemma {:induction false} SameWithoutThem(ext: External, rows: seq<Rule>, m: Buckets, ctx: Context, now: int)
    requires DistinctIDs(rows) && KindsMatch(m) && CountersAbsent(rows, m)
    ensures EvaluateStep(ext, Load(ext, rows), ctx, m, now) == EvaluateStep(ext, Load(ext, WithoutCounting(rows)), ctx, m, now)
  {
    var kept := WithoutCounting(rows);
    WithoutCountingDistinct(rows);
    LoadFacts(ext, rows);
    LoadFacts(ext, kept);
    var all, some := Load(ext, rows), Load(ext, kept);
    forall c | c in all && c !in some ensures !Applies(ext, c, ctx, m, now) {
      assert CountsRequests(c.rule);
      CountingRuleIsOff(ext, c, ctx, m, now);
    }
    FirstMatchWins(ext, some, ctx, m, now);
    var i := FirstMatch(ext, some, ctx, m, now);
    if i < |some| {
      var w := some[i];
      assert w in some && w in all;
      assert IsWinner(ext, all, ctx, m, now, w);
      WinnerDecides(ext, all, ctx, m, now, w);
      WinnerDecides(ext, some, ctx, m, now, w);
    } else {
      forall c | c in some ensures !Applies(ext, c, ctx, m, now) {
        var j :| 0 <= j < |some| && some[j] == c;
      }
      NoneDecides(ext, some, ctx, m, now);
      NoneDecides(ext, all, ctx, m, now);
    }
  }

  lemma {:induction false} SameRunWithoutThem(ext: External, rows: seq<Rule>, m: Buckets, ticks: seq<Tick>)
    requires DistinctIDs(rows) && KindsMatch(m) && CountersAbsent(rows, m)
    ensures EngineExec(ext, Load(ext, rows), m, ticks) == EngineExec(ext, Load(ext, WithoutCounting(rows)), m, ticks)
    decreases |ticks|
  {
    if ticks != [] {
      var rules := Load(ext, rows);
      if ticks[0].Evaluate? {
        SameWithoutThem(ext, rows, m, ticks[0].ctx, ticks[0].now);
      }
      StepKeepsKinds(ext, rules, m, ticks[0]);
      StepKeepsCountersAbsent(ext, rows, m, ticks[0]);
      SameRunWithoutThem(ext, rows, EngineStep(ext, rules, m, ticks[0]), ticks[1..]);
    }
  }

  /** Every answer of every run is the same after deleting all rules with a request_count condition. */
  lemma {:induction false} CountingRulesAreInert(ext: External, rows: seq<Rule>, ticks: seq<Tick>, ctx: Context, now: int)
    requires DistinctIDs(rows)
    ensures var all := Load(ext, rows); var kept := Load(ext, WithoutCounting(rows));
      EvaluateStep(ext, all, ctx, EngineExec(ext, all, map[], ticks), now)
      == EvaluateStep(ext, kept, ctx, EngineExec(ext, kept, map[], ticks), now)
  {
    SameRunWithoutThem(ext, rows, map[], ticks);
    RunKeepsCountersAbsent(ext, rows, map[], ticks);
    SameWithoutThem(ext, rows, EngineExec(ext, Load(ext, rows), map[], ticks), ctx, now);
  }
}
