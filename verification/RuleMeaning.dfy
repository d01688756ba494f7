/**
 What the stored rules mean, said of their rows alone: which rows take part, when a row applies, which of
 several wins and what the result shows. Compiling, sorting and the evaluation loop are proved to do that.
 */
module RuleMeaning {
  import opened Wrappers
  import opened BucketKeys
  import opened RateLimiter
  import opened RulesEngine
  import opened RuleSelection

  // ---- Conditions ----

  const TEXT_KINDS: set<string> := {"agent_id", "app_name", "model", "provider", "prompt_content"}
  const OTHER_KINDS: set<string> := {"input_tokens", "cost_session", "cost_daily", "cost_monthly", "request_count",
                                     "loop_detected", "jailbreak", "guardrails"}

  predicate SpecIsUsable(ext: External, spec: ConditionSpec) {
    || spec.kind in OTHER_KINDS
    || (spec.kind in TEXT_KINDS && (spec.mode == "regex" ==> ext.regexCompiles(spec.value)))
  }

  predicate TextMatches(ext: External, mode: string, pattern: string, text: string) {
    if mode == "glob" then ext.globMatches(pattern, text)
    else if mode == "regex" then ext.regexMatches(pattern, text)
    else text == pattern
  }

  /** Every name but these four means "at least". */
  predicate Compares(op: string, value: real, threshold: real) {
    && (op == "gt" ==> value > threshold)
    && (op == "lt" ==> value < threshold)
    && (op == "lte" ==> value <= threshold)
    && (op == "eq" ==> value == threshold)
    && (op !in {"gt", "lt", "lte", "eq"} ==> value >= threshold)
  }

  predicate SpecHolds(ext: External, spec: ConditionSpec, id: int, ctx: Context, m: Buckets, now: int)
    requires KindsMatch(m)
  {
    && (spec.kind == "agent_id" ==> TextMatches(ext, spec.mode, spec.value, ctx.agentID))
    && (spec.kind == "app_name" ==> TextMatches(ext, spec.mode, spec.value, ctx.appName))
    && (spec.kind == "model" ==> TextMatches(ext, spec.mode, spec.value, ctx.model))
    && (spec.kind == "provider" ==> TextMatches(ext, spec.mode, spec.value, ctx.provider))
    && (spec.kind == "prompt_content" ==>
          if spec.mode in {"", "exact", "glob", "regex"} then TextMatches(ext, spec.mode, spec.value, ctx.prompt)
          else ext.containsFold(ctx.prompt, spec.value))
    && (spec.kind == "input_tokens" ==> Compares(spec.op, ctx.inputTokens as real, spec.threshold))
    && (spec.kind == "cost_session" ==>
          Compares(spec.op, if ctx.sessionCost.Some? then ctx.sessionCost.value else 0.0, spec.threshold))
    && (spec.kind in {"cost_daily", "cost_monthly"} ==> ctx.sessionCost.Some? && ctx.sessionCost.value >= spec.threshold)
    && (spec.kind == "request_count" ==> !PeekStep(m, ReqKey("agent", ctx.agentID, id), now))
    && (spec.kind == "loop_detected" ==> ctx.loopDetected)
    && (spec.kind == "jailbreak" ==>
          if spec.op == "" then ctx.jailbreak else Compares(spec.op, ctx.jailbreakScore, spec.threshold))
    && (spec.kind == "guardrails" ==> if spec.value == "" then ctx.blocked else ctx.violation == spec.value)
  }

  lemma SpecCompilesIff(ext: External, spec: ConditionSpec, id: int)
    ensures CompileCondition(ext, spec, id).Some? <==> SpecIsUsable(ext, spec)
  {
  }

  lemma TextSpecMeans(ext: External, spec: ConditionSpec, id: int, ctx: Context, m: Buckets, now: int)
    requires KindsMatch(m) && CompileCondition(ext, spec, id).Some? && spec.kind in TEXT_KINDS
    ensures Holds(ext, CompileCondition(ext, spec, id).value, ctx, m, now) <==> SpecHolds(ext, spec, id, ctx, m, now)
  {
  }

  lemma OtherSpecMeans(ext: External, spec: ConditionSpec, id: int, ctx: Context, m: Buckets, now: int)
    requires KindsMatch(m) && CompileCondition(ext, spec, id).Some? && spec.kind !in TEXT_KINDS
    ensures Holds(ext, CompileCondition(ext, spec, id).value, ctx, m, now) <==> SpecHolds(ext, spec, id, ctx, m, now)
  {
  }

  lemma SpecMeansWhatItCompilesTo(ext: External, spec: ConditionSpec, id: int, ctx: Context, m: Buckets, now: int)
    requires KindsMatch(m) && CompileCondition(ext, spec, id).Some?
    ensures Holds(ext, CompileCondition(ext, spec, id).value, ctx, m, now) <==> SpecHolds(ext, spec, id, ctx, m, now)
  {
    if spec.kind in TEXT_KINDS {
      TextSpecMeans(ext, spec, id, ctx, m, now);
    } else {
      OtherSpecMeans(ext, spec, id, ctx, m, now);
    }
  }

  lemma {:induction false} ConditionsCompileIff(ext: External, specs: seq<ConditionSpec>, id: int)
    ensures CompileConditions(ext, specs, id).Some? <==> forall i :: 0 <= i < |specs| ==> SpecIsUsable(ext, specs[i])
  {
    if specs != [] {
      SpecCompilesIff(ext, specs[0], id);
      ConditionsCompileIff(ext, specs[1..], id);
      assert forall i :: 0 < i < |specs| ==> specs[i] == specs[1..][i - 1];
      assert forall i :: 0 <= i < |specs[1..]| ==> specs[1..][i] == specs[i + 1];
    }
  }

  // ---- Rows ----

  predicate ActionIsUsable(ext: External, a: ActionSpec) {
    || a.kind in {"allow", "block", "rate_limit"}
    || (a.kind == "override_model" && a.overrideModel != "")
    || (a.kind == "inject_prompt" && a.injectedPrompt != "")
    || (a.kind == "redirect" && (a.redirectProviders != [] || (a.redirectURL != "" && ext.urlAllowed(a.redirectURL))))
  }

  predicate RowIsUsable(ext: External, r: Rule) {
    ActionIsUsable(ext, r.action) && forall i :: 0 <= i < |r.conditions| ==> SpecIsUsable(ext, r.conditions[i])
  }

  /** A row is left out exactly if one of its conditions or its action cannot be used. */
  lemma RowCompilesIff(ext: External, r: Rule)
    ensures Compile(ext, r).Some? <==> RowIsUsable(ext, r)
    ensures Compile(ext, r).Some? ==> Compile(ext, r).value.rule == r
  {
    ConditionsCompileIff(ext, r.conditions, r.id);
  }

  /** A row that is on, meant for this agent or application, and whose conditions all hold. */
  predicate RowApplies(ext: External, r: Rule, ctx: Context, m: Buckets, now: int)
    requires KindsMatch(m)
  {
    && r.enabled && RowIsUsable(ext, r)
    && r.scopeAgentID in {"", ctx.agentID, ctx.appName}
    && forall i :: 0 <= i < |r.conditions| ==> SpecHolds(ext, r.conditions[i], r.id, ctx, m, now)
  }

  lemma RowAppliesIff(ext: External, r: Rule, c: Compiled, ctx: Context, m: Buckets, now: int)
    requires KindsMatch(m) && Compile(ext, r) == Some(c)
    ensures Applies(ext, c, ctx, m, now) <==> RowApplies(ext, r, ctx, m, now)
  {
    RowCompilesIff(ext, r);
    forall i | 0 <= i < |r.conditions|
      ensures Holds(ext, c.conditions[i], ctx, m, now) <==> SpecHolds(ext, r.conditions[i], r.id, ctx, m, now)
    {
      assert CompileCondition(ext, r.conditions[i], r.id) == Some(c.conditions[i]);
      SpecMeansWhatItCompilesTo(ext, r.conditions[i], r.id, ctx, m, now);
    }
  }

  /** The row that should decide: it applies, and no row that applies has a higher priority, or the same and a lower id. */
  ghost predicate Decides(ext: External, rows: seq<Rule>, ctx: Context, m: Buckets, now: int, w: Rule)
    requires KindsMatch(m)
  {
    && w in rows && RowApplies(ext, w, ctx, m, now)
    && forall r :: r in rows && RowApplies(ext, r, ctx, m, now) ==>
         r.priority < w.priority || (r.priority == w.priority && w.id <= r.id)
  }

  // ---- Results ----

  /** What a result shows of the action that made it. */
  predicate Shows(a: ActionSpec, r: Result) {
    && (a.kind == "allow" ==> r.verdict.Allowed?)
    && (a.kind == "block" ==>
          && r.verdict.Blocked? && r.status == (if a.blockStatus == 0 then 403 else a.blockStatus)
          && r.message == (if a.blockMessage == "" then "Request blocked by proxy policy." else a.blockMessage))
    && (a.kind == "rate_limit" ==> r.verdict.Allowed? || r.verdict.RateLimited?)
    && (r.verdict.RateLimited? ==> r.status == (if a.blockStatus == 0 then 429 else a.blockStatus))
    && (a.kind == "override_model" ==> r.verdict.Overridden? && r.model == a.overrideModel)
    && (a.kind == "inject_prompt" ==> r.verdict.Injected? && r.prompt == a.injectedPrompt)
    && (a.kind == "redirect" ==>
          && r.verdict.Redirected? && r.providers == a.redirectProviders
          && r.url == (if a.redirectProviders == [] then a.redirectURL else ""))
    // Nothing else is asked of the request.
    && (a.kind != "override_model" ==> r.model == "") && (a.kind != "inject_prompt" ==> r.prompt == "")
    && (a.kind != "redirect" ==> r.url == "" && r.providers == [])
  }

  lemma ResultShowsAction(ext: External, a: ActionSpec, act: Action, ctx: Context, id: int, m: Buckets, now: int)
    requires KindsMatch(m) && CompileAction(ext, a) == Some(act)
    ensures Shows(a, ApplyAction(act, ctx, id, m, now).1) && ApplyAction(act, ctx, id, m, now).1.ruleID == Some(id)
  {
  }

  /** A refusal says which of the three checks it failed: the request's own message, or the budget's name. */
  lemma RefusalNamesItsCheck(act: Action, ctx: Context, id: int, m: Buckets, now: int)
    requires KindsMatch(m) && PeriodsForward(m) && act.RateLimit?
    ensures var r := ApplyLimit(act, ctx, id, m, now).1;
      r.message == (if !RequestsPass(m, act, ctx, id, now) then act.message
                    else if !CostPasses(m, act, ctx, id, now) then "Daily cost budget exceeded."
                    else if !TokensPass(m, act, ctx, id, now) then "Daily token budget exceeded."
                    else "")
  {
    EveryPassedStageIsPaid(act, ctx, id, m, now);
    var m1 := RequestStage(act, ctx, id, m, now).0;
    StagesApart(act, ctx, id, m, now);
    RequestStagePays(act, ctx, id, m, now);
    OwnPeriods(act, ctx, id, m, m1, CostStage(act, ctx, id, m1, now).0);
    QuotaStagePays(m1, CostKey(ScopeOr(act.scope), ctx.agentID, id), ctx.cost, act.maxCost, now);
    SameAccounts(act, ctx, id, m, m1, now);
  }

  /**
   The first request of an agent under a rule opens the accounts the rule asks for, with the rule's own
   limits: its requests per its window, and its budgets for 24 hours from now.
   */
  lemma FirstUseOpensAccounts(act: Action, ctx: Context, id: int, m: Buckets, now: int)
    requires KindsMatch(m) && act.RateLimit? && ApplyLimit(act, ctx, id, m, now).1.verdict.Allowed?
    ensures var m' := ApplyLimit(act, ctx, id, m, now).0; var scope := if act.scope == "" then "agent" else act.scope;
      var req, cost, tok := ReqKey(scope, ctx.agentID, id), CostKey(scope, ctx.agentID, id), TokKey(scope, ctx.agentID, id);
      && (req !in m && act.maxReq > 0 && act.windowSec > 0 ==>
            req in m' && m'[req].maxTokens == act.maxReq && m'[req].windowSec == act.windowSec && m'[req].tokens == act.maxReq - 1)
      && (cost !in m && act.maxCost > 0.0 ==>
            cost in m' && m'[cost].quota == act.maxCost && m'[cost].used == ctx.cost && m'[cost].resetAt == now + 86_400_000_000_000)
      && (tok !in m && act.maxTokDay > 0 ==>
            tok in m' && m'[tok].quota == act.maxTokDay as real && m'[tok].used == ctx.inputTokens as real
            && m'[tok].resetAt == now + 86_400_000_000_000)
  {
    StagesApart(act, ctx, id, m, now);
    KindsAreDisjoint(ScopeOr(act.scope), ctx.agentID, id);
    RefusedRequestsStillPay(act, ctx, id, m, now);
  }

  // ---- The whole evaluation ----

  lemma WinnerIsDeciding(ext: External, rows: seq<Rule>, ctx: Context, m: Buckets, now: int, w: Compiled)
    requires DistinctIDs(rows) && KindsMatch(m) && IsWinner(ext, Load(ext, rows), ctx, m, now, w)
    ensures Decides(ext, rows, ctx, m, now, w.rule) && Compile(ext, w.rule) == Some(w)
  {
    LoadFacts(ext, rows);
    RowAppliesIff(ext, w.rule, w, ctx, m, now);
    forall r | r in rows && RowApplies(ext, r, ctx, m, now)
      ensures r.priority < w.rule.priority || (r.priority == w.rule.priority && w.rule.id <= r.id)
    {
      RowCompilesIff(ext, r);
      var c := Compile(ext, r).value;
      RowAppliesIff(ext, r, c, ctx, m, now);
      assert c in Load(ext, rows);
    }
  }

  lemma DecidingRowIsUnique(ext: External, rows: seq<Rule>, ctx: Context, m: Buckets, now: int, v: Rule, w: Rule)
    requires DistinctIDs(rows) && KindsMatch(m) && Decides(ext, rows, ctx, m, now, v) && Decides(ext, rows, ctx, m, now, w)
    ensures v == w
  {
    var i :| 0 <= i < |rows| && rows[i] == v;
    var j :| 0 <= j < |rows| && rows[j] == w;
  }

  /**
   After a reload of the rows, in whatever order they are stored, the result names a row exactly if that row
   decides: it applies, has the highest priority of all that apply, and the lowest id among those. It shows
   that row's action. If no row applies, no rule is named, the request is allowed and no bucket changes.
   */
  lemma {:induction false} ResultNamesTheDecidingRow(ext: External, rows: seq<Rule>, ctx: Context, m: Buckets, now: int)
    requires DistinctIDs(rows) && KindsMatch(m)
    ensures var (m', r, matched) := EvaluateStep(ext, SortRules(CompileAll(ext, rows)), ctx, m, now);
      && (forall w :: w in rows ==> (r.ruleID == Some(w.id) <==> Decides(ext, rows, ctx, m, now, w)))
      && (forall w :: w in rows && Decides(ext, rows, ctx, m, now, w) ==> Shows(w.action, r))
      && ((forall w :: w in rows ==> !RowApplies(ext, w, ctx, m, now)) ==> r.ruleID == None && r.verdict.Allowed? && m' == m)
      && (matched <==> !r.verdict.Allowed?)
  {
    EvaluatePicksTheBestRule(ext, rows, ctx, m, now);
    var out := EvaluateStep(ext, Load(ext, rows), ctx, m, now);
    if w :| IsWinner(ext, Load(ext, rows), ctx, m, now, w) && w.rule in rows && IsOutcome(out, w, ctx, m, now) {
      WinnerIsDeciding(ext, rows, ctx, m, now, w);
      ResultShowsAction(ext, w.rule.action, w.act, ctx, w.rule.id, m, now);
      forall v | v in rows ensures out.1.ruleID == Some(v.id) <==> Decides(ext, rows, ctx, m, now, v) {
        if out.1.ruleID == Some(v.id) {
          SameIDSameRow(rows, v, w.rule);
        }
        if Decides(ext, rows, ctx, m, now, v) {
          DecidingRowIsUnique(ext, rows, ctx, m, now, v, w.rule);
        }
      }
      forall v | v in rows && Decides(ext, rows, ctx, m, now, v) ensures Shows(v.action, out.1) {
        DecidingRowIsUnique(ext, rows, ctx, m, now, v, w.rule);
      }
    } else {
      NobodyApplies(ext, rows, ctx, m, now);
    }
  }

  lemma SameIDSameRow(rows: seq<Rule>, v: Rule, w: Rule)
    requires DistinctIDs(rows) && v in rows && w in rows && v.id == w.id
    ensures v == w
  {
    var i :| 0 <= i < |rows| && rows[i] == v;
    var j :| 0 <= j < |rows| && rows[j] == w;
  }

  lemma NobodyApplies(ext: External, rows: seq<Rule>, ctx: Context, m: Buckets, now: int)
    requires KindsMatch(m) && forall r, c :: r in rows && Compile(ext, r) == Some(c) ==> !Applies(ext, c, ctx, m, now)
    ensures forall r :: r in rows ==> !RowApplies(ext, r, ctx, m, now)
  {
    forall r | r in rows ensures !RowApplies(ext, r, ctx, m, now) {
      if RowIsUsable(ext, r) {
        RowCompilesIff(ext, r);
        RowAppliesIff(ext, r, Compile(ext, r).value, ctx, m, now);
      }
    }
  }
}
