/**
 The rules engine: compiling rule rows, sorting them, and the first-match evaluation
 (rules/engine.go, rules/conditions.go, rules/actions.go). Regular expressions, globs, Unicode
 case folding and the upstream-URL check are parameters.
 */
module RulesEngine {
  import opened Wrappers
  import opened BucketKeys
  import opened RateLimiter

  /** Library calls whose code is not modelled: any functions at all. */
  datatype External = External(
    regexCompiles: string -> bool,
    regexMatches: (string, string) -> bool,
    globMatches: (string, string) -> bool,
    containsFold: (string, string) -> bool,
    urlAllowed: string -> bool)

  // ---- Rule rows as stored ----

  datatype ConditionSpec = ConditionSpec(kind: string, value: string, mode: string, threshold: real, op: string)

  datatype ActionSpec = ActionSpec(
    kind: string, blockStatus: int, blockMessage: string, overrideModel: string, injectedPrompt: string,
    redirectURL: string, redirectProviders: seq<string>,
    limitRequests: int, limitWindowSec: int, limitCost: real, limitTokensDay: int, limitScope: string)

  datatype Rule = Rule(id: int, enabled: bool, priority: int, scopeAgentID: string,
                       conditions: seq<ConditionSpec>, action: ActionSpec)

  /** The request under evaluation. A session is present with its cost so far, or absent. */
  datatype Context = Context(
    agentID: string, appName: string, provider: string, model: string, prompt: string,
    sessionCost: Option<real>, inputTokens: nat, cost: real,
    loopDetected: bool, jailbreak: bool, jailbreakScore: real, blocked: bool, violation: string)

  // ---- Compiled rules ----

  datatype Field = AgentID | AppName | Model | Provider

  datatype Condition =
    | StringCond(field: Field, mode: string, pattern: string)
    | PromptCond(mode: string, pattern: string)
    | TokensCond(op: string, threshold: real)
    | SessionCostCond(op: string, threshold: real)
    | CostQuotaCond(threshold: real)
    | RequestCountCond(ruleID: int)
    | LoopCond
    | JailbreakCond(op: string, threshold: real)
    | GuardrailsCond(violation: string)

  datatype Action =
    | Allow
    | Block(status: int, message: string)
    | RateLimit(status: int, message: string, maxReq: int, windowSec: int, maxCost: real, maxTokDay: int, scope: string)
    | OverrideModel(model: string)
    | InjectPrompt(prompt: string)
    | Redirect(url: string, providers: seq<string>)

  datatype Compiled = Compiled(rule: Rule, conditions: seq<Condition>, act: Action)

  function ModeOr(mode: string): string { if mode == "" then "exact" else mode }

  function CompileString(ext: External, spec: ConditionSpec, field: Field): Option<Condition> {
    if ModeOr(spec.mode) == "regex" && !ext.regexCompiles(spec.value) then None
    else Some(StringCond(field, ModeOr(spec.mode), spec.value))
  }

  function CompileCondition(ext: External, spec: ConditionSpec, ruleID: int): Option<Condition> {
    match spec.kind
    case "agent_id" => CompileString(ext, spec, AgentID)
    case "app_name" => CompileString(ext, spec, AppName)
    case "model" => CompileString(ext, spec, Model)
    case "provider" => CompileString(ext, spec, Provider)
    case "prompt_content" =>
      if ModeOr(spec.mode) == "regex" && !ext.regexCompiles(spec.value) then None
      else Some(PromptCond(ModeOr(spec.mode), spec.value))
    case "input_tokens" => Some(TokensCond(spec.op, spec.threshold))
    case "cost_session" => Some(SessionCostCond(spec.op, spec.threshold))
    case "cost_daily" => Some(CostQuotaCond(spec.threshold))
    case "cost_monthly" => Some(CostQuotaCond(spec.threshold))
    case "request_count" => Some(RequestCountCond(ruleID))
    case "loop_detected" => Some(LoopCond)
    case "jailbreak" => Some(JailbreakCond(spec.op, spec.threshold))
    case "guardrails" => Some(GuardrailsCond(spec.value))
    case _ => None
  }

  function CompileConditions(ext: External, specs: seq<ConditionSpec>, ruleID: int): (r: Option<seq<Condition>>)
    ensures r.Some? ==> |r.value| == |specs|
    ensures r.Some? ==> forall i :: 0 <= i < |specs| ==> CompileCondition(ext, specs[i], ruleID) == Some(r.value[i])
  {
    if specs == [] then Some([])
    else
      match (CompileCondition(ext, specs[0], ruleID), CompileConditions(ext, specs[1..], ruleID))
      case (Some(c), Some(cs)) => Some([c] + cs)
      case _ => None
  }

  function StatusOr(status: int, default: int): int { if status == 0 then default else status }
  function MessageOr(message: string, default: string): string { if message == "" then default else message }

  function CompileAction(ext: External, a: ActionSpec): Option<Action> {
    match a.kind
    case "allow" => Some(Allow)
    case "block" => Some(Block(StatusOr(a.blockStatus, 403), MessageOr(a.blockMessage, "Request blocked by proxy policy.")))
    case "rate_limit" =>
      Some(RateLimit(StatusOr(a.blockStatus, 429), MessageOr(a.blockMessage, "Rate limit exceeded."),
                     a.limitRequests, a.limitWindowSec, a.limitCost, a.limitTokensDay, a.limitScope))
    case "override_model" => if a.overrideModel == "" then None else Some(OverrideModel(a.overrideModel))
    case "inject_prompt" => if a.injectedPrompt == "" then None else Some(InjectPrompt(a.injectedPrompt))
    case "redirect" =>
      if |a.redirectProviders| > 0 then Some(Redirect("", a.redirectProviders))
      else if a.redirectURL == "" || !ext.urlAllowed(a.redirectURL) then None
      else Some(Redirect(a.redirectURL, []))
    case _ => None
  }

  function Compile(ext: External, r: Rule): Option<Compiled> {
    match (CompileConditions(ext, r.conditions, r.id), CompileAction(ext, r.action))
    case (Some(cs), Some(act)) => Some(Compiled(r, cs, act))
    case _ => None
  }

  /** Rows that do not compile are skipped. */
  function CompileAll(ext: External, rows: seq<Rule>): seq<Compiled> {
    if rows == [] then []
    else
      var rest := CompileAll(ext, rows[1..]);
      match Compile(ext, rows[0])
      case Some(c) => [c] + rest
      case None => rest
  }

  // ---- Evaluating conditions ----

  function FieldOf(ctx: Context, field: Field): string {
    match field
    case AgentID => ctx.agentID
    case AppName => ctx.appName
    case Model => ctx.model
    case Provider => ctx.provider
  }

  function EvalOp(val: real, op: string, threshold: real): bool {
    match op
    case "gt" => val > threshold
    case "lt" => val < threshold
    case "lte" => val <= threshold
    case "eq" => val == threshold
    case _ => val >= threshold
  }

  function MatchesMode(ext: External, mode: string, pattern: string, text: string, otherwise: bool): bool {
    match mode
    case "exact" => text == pattern
    case "glob" => ext.globMatches(pattern, text)
    case "regex" => ext.regexMatches(pattern, text)
    case _ => otherwise
  }

  function Holds(ext: External, c: Condition, ctx: Context, m: Buckets, now: int): bool
    requires KindsMatch(m)
  {
    match c
    case StringCond(f, mode, p) => MatchesMode(ext, mode, p, FieldOf(ctx, f), FieldOf(ctx, f) == p)
    case PromptCond(mode, p) => MatchesMode(ext, mode, p, ctx.prompt, ext.containsFold(ctx.prompt, p))
    case TokensCond(op, t) => EvalOp(ctx.inputTokens as real, op, t)
    case SessionCostCond(op, t) => EvalOp(if ctx.sessionCost.Some? then ctx.sessionCost.value else 0.0, op, t)
    case CostQuotaCond(t) => ctx.sessionCost.Some? && ctx.sessionCost.value >= t
    case RequestCountCond(id) => !PeekStep(m, ReqKey("agent", ctx.agentID, id), now)
    case LoopCond => ctx.loopDetected
    case JailbreakCond(op, t) => if op == "" then ctx.jailbreak else EvalOp(ctx.jailbreakScore, op, t)
    case GuardrailsCond(v) => if v == "" then ctx.blocked else ctx.violation == v
  }

  predicate InScope(r: Rule, ctx: Context) {
    r.scopeAgentID == "" || r.scopeAgentID == ctx.agentID || r.scopeAgentID == ctx.appName
  }

  /** Enabled, in scope, and every condition holds. */
  predicate Applies(ext: External, c: Compiled, ctx: Context, m: Buckets, now: int)
    requires KindsMatch(m)
  {
    c.rule.enabled && InScope(c.rule, ctx)
    && forall i :: 0 <= i < |c.conditions| ==> Holds(ext, c.conditions[i], ctx, m, now)
  }

  // ---- Applying the action ----

  datatype Verdict = Allowed | Blocked | RateLimited | Overridden | Injected | Redirected

  datatype Result = Result(verdict: Verdict, status: int, message: string, model: string, prompt: string,
                           url: string, providers: seq<string>, ruleID: Option<int>)

  function NoMatch(): Result { Result(Allowed, 0, "", "", "", "", [], None) }

  function Limited(id: int, status: int, message: string): Result {
    Result(RateLimited, status, message, "", "", "", [], Some(id))
  }

  function AllowedBy(id: int): Result { Result(Allowed, 0, "", "", "", "", [], Some(id)) }

  function ScopeOr(scope: string): string { if scope == "" then "agent" else scope }

  const DAY_SEC: int := 86400

  /** A stage with no limit configured passes and touches nothing. */
  function RequestStage(act: Action, ctx: Context, id: int, m: Buckets, now: int): (r: (Buckets, bool))
    requires KindsMatch(m) && act.RateLimit?
    ensures KindsMatch(r.0)
  {
    var key := ReqKey(ScopeOr(act.scope), ctx.agentID, id);
    if act.maxReq > 0 && act.windowSec > 0 then RequestStep(m, key, act.maxReq, act.windowSec, now) else (m, true)
  }

  function CostStage(act: Action, ctx: Context, id: int, m: Buckets, now: int): (Buckets, bool)
    requires act.RateLimit?
  {
    var key := CostKey(ScopeOr(act.scope), ctx.agentID, id);
    if act.maxCost > 0.0 then QuotaStep(m, key, ctx.cost, act.maxCost, DAY_SEC, now) else (m, true)
  }

  function TokenStage(act: Action, ctx: Context, id: int, m: Buckets, now: int): (Buckets, bool)
    requires act.RateLimit?
  {
    var key := TokKey(ScopeOr(act.scope), ctx.agentID, id);
    if act.maxTokDay > 0 then QuotaStep(m, key, ctx.inputTokens as real, act.maxTokDay as real, DAY_SEC, now) else (m, true)
  }

  /** Three checks in order, each charging its bucket; an earlier charge is never taken back. */
  function ApplyLimit(act: Action, ctx: Context, id: int, m: Buckets, now: int): (Buckets, Result)
    requires KindsMatch(m) && act.RateLimit?
  {
    var (m1, ok1) := RequestStage(act, ctx, id, m, now);
    if !ok1 then (m1, Limited(id, act.status, act.message))
    else
      var (m2, ok2) := CostStage(act, ctx, id, m1, now);
      if !ok2 then (m2, Limited(id, act.status, "Daily cost budget exceeded."))
      else
        var (m3, ok3) := TokenStage(act, ctx, id, m2, now);
        if !ok3 then (m3, Limited(id, act.status, "Daily token budget exceeded."))
        else (m3, AllowedBy(id))
  }

  function ApplyAction(act: Action, ctx: Context, id: int, m: Buckets, now: int): (Buckets, Result)
    requires KindsMatch(m)
  {
    match act
    case Allow => (m, AllowedBy(id))
    case Block(s, msg) => (m, Result(Blocked, s, msg, "", "", "", [], Some(id)))
    case RateLimit(_, _, _, _, _, _, _) => ApplyLimit(act, ctx, id, m, now)
    case OverrideModel(model) => (m, Result(Overridden, 0, "", model, "", "", [], Some(id)))
    case InjectPrompt(p) => (m, Result(Injected, 0, "", "", p, "", [], Some(id)))
    case Redirect(u, ps) => (m, Result(Redirected, 0, "", "", "", u, ps, Some(id)))
  }

  // ---- Rule order ----

  /** Higher priority first, then lower id. */
  predicate Before(a: Compiled, b: Compiled) {
    a.rule.priority > b.rule.priority || (a.rule.priority == b.rule.priority && a.rule.id < b.rule.id)
  }

  predicate SortedRules(s: seq<Compiled>) {
    forall i, j :: 0 <= i < j < |s| ==> Before(s[i], s[j])
  }

  predicate DistinctIDs(rows: seq<Rule>) {
    forall i, j :: 0 <= i < j < |rows| ==> rows[i].id != rows[j].id
  }

  function InsertRule(c: Compiled, s: seq<Compiled>): (r: seq<Compiled>)
    ensures multiset(r) == multiset(s) + multiset{c}
  {
    if s == [] then [c]
    else if Before(c, s[0]) then [c] + s
    else
      assert s == [s[0]] + s[1..];
      [s[0]] + InsertRule(c, s[1..])
  }

  /** Stands for the library's unstable sort; SortIsUnique shows no other result is possible. */
  function SortRules(s: seq<Compiled>): (r: seq<Compiled>)
    ensures multiset(r) == multiset(s)
  {
    if s == [] then []
    else
      assert s == [s[0]] + s[1..];
      InsertRule(s[0], SortRules(s[1..]))
  }

  // ---- First match ----

  /** Index of the first rule that applies, or |rules|. */
  function FirstMatch(ext: External, rules: seq<Compiled>, ctx: Context, m: Buckets, now: int): (i: nat)
    requires KindsMatch(m)
    ensures i <= |rules|
    ensures i < |rules| ==> Applies(ext, rules[i], ctx, m, now)
    ensures forall j :: 0 <= j < i ==> !Applies(ext, rules[j], ctx, m, now)
  {
    if rules == [] then 0
    else if Applies(ext, rules[0], ctx, m, now) then 0
    else 1 + FirstMatch(ext, rules[1..], ctx, m, now)
  }

  /** The new buckets, the result, and whether a match is reported (an allow is not). */
  function EvaluateStep(ext: External, rules: seq<Compiled>, ctx: Context, m: Buckets, now: int): (Buckets, Result, bool)
    requires KindsMatch(m)
  {
    var i := FirstMatch(ext, rules, ctx, m, now);
    if i == |rules| then (m, NoMatch(), false)
    else
      var (m', r) := ApplyAction(rules[i].act, ctx, rules[i].rule.id, m, now);
      (m', r, !r.verdict.Allowed?)
  }

  // ---- What conditions look at ----

  /** Of all conditions, exactly the request counts can be changed by the buckets or by the clock. */
  lemma LimiterMattersIff(ext: External, c: Condition, ctx: Context)
    ensures c.RequestCountCond? <==>
      exists m, m', now, now' :: KindsMatch(m) && KindsMatch(m') && Holds(ext, c, ctx, m, now) != Holds(ext, c, ctx, m', now')
  {
    if c.RequestCountCond? {
      var key := ReqKey("agent", ctx.agentID, c.ruleID);
      var drained: Buckets := map[key := Bucket(1, 0, 0, 0, 0.0, 0.0, 0, 0)];
      assert KindsMatch(map[]) && KindsMatch(drained);
      assert !PeekStep(drained, key, 0) && PeekStep(map[], key, 0);
      assert Holds(ext, c, ctx, drained, 0) != Holds(ext, c, ctx, map[], 0);
    }
  }

  /**
   A daily and a monthly cost condition are the same condition, and look at no period: they compare the
   session's cost so far. They differ from cost_session with gte just where there is no session and the
   threshold is not positive.
   */
  lemma CostQuotaIsSessionCostIff(ext: External, spec: ConditionSpec, id: int, ctx: Context, m: Buckets, now: int)
    requires KindsMatch(m)
    ensures var daily := CompileCondition(ext, spec.(kind := "cost_daily"), id);
      var monthly := CompileCondition(ext, spec.(kind := "cost_monthly"), id);
      var session := CompileCondition(ext, spec.(kind := "cost_session", op := "gte"), id);
      && daily.Some? && daily == monthly && session.Some?
      && (Holds(ext, daily.value, ctx, m, now) == Holds(ext, session.value, ctx, m, now)
          <==> ctx.sessionCost.Some? || spec.threshold > 0.0)
  {
  }

  /** A prompt condition searches the prompt for its text only under a mode that is none of the documented ones, nor empty. */
  lemma PromptSearchedIff(ext: External, spec: ConditionSpec, id: int, ctx: Context, m: Buckets, now: int)
    requires KindsMatch(m) && spec.kind == "prompt_content" && CompileCondition(ext, spec, id).Some?
    ensures var c := CompileCondition(ext, spec, id).value;
      (exists f :: Holds(ext.(containsFold := f), c, ctx, m, now) != Holds(ext, c, ctx, m, now))
      <==> spec.mode !in ["", "exact", "glob", "regex"]
  {
    if spec.mode !in ["", "exact", "glob", "regex"] {
      var c := CompileCondition(ext, spec, id).value;
      assert c == PromptCond(spec.mode, spec.value);
      var found := ext.containsFold(ctx.prompt, spec.value);
      var f: (string, string) -> bool := (s, t) => !found;
      assert Holds(ext.(containsFold := f), c, ctx, m, now) != Holds(ext, c, ctx, m, now);
    }
  }

  // ---- The condition objects ----

  method EvaluateOp(val: real, op: string, threshold: real) returns (holds: bool)
    ensures holds == EvalOp(val, op, threshold)
  {
    if op == "gt" {
      return val > threshold;
    } else if op == "gte" || op == "" {
      return val >= threshold;
    } else if op == "lt" {
      return val < threshold;
    } else if op == "lte" {
      return val <= threshold;
    } else if op == "eq" {
      return val == threshold;
    }
    return val >= threshold;
  }

  method EvaluateString(ext: External, mode: string, value: string, val: string) returns (holds: bool)
    ensures holds == MatchesMode(ext, mode, value, val, val == value)
  {
    if mode == "exact" {
      return val == value;
    } else if mode == "glob" {
      return ext.globMatches(value, val);
    } else if mode == "regex" {
      return ext.regexMatches(value, val);
    }
    return val == value;
  }

  method EvaluatePrompt(ext: External, mode: string, value: string, text: string) returns (holds: bool)
    ensures holds == MatchesMode(ext, mode, value, text, ext.containsFold(text, value))
  {
    if mode == "exact" {
      return text == value;
    } else if mode == "glob" {
      return ext.globMatches(value, text);
    } else if mode == "regex" {
      return ext.regexMatches(value, text);
    }
    return ext.containsFold(text, value);
  }

  // ---- The engine object ----

  class Engine {
    var rules: seq<Compiled>
    const limiter: Limiter

    ghost predicate Valid()
      reads this, limiter, limiter.buckets.Values
    {
      limiter.Valid()
    }

    constructor (limiter: Limiter)
      requires limiter.Valid()
      ensures Valid() && rules == [] && this.limiter == limiter
    {
      this.limiter := limiter;
      rules := [];
    }

    /** Compile what compiles, sort, and replace the rule list in one assignment. */
    method Reload(ext: External, rows: seq<Rule>)
      modifies this`rules
      ensures rules == SortRules(CompileAll(ext, rows))
    {
      var compiled: seq<Compiled> := [];
      assert rows[0..] == rows && compiled + CompileAll(ext, rows) == CompileAll(ext, rows);
      for k := 0 to |rows|
        invariant compiled + CompileAll(ext, rows[k..]) == CompileAll(ext, rows)
      {
        var c := Compile(ext, rows[k]);
        assert rows[k..][0] == rows[k] && rows[k..][1..] == rows[k + 1..];
        if c.Some? {
          assert compiled + ([c.value] + CompileAll(ext, rows[k + 1..])) == (compiled + [c.value]) + CompileAll(ext, rows[k + 1..]);
          compiled := compiled + [c.value];
        }
      }
      assert rows[|rows|..] == [] && compiled + [] == compiled;
      rules := SortRules(compiled);
    }

    method ConditionHolds(ext: External, c: Condition, ctx: Context, now: int) returns (holds: bool)
      requires Valid()
      ensures holds == Holds(ext, c, ctx, limiter.View(), now)
    {
      match c
      case StringCond(field, mode, pattern) =>
        var val := ctx.provider;
        if field.AgentID? {
          val := ctx.agentID;
        } else if field.AppName? {
          val := ctx.appName;
        } else if field.Model? {
          val := ctx.model;
        }
        holds := EvaluateString(ext, mode, pattern, val);
      case PromptCond(mode, pattern) =>
        holds := EvaluatePrompt(ext, mode, pattern, ctx.prompt);
      case TokensCond(op, threshold) =>
        holds := EvaluateOp(ctx.inputTokens as real, op, threshold);
      case SessionCostCond(op, threshold) =>
        var cost := 0.0;
        if ctx.sessionCost.Some? {
          cost := ctx.sessionCost.value;
        }
        holds := EvaluateOp(cost, op, threshold);
      case CostQuotaCond(threshold) =>
        if ctx.sessionCost.None? {
          return false;
        }
        holds := ctx.sessionCost.value >= threshold;
      case RequestCountCond(ruleID) =>
        var allowed := limiter.PeekRequest("agent", ctx.agentID, ruleID, now);
        holds := !allowed;
      case LoopCond =>
        holds := ctx.loopDetected;
      case JailbreakCond(op, threshold) =>
        if op == "" {
          return ctx.jailbreak;
        }
        holds := EvaluateOp(ctx.jailbreakScore, op, threshold);
      case GuardrailsCond(violation) =>
        if violation == "" {
          return ctx.blocked;
        }
        holds := ctx.violation == violation;
    }

    method MatchAll(ext: External, conditions: seq<Condition>, ctx: Context, now: int) returns (all: bool)
      requires Valid()
      ensures all == forall i :: 0 <= i < |conditions| ==> Holds(ext, conditions[i], ctx, limiter.View(), now)
    {
      for i := 0 to |conditions|
        invariant forall j :: 0 <= j < i ==> Holds(ext, conditions[j], ctx, limiter.View(), now)
      {
        var holds := ConditionHolds(ext, conditions[i], ctx, now);
        if !holds {
          return false;
        }
      }
      return true;
    }

    method Apply(act: Action, ctx: Context, id: int, now: int) returns (r: Result)
      requires Valid()
      modifies limiter, limiter.buckets.Values
      ensures Valid() && (limiter.View(), r) == ApplyAction(act, ctx, id, old(limiter.View()), now)
    {
      match act
      case Allow => r := AllowedBy(id);
      case Block(s, msg) => r := Result(Blocked, s, msg, "", "", "", [], Some(id));
      case RateLimit(_, _, _, _, _, _, _) => r := ApplyRateLimit(act, ctx, id, now);
      case OverrideModel(model) => r := Result(Overridden, 0, "", model, "", "", [], Some(id));
      case InjectPrompt(p) => r := Result(Injected, 0, "", "", p, "", [], Some(id));
      case Redirect(u, ps) => r := Result(Redirected, 0, "", "", "", u, ps, Some(id));
    }

    method ApplyRateLimit(act: Action, ctx: Context, id: int, now: int) returns (r: Result)
      requires Valid() && act.RateLimit?
      modifies limiter, limiter.buckets.Values
      ensures Valid() && (limiter.View(), r) == ApplyLimit(act, ctx, id, old(limiter.View()), now)
    {
      var scope := act.scope;
      if scope == "" {
        scope := "agent";
      }
      var ok := true;
      if act.maxReq > 0 && act.windowSec > 0 {
        ok := limiter.CheckAndConsumeRequest(scope, ctx.agentID, id, act.maxReq, act.windowSec, now);
        if !ok {
          return Limited(id, act.status, act.message);
        }
      }
      if act.maxCost > 0.0 {
        ok := limiter.CheckAndConsumeCost(scope, ctx.agentID, id, ctx.cost, act.maxCost, DAY_SEC, now);
        if !ok {
          return Limited(id, act.status, "Daily cost budget exceeded.");
        }
      }
      if act.maxTokDay > 0 {
        ok := limiter.CheckAndConsumeTokens(scope, ctx.agentID, id, ctx.inputTokens, act.maxTokDay, DAY_SEC, now);
        if !ok {
          return Limited(id, act.status, "Daily token budget exceeded.");
        }
      }
      return AllowedBy(id);
    }

    method Evaluate(ext: External, ctx: Context, now: int) returns (r: Result, matched: bool)
      requires Valid()
      modifies limiter, limiter.buckets.Values
      ensures Valid() && rules == old(rules)
      ensures (limiter.View(), r, matched) == EvaluateStep(ext, rules, ctx, old(limiter.View()), now)
    {
      for k := 0 to |rules|
        invariant limiter.View() == old(limiter.View()) && Valid() && limiter.buckets == old(limiter.buckets)
        invariant forall j :: 0 <= j < k ==> !Applies(ext, rules[j], ctx, limiter.View(), now)
      {
        var c := rules[k];
        if !c.rule.enabled {
          continue;
        }
        if c.rule.scopeAgentID != "" && c.rule.scopeAgentID != ctx.agentID && c.rule.scopeAgentID != ctx.appName {
          continue;
        }
        var all := MatchAll(ext, c.conditions, ctx, now);
        if all {
          assert FirstMatch(ext, rules, ctx, limiter.View(), now) == k;
          r := Apply(c.act, ctx, c.rule.id, now);
          return r, !r.verdict.Allowed?;
        }
      }
      return NoMatch(), false;
    }
  }
}
