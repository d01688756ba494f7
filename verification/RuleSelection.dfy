/**
 Which rule an evaluation picks: the unique best-ranked rule that applies, whatever the order of
 the stored rows and whatever the sorting algorithm.
 */
module RuleSelection {
  import opened Wrappers
  import opened BucketKeys
  import opened RateLimiter
  import opened RulesEngine

  predicate DistinctCompiled(s: seq<Compiled>) {
    forall i, j :: 0 <= i < j < |s| ==> s[i].rule.id != s[j].rule.id
  }

  // ---- The sort ----

  lemma InMultiset(c: Compiled, s: seq<Compiled>, t: seq<Compiled>)
    requires multiset(s) == multiset(t) && c in s
    ensures c in t
  {
    assert c in multiset(s);
    assert c in multiset(t);
  }

  lemma {:induction false} InsertSorted(c: Compiled, s: seq<Compiled>)
    requires SortedRules(s) && forall x :: x in s ==> x.rule.id != c.rule.id
    ensures SortedRules(InsertRule(c, s))
  {
    if s != [] {
      if Before(c, s[0]) {
        assert forall x :: x in s ==> Before(c, x);
      } else {
        InsertSorted(c, s[1..]);
        var r := InsertRule(c, s[1..]);
        forall x | x in r ensures Before(s[0], x) {
          assert multiset(r) == multiset(s[1..]) + multiset{c};
          assert x in multiset(r);
          assert x in multiset(s[1..]) || x == c;
        }
      }
    }
  }

  lemma {:induction false} SortSorted(s: seq<Compiled>)
    requires DistinctCompiled(s)
    ensures SortedRules(SortRules(s))
  {
    if s != [] {
      SortSorted(s[1..]);
      var t := SortRules(s[1..]);
      forall x | x in t ensures x.rule.id != s[0].rule.id {
        InMultiset(x, t, s[1..]);
      }
      InsertSorted(s[0], t);
    }
  }

  lemma HeadsAgree(s: seq<Compiled>, t: seq<Compiled>)
    requires SortedRules(s) && SortedRules(t) && multiset(s) == multiset(t) && s != []
    ensures t != [] && s[0] == t[0]
  {
    InMultiset(s[0], s, t);
    InMultiset(t[0], t, s);
    var i :| 0 <= i < |s| && s[i] == t[0];
    var j :| 0 <= j < |t| && t[j] == s[0];
    assert i > 0 ==> Before(s[0], t[0]);
    assert j > 0 ==> Before(t[0], s[0]);
  }

  lemma TailMultiset(s: seq<Compiled>)
    requires s != []
    ensures multiset(s[1..]) == multiset(s) - multiset{s[0]}
  {
    assert s == [s[0]] + s[1..];
  }

  lemma {:induction false} SortedIsUnique(s: seq<Compiled>, t: seq<Compiled>)
    requires SortedRules(s) && SortedRules(t) && multiset(s) == multiset(t)
    ensures s == t
    decreases |s|
  {
    if s == [] {
      assert |multiset(t)| == 0;
    } else {
      HeadsAgree(s, t);
      TailMultiset(s);
      TailMultiset(t);
      SortedIsUnique(s[1..], t[1..]);
      assert s == [s[0]] + s[1..] && t == [t[0]] + t[1..];
    }
  }

  /** Any algorithm that returns a sorted permutation returns this one. */
  lemma {:induction false} SortIsUnique(s: seq<Compiled>, t: seq<Compiled>)
    requires DistinctCompiled(s) && SortedRules(t) && multiset(t) == multiset(s)
    ensures t == SortRules(s)
  {
    SortSorted(s);
    SortedIsUnique(t, SortRules(s));
  }

  // ---- Compilation keeps rules apart and does not depend on row order ----

  lemma {:induction false} CompiledFrom(ext: External, rows: seq<Rule>, c: Compiled)
    ensures c in CompileAll(ext, rows) <==> c.rule in rows && Compile(ext, c.rule) == Some(c)
  {
    if rows != [] {
      CompiledFrom(ext, rows[1..], c);
    }
  }

  lemma {:induction false} CompileKeepsDistinct(ext: External, rows: seq<Rule>)
    requires DistinctIDs(rows)
    ensures DistinctCompiled(CompileAll(ext, rows))
  {
    if rows != [] {
      CompileKeepsDistinct(ext, rows[1..]);
      var rest := CompileAll(ext, rows[1..]);
      forall c | c in rest ensures c.rule.id != rows[0].id {
        CompiledFrom(ext, rows[1..], c);
      }
    }
  }

  lemma {:induction false} CompileConcat(ext: External, a: seq<Rule>, b: seq<Rule>)
    ensures CompileAll(ext, a + b) == CompileAll(ext, a) + CompileAll(ext, b)
  {
    if a == [] {
      assert a + b == b;
    } else {
      assert (a + b)[1..] == a[1..] + b;
      CompileConcat(ext, a[1..], b);
    }
  }

  lemma {:induction false} CompileOrderIrrelevant(ext: External, rows: seq<Rule>, rows': seq<Rule>)
    requires multiset(rows) == multiset(rows')
    ensures multiset(CompileAll(ext, rows)) == multiset(CompileAll(ext, rows'))
    decreases |rows|
  {
    if rows == [] {
      assert |multiset(rows')| == 0;
    } else {
      var x := rows[0];
      assert x in multiset(rows');
      var k :| 0 <= k < |rows'| && rows'[k] == x;
      var a, b := rows'[..k], rows'[k + 1..];
      assert rows' == a + ([x] + b);
      assert rows == [x] + rows[1..];
      assert multiset(rows[1..]) == multiset(rows) - multiset{x};
      assert multiset(a + b) == multiset(rows') - multiset{x};
      CompileOrderIrrelevant(ext, rows[1..], a + b);
      CompileConcat(ext, [x], rows[1..]);
      CompileConcat(ext, a, [x] + b);
      CompileConcat(ext, [x], b);
      CompileConcat(ext, a, b);
    }
  }

  /** The loaded rule list depends only on which rows there are. */
  lemma {:induction false} RowOrderIrrelevant(ext: External, rows: seq<Rule>, rows': seq<Rule>)
    requires DistinctIDs(rows) && multiset(rows) == multiset(rows')
    ensures SortRules(CompileAll(ext, rows)) == SortRules(CompileAll(ext, rows'))
  {
    CompileKeepsDistinct(ext, rows);
    CompileOrderIrrelevant(ext, rows, rows');
    SortSorted(CompileAll(ext, rows));
    var s, s' := CompileAll(ext, rows), CompileAll(ext, rows');
    PermutedDistinct(s, s');
    SortIsUnique(s', SortRules(s));
  }

  lemma PermutedDistinct(s: seq<Compiled>, t: seq<Compiled>)
    requires DistinctCompiled(s) && multiset(s) == multiset(t)
    ensures DistinctCompiled(t)
  {
    forall i, j | 0 <= i < j < |t| ensures t[i].rule.id != t[j].rule.id {
      InMultiset(t[i], t, s);
      InMultiset(t[j], t, s);
      var a :| 0 <= a < |s| && s[a] == t[i];
      var b :| 0 <= b < |s| && s[b] == t[j];
      if a == b {
        TwiceInMultiset(t, i, j);
        OnceInMultiset(s, a);
      }
    }
  }

  lemma TwiceInMultiset(t: seq<Compiled>, i: nat, j: nat)
    requires i < j < |t| && t[i] == t[j]
    ensures multiset(t)[t[i]] >= 2
  {
    assert t == t[..i] + ([t[i]] + (t[i + 1..j] + ([t[j]] + t[j + 1..])));
  }

  lemma OnceInMultiset(s: seq<Compiled>, a: nat)
    requires DistinctCompiled(s) && a < |s|
    ensures multiset(s)[s[a]] == 1
  {
    assert s == s[..a] + ([s[a]] + s[a + 1..]);
    assert s[a] !in s[..a] && s[a] !in s[a + 1..];
  }

  // ---- The winner ----

  /** w applies, and every other applying rule ranks below it. */
  ghost predicate IsWinner(ext: External, rules: seq<Compiled>, ctx: Context, m: Buckets, now: int, w: Compiled)
    requires KindsMatch(m)
  {
    && w in rules && Applies(ext, w, ctx, m, now)
    && forall c :: c in rules && c != w && Applies(ext, c, ctx, m, now) ==> Before(w, c)
  }

  /** The loaded list for a set of rows, in evaluation order. */
  function Load(ext: External, rows: seq<Rule>): seq<Compiled> { SortRules(CompileAll(ext, rows)) }

  lemma LoadFacts(ext: External, rows: seq<Rule>)
    requires DistinctIDs(rows)
    ensures SortedRules(Load(ext, rows))
    ensures forall c :: c in Load(ext, rows) <==> c.rule in rows && Compile(ext, c.rule) == Some(c)
  {
    CompileKeepsDistinct(ext, rows);
    SortSorted(CompileAll(ext, rows));
    forall c ensures c in Load(ext, rows) <==> c.rule in rows && Compile(ext, c.rule) == Some(c) {
      CompiledFrom(ext, rows, c);
      if c in Load(ext, rows) { InMultiset(c, Load(ext, rows), CompileAll(ext, rows)); }
      if c in CompileAll(ext, rows) { InMultiset(c, CompileAll(ext, rows), Load(ext, rows)); }
    }
  }

  lemma {:induction false} FirstMatchWins(ext: External, rules: seq<Compiled>, ctx: Context, m: Buckets, now: int)
    requires KindsMatch(m) && SortedRules(rules)
    ensures var i := FirstMatch(ext, rules, ctx, m, now);
      i < |rules| ==> IsWinner(ext, rules, ctx, m, now, rules[i])
  {
    var i := FirstMatch(ext, rules, ctx, m, now);
    if i < |rules| {
      forall c | c in rules && c != rules[i] && Applies(ext, c, ctx, m, now) ensures Before(rules[i], c) {
        var j :| 0 <= j < |rules| && rules[j] == c;
      }
    }
  }

  ghost predicate IsOutcome(out: (Buckets, Result, bool), w: Compiled, ctx: Context, m: Buckets, now: int)
    requires KindsMatch(m)
  {
    (out.0, out.1) == ApplyAction(w.act, ctx, w.rule.id, m, now) && out.2 == !out.1.verdict.Allowed?
  }

  /**
   Evaluation after a reload: if a stored, compilable rule applies, the outcome is that of the
   unique best-ranked one; if none does, the request is allowed and no bucket changes.
   */
  lemma EvaluatePicksTheBestRule(ext: External, rows: seq<Rule>, ctx: Context, m: Buckets, now: int)
    requires DistinctIDs(rows) && KindsMatch(m)
    ensures var rules := Load(ext, rows);
      var out := EvaluateStep(ext, rules, ctx, m, now);
      if forall r, c :: r in rows && Compile(ext, r) == Some(c) ==> !Applies(ext, c, ctx, m, now)
      then out == (m, NoMatch(), false)
      else exists w :: IsWinner(ext, rules, ctx, m, now, w) && w.rule in rows && IsOutcome(out, w, ctx, m, now)
  {
    var rules := Load(ext, rows);
    LoadFacts(ext, rows);
    FirstMatchWins(ext, rules, ctx, m, now);
    var i := FirstMatch(ext, rules, ctx, m, now);
    if i < |rules| {
      assert rules[i] in rules;
      assert Compile(ext, rules[i].rule) == Some(rules[i]);
    } else {
      forall r, c | r in rows && Compile(ext, r) == Some(c) ensures !Applies(ext, c, ctx, m, now) {
        assert c.rule == r && c in rules;
      }
    }
  }

  lemma WinnerIsUnique(ext: External, rules: seq<Compiled>, ctx: Context, m: Buckets, now: int, w: Compiled, v: Compiled)
    requires KindsMatch(m) && IsWinner(ext, rules, ctx, m, now, w) && IsWinner(ext, rules, ctx, m, now, v)
    ensures w == v
  {
  }

  /** A new rule that does not apply, or ranks below the winner, changes nothing. */
  lemma IrrelevantRuleChangesNothing(ext: External, rows: seq<Rule>, extra: Rule, ctx: Context, m: Buckets, now: int)
    requires DistinctIDs(rows + [extra]) && KindsMatch(m)
    requires var c := Compile(ext, extra);
      || c.None?
      || !Applies(ext, c.value, ctx, m, now)
      || exists w :: w in Load(ext, rows) && Applies(ext, w, ctx, m, now) && Before(w, c.value)
    ensures EvaluateStep(ext, Load(ext, rows + [extra]), ctx, m, now) == EvaluateStep(ext, Load(ext, rows), ctx, m, now)
  {
    var before, after := Load(ext, rows), Load(ext, rows + [extra]);
    DistinctPrefix(rows, extra);
    LoadFacts(ext, rows);
    LoadFacts(ext, rows + [extra]);
    forall c | c in before ensures c in after {}
    FirstMatchWins(ext, before, ctx, m, now);
    var i := FirstMatch(ext, before, ctx, m, now);
    if i < |before| {
      var w := before[i];
      assert w in before;
      StillWins(ext, rows, extra, ctx, m, now, w);
      WinnerDecides(ext, before, ctx, m, now, w);
      WinnerDecides(ext, after, ctx, m, now, w);
    } else {
      StillNone(ext, rows, extra, ctx, m, now);
      NoneDecides(ext, before, ctx, m, now);
      NoneDecides(ext, after, ctx, m, now);
    }
  }

  lemma StillNone(ext: External, rows: seq<Rule>, extra: Rule, ctx: Context, m: Buckets, now: int)
    requires DistinctIDs(rows + [extra]) && DistinctIDs(rows) && KindsMatch(m)
    requires forall c :: c in Load(ext, rows) ==> !Applies(ext, c, ctx, m, now)
    requires var c := Compile(ext, extra); c.None? || !Applies(ext, c.value, ctx, m, now)
    ensures forall c :: c in Load(ext, rows + [extra]) ==> !Applies(ext, c, ctx, m, now)
  {
    LoadFacts(ext, rows);
    LoadFacts(ext, rows + [extra]);
    forall c | c in Load(ext, rows + [extra]) ensures !Applies(ext, c, ctx, m, now) {
      assert c.rule in rows + [extra];
    }
  }

  lemma StillWins(ext: External, rows: seq<Rule>, extra: Rule, ctx: Context, m: Buckets, now: int, w: Compiled)
    requires DistinctIDs(rows + [extra]) && DistinctIDs(rows) && KindsMatch(m)
    requires IsWinner(ext, Load(ext, rows), ctx, m, now, w)
    requires var c := Compile(ext, extra);
      || c.None?
      || !Applies(ext, c.value, ctx, m, now)
      || exists v :: v in Load(ext, rows) && Applies(ext, v, ctx, m, now) && Before(v, c.value)
    ensures IsWinner(ext, Load(ext, rows + [extra]), ctx, m, now, w)
  {
    LoadFacts(ext, rows);
    LoadFacts(ext, rows + [extra]);
    var after := Load(ext, rows + [extra]);
    assert w.rule in rows + [extra];
    forall c | c in after && c != w && Applies(ext, c, ctx, m, now) ensures Before(w, c) {
      if c.rule !in rows {
        LosesToOld(ext, rows, extra, ctx, m, now, w, c);
      }
    }
  }

  lemma LosesToOld(ext: External, rows: seq<Rule>, extra: Rule, ctx: Context, m: Buckets, now: int, w: Compiled, c: Compiled)
    requires KindsMatch(m) && IsWinner(ext, Load(ext, rows), ctx, m, now, w)
    requires Compile(ext, extra) == Some(c) && Applies(ext, c, ctx, m, now)
    requires exists v :: v in Load(ext, rows) && Applies(ext, v, ctx, m, now) && Before(v, c)
    ensures Before(w, c)
  {
    var v :| v in Load(ext, rows) && Applies(ext, v, ctx, m, now) && Before(v, c);
    assert v == w || Before(w, v);
  }

  lemma WinnerDecides(ext: External, rules: seq<Compiled>, ctx: Context, m: Buckets, now: int, w: Compiled)
    requires KindsMatch(m) && SortedRules(rules) && IsWinner(ext, rules, ctx, m, now, w)
    ensures IsOutcome(EvaluateStep(ext, rules, ctx, m, now), w, ctx, m, now)
  {
    FirstMatchWins(ext, rules, ctx, m, now);
    var i := FirstMatch(ext, rules, ctx, m, now);
    var k :| 0 <= k < |rules| && rules[k] == w;
    assert i < |rules|;
    WinnerIsUnique(ext, rules, ctx, m, now, w, rules[i]);
  }

  lemma NoneDecides(ext: External, rules: seq<Compiled>, ctx: Context, m: Buckets, now: int)
    requires KindsMatch(m) && forall c :: c in rules ==> !Applies(ext, c, ctx, m, now)
    ensures EvaluateStep(ext, rules, ctx, m, now) == (m, NoMatch(), false)
  {
    var i := FirstMatch(ext, rules, ctx, m, now);
    assert i < |rules| ==> rules[i] in rules;
  }

  lemma DistinctPrefix(rows: seq<Rule>, extra: Rule)
    requires DistinctIDs(rows + [extra])
    ensures DistinctIDs(rows)
  {
    forall i, j | 0 <= i < j < |rows| ensures rows[i].id != rows[j].id {
      assert (rows + [extra])[i] == rows[i] && (rows + [extra])[j] == rows[j];
    }
  }

  // ---- What an evaluation touches ----

  /** The buckets of one rule: any scope and agent. */
  ghost predicate KeyOfRule(k: string, id: int) {
    exists scope: string, agent: string :: IsKeyFor(k, scope, agent, id)
  }

  predicate IsKeyFor(k: string, scope: string, agent: string, id: int) {
    k == ReqKey(scope, agent, id) || k == CostKey(scope, agent, id) || k == TokKey(scope, agent, id)
  }

  predicate SameAt(m: Buckets, m': Buckets, k: string) {
    (k in m <==> k in m') && (k in m ==> m[k] == m'[k])
  }

  lemma RequestStageTouches(act: Action, ctx: Context, id: int, m: Buckets, now: int, k: string)
    requires KindsMatch(m) && act.RateLimit?
    ensures k != ReqKey(ScopeOr(act.scope), ctx.agentID, id) ==> SameAt(m, RequestStage(act, ctx, id, m, now).0, k)
  {
  }

  lemma CostStageTouches(act: Action, ctx: Context, id: int, m: Buckets, now: int, k: string)
    requires act.RateLimit?
    ensures k != CostKey(ScopeOr(act.scope), ctx.agentID, id) ==> SameAt(m, CostStage(act, ctx, id, m, now).0, k)
  {
  }

  lemma TokenStageTouches(act: Action, ctx: Context, id: int, m: Buckets, now: int, k: string)
    requires act.RateLimit?
    ensures k != TokKey(ScopeOr(act.scope), ctx.agentID, id) ==> SameAt(m, TokenStage(act, ctx, id, m, now).0, k)
  {
  }

  lemma ApplyTouchesOwnKeys(act: Action, ctx: Context, id: int, m: Buckets, now: int, k: string)
    requires KindsMatch(m)
    requires act.RateLimit? ==> !IsKeyFor(k, ScopeOr(act.scope), ctx.agentID, id)
    ensures SameAt(m, ApplyAction(act, ctx, id, m, now).0, k)
  {
    if act.RateLimit? {
      RequestStageTouches(act, ctx, id, m, now, k);
      var m1 := RequestStage(act, ctx, id, m, now).0;
      CostStageTouches(act, ctx, id, m1, now, k);
      TokenStageTouches(act, ctx, id, CostStage(act, ctx, id, m1, now).0, now, k);
    }
  }

  /** An evaluation changes no bucket of any rule but the chosen one. */
  lemma EvaluateTouchesOneRule(ext: External, rows: seq<Rule>, ctx: Context, m: Buckets, now: int, k: string, id: int)
    requires KindsMatch(m) && KeyOfRule(k, id)
    ensures var out := EvaluateStep(ext, Load(ext, rows), ctx, m, now);
      !SameAt(m, out.0, k) ==> out.1.ruleID == Some(id)
  {
    var rules := Load(ext, rows);
    var i := FirstMatch(ext, rules, ctx, m, now);
    if i < |rules| {
      var w := rules[i];
      if w.act.RateLimit? && IsKeyFor(k, ScopeOr(w.act.scope), ctx.agentID, w.rule.id) {
        var s, a :| IsKeyFor(k, s, a, id);
        SameKeySameRule(k, s, a, id, ScopeOr(w.act.scope), ctx.agentID, w.rule.id);
        OutcomeNamesRule(w.act, ctx, w.rule.id, m, now);
      } else {
        ApplyTouchesOwnKeys(w.act, ctx, w.rule.id, m, now, k);
      }
    }
  }

  lemma OutcomeNamesRule(act: Action, ctx: Context, id: int, m: Buckets, now: int)
    requires KindsMatch(m)
    ensures ApplyAction(act, ctx, id, m, now).1.ruleID == Some(id)
  {
  }

  lemma SameKeySameRule(k: string, s1: string, a1: string, r1: int, s2: string, a2: string, r2: int)
    requires IsKeyFor(k, s1, a1, r1) && IsKeyFor(k, s2, a2, r2)
    ensures r1 == r2
  {
    KindsAreDisjoint(s1, a1, r1);
    KindsAreDisjoint(s2, a2, r2);
    KeysFixTheRule(s1, a1, r1, s2, a2, r2);
  }

  // ---- What a rate-limit rule charges ----

  predicate LimitsRequests(act: Action) { act.RateLimit? && act.maxReq > 0 && act.windowSec > 0 }
  predicate LimitsCost(act: Action) { act.RateLimit? && act.maxCost > 0.0 }
  predicate LimitsTokens(act: Action) { act.RateLimit? && act.maxTokDay > 0 }

  /** The tokens that the agent's request bucket holds at `now`, a new bucket if it has none. */
  function Balance(m: Buckets, act: Action, ctx: Context, id: int, now: int): int
    requires KindsMatch(m) && LimitsRequests(act)
  {
    var key := ReqKey(ScopeOr(act.scope), ctx.agentID, id);
    Refilled(GetRequest(m, key, act.maxReq, act.windowSec, now), now).tokens
  }

  /** What has been charged to the agent's quota bucket in the period of `now`. */
  function ChargedSoFar(m: Buckets, key: string, quota: real, now: int): real {
    RolledOver(GetQuota(m, key, quota, DAY_SEC, now), now).used
  }

  function CostSoFar(m: Buckets, act: Action, ctx: Context, id: int, now: int): real
    requires act.RateLimit?
  {
    ChargedSoFar(m, CostKey(ScopeOr(act.scope), ctx.agentID, id), act.maxCost, now)
  }

  function TokensSoFar(m: Buckets, act: Action, ctx: Context, id: int, now: int): real
    requires act.RateLimit?
  {
    ChargedSoFar(m, TokKey(ScopeOr(act.scope), ctx.agentID, id), act.maxTokDay as real, now)
  }

  /** The quota of a bucket is that of its creation, which an edit of the rule does not change. */
  function QuotaOf(m: Buckets, key: string, quota: real, now: int): real { GetQuota(m, key, quota, DAY_SEC, now).quota }

  predicate RequestsPass(m: Buckets, act: Action, ctx: Context, id: int, now: int)
    requires KindsMatch(m) && act.RateLimit?
  {
    LimitsRequests(act) ==> Balance(m, act, ctx, id, now) > 0
  }

  predicate CostPasses(m: Buckets, act: Action, ctx: Context, id: int, now: int)
    requires act.RateLimit?
  {
    LimitsCost(act) ==>
      CostSoFar(m, act, ctx, id, now) + ctx.cost <= QuotaOf(m, CostKey(ScopeOr(act.scope), ctx.agentID, id), act.maxCost, now)
  }

  predicate TokensPass(m: Buckets, act: Action, ctx: Context, id: int, now: int)
    requires act.RateLimit?
  {
    LimitsTokens(act) ==>
      TokensSoFar(m, act, ctx, id, now) + ctx.inputTokens as real
      <= QuotaOf(m, TokKey(ScopeOr(act.scope), ctx.agentID, id), act.maxTokDay as real, now)
  }

  lemma RequestStagePays(act: Action, ctx: Context, id: int, m: Buckets, now: int)
    requires KindsMatch(m) && act.RateLimit?
    ensures var (m1, ok) := RequestStage(act, ctx, id, m, now);
      && (ok <==> RequestsPass(m, act, ctx, id, now))
      && (LimitsRequests(act) ==> Balance(m1, act, ctx, id, now) == Balance(m, act, ctx, id, now) - (if ok then 1 else 0))
  {
    if LimitsRequests(act) {
      RefilledOnce(GetRequest(m, ReqKey(ScopeOr(act.scope), ctx.agentID, id), act.maxReq, act.windowSec, now), now);
    }
  }

  /** Refilling twice at one instant is refilling once, also after a token was taken. */
  lemma RefilledOnce(b: Bucket, now: int)
    requires b.windowSec > 0
    ensures var c := Refilled(b, now);
      Refilled(c, now).tokens == c.tokens && Refilled(c.(tokens := c.tokens - 1), now).tokens == c.tokens - 1
  {
    var c := Refilled(b, now);
    if Refill(b, now) > 0 {
      assert (now - c.lastRefill) * c.maxTokens == 0;
    } else {
      assert Refill(c.(tokens := c.tokens - 1), now) == Refill(b, now);
    }
  }

  /** Quota periods do not run backwards: every quota bucket was created with a whole day's. */
  predicate PeriodsForward(m: Buckets) { forall k :: k in m && IsQuotaKey(k) ==> m[k].periodSec >= 0 }

  lemma QuotaStagePays(m: Buckets, key: string, amount: real, quota: real, now: int)
    requires key in m ==> m[key].periodSec >= 0
    ensures var (m', ok) := QuotaStep(m, key, amount, quota, DAY_SEC, now);
      && (ok <==> ChargedSoFar(m, key, quota, now) + amount <= QuotaOf(m, key, quota, now))
      && ChargedSoFar(m', key, quota, now) == ChargedSoFar(m, key, quota, now) + (if ok then amount else 0.0)
  {
  }

  /** The accounts of one kind see only their own stage. */
  lemma SameAccounts(act: Action, ctx: Context, id: int, m: Buckets, m': Buckets, now: int)
    requires KindsMatch(m) && KindsMatch(m') && act.RateLimit?
    ensures LimitsRequests(act) && SameAt(m, m', ReqKey(ScopeOr(act.scope), ctx.agentID, id)) ==>
      Balance(m, act, ctx, id, now) == Balance(m', act, ctx, id, now)
    ensures SameAt(m, m', CostKey(ScopeOr(act.scope), ctx.agentID, id)) ==>
      CostSoFar(m, act, ctx, id, now) == CostSoFar(m', act, ctx, id, now) && CostPasses(m, act, ctx, id, now) == CostPasses(m', act, ctx, id, now)
    ensures SameAt(m, m', TokKey(ScopeOr(act.scope), ctx.agentID, id)) ==>
      TokensSoFar(m, act, ctx, id, now) == TokensSoFar(m', act, ctx, id, now) && TokensPass(m, act, ctx, id, now) == TokensPass(m', act, ctx, id, now)
  {
  }

  /** The three stages leave each other's buckets alone. */
  lemma StagesApart(act: Action, ctx: Context, id: int, m: Buckets, now: int)
    requires KindsMatch(m) && act.RateLimit?
    ensures var s := ScopeOr(act.scope);
      var m1 := RequestStage(act, ctx, id, m, now).0;
      var m2 := CostStage(act, ctx, id, m1, now).0;
      var m3 := TokenStage(act, ctx, id, m2, now).0;
      && KindsMatch(m2) && KindsMatch(m3)
      && SameAt(m, m1, CostKey(s, ctx.agentID, id)) && SameAt(m2, m3, CostKey(s, ctx.agentID, id))
      && SameAt(m, m1, TokKey(s, ctx.agentID, id)) && SameAt(m1, m2, TokKey(s, ctx.agentID, id))
      && SameAt(m1, m2, ReqKey(s, ctx.agentID, id)) && SameAt(m2, m3, ReqKey(s, ctx.agentID, id))
  {
    var s := ScopeOr(act.scope);
    KindsAreDisjoint(s, ctx.agentID, id);
    var m1 := RequestStage(act, ctx, id, m, now).0;
    var m2 := CostStage(act, ctx, id, m1, now).0;
    forall k | k in {ReqKey(s, ctx.agentID, id), CostKey(s, ctx.agentID, id), TokKey(s, ctx.agentID, id)}
      ensures k != ReqKey(s, ctx.agentID, id) ==> SameAt(m, m1, k)
      ensures k != CostKey(s, ctx.agentID, id) ==> SameAt(m1, m2, k)
      ensures k != TokKey(s, ctx.agentID, id) ==> SameAt(m2, TokenStage(act, ctx, id, m2, now).0, k)
    {
      RequestStageTouches(act, ctx, id, m, now, k);
      CostStageTouches(act, ctx, id, m1, now, k);
      TokenStageTouches(act, ctx, id, m2, now, k);
    }
  }

  lemma OwnPeriods(act: Action, ctx: Context, id: int, m: Buckets, m1: Buckets, m2: Buckets)
    requires act.RateLimit? && PeriodsForward(m)
    requires var s := ScopeOr(act.scope); SameAt(m, m1, CostKey(s, ctx.agentID, id)) && SameAt(m, m1, TokKey(s, ctx.agentID, id))
    requires SameAt(m1, m2, TokKey(ScopeOr(act.scope), ctx.agentID, id))
    ensures var k := CostKey(ScopeOr(act.scope), ctx.agentID, id); k in m1 ==> m1[k].periodSec >= 0
    ensures var k := TokKey(ScopeOr(act.scope), ctx.agentID, id); k in m2 ==> m2[k].periodSec >= 0
  {
    KindsAreDisjoint(ScopeOr(act.scope), ctx.agentID, id);
  }

  lemma RequestStageKeepsPeriods(act: Action, ctx: Context, id: int, m: Buckets, now: int)
    requires KindsMatch(m) && PeriodsForward(m) && act.RateLimit?
    ensures PeriodsForward(RequestStage(act, ctx, id, m, now).0)
  {
    KindsAreDisjoint(ScopeOr(act.scope), ctx.agentID, id);
  }

  lemma CostStageKeepsPeriods(act: Action, ctx: Context, id: int, m: Buckets, now: int)
    requires PeriodsForward(m) && act.RateLimit?
    ensures PeriodsForward(CostStage(act, ctx, id, m, now).0)
  {
    KindsAreDisjoint(ScopeOr(act.scope), ctx.agentID, id);
  }

  lemma TokenStageKeepsPeriods(act: Action, ctx: Context, id: int, m: Buckets, now: int)
    requires PeriodsForward(m) && act.RateLimit?
    ensures PeriodsForward(TokenStage(act, ctx, id, m, now).0)
  {
    KindsAreDisjoint(ScopeOr(act.scope), ctx.agentID, id);
  }

  /** No evaluation and no cleanup makes a period run backwards, so in no run from an empty limiter does one. */
  lemma PeriodsStayForward(act: Action, ctx: Context, id: int, m: Buckets, now: int)
    requires KindsMatch(m) && PeriodsForward(m)
    ensures PeriodsForward(ApplyAction(act, ctx, id, m, now).0) && PeriodsForward(CleanupStep(m, now)) && PeriodsForward(map[])
  {
    if act.RateLimit? {
      RequestStageKeepsPeriods(act, ctx, id, m, now);
      var m1 := RequestStage(act, ctx, id, m, now).0;
      CostStageKeepsPeriods(act, ctx, id, m1, now);
      TokenStageKeepsPeriods(act, ctx, id, CostStage(act, ctx, id, m1, now).0, now);
    }
  }

  /**
   A request is allowed exactly if all three budgets have room for it, and every stage it passes is paid
   for, whatever the later ones say: one refused for its cost has spent a request token, one refused for
   its tokens has spent a request token and its cost.
   */
  lemma EveryPassedStageIsPaid(act: Action, ctx: Context, id: int, m: Buckets, now: int)
    requires KindsMatch(m) && PeriodsForward(m) && act.RateLimit?
    ensures var (m', r) := ApplyLimit(act, ctx, id, m, now);
      var ok1, ok2, ok3 := RequestsPass(m, act, ctx, id, now), CostPasses(m, act, ctx, id, now), TokensPass(m, act, ctx, id, now);
      && KindsMatch(m')
      && (r.verdict.Allowed? <==> ok1 && ok2 && ok3)
      && (LimitsRequests(act) ==> Balance(m', act, ctx, id, now) == Balance(m, act, ctx, id, now) - (if ok1 then 1 else 0))
      && (LimitsCost(act) ==>
            CostSoFar(m', act, ctx, id, now) == CostSoFar(m, act, ctx, id, now) + (if ok1 && ok2 then ctx.cost else 0.0))
      && (LimitsTokens(act) ==>
            TokensSoFar(m', act, ctx, id, now) == TokensSoFar(m, act, ctx, id, now) + (if ok1 && ok2 && ok3 then ctx.inputTokens as real else 0.0))
  {
    var s := ScopeOr(act.scope);
    var m1 := RequestStage(act, ctx, id, m, now).0;
    var m2 := CostStage(act, ctx, id, m1, now).0;
    var m3 := TokenStage(act, ctx, id, m2, now).0;
    StagesApart(act, ctx, id, m, now);
    OwnPeriods(act, ctx, id, m, m1, m2);
    RequestStagePays(act, ctx, id, m, now);
    QuotaStagePays(m1, CostKey(s, ctx.agentID, id), ctx.cost, act.maxCost, now);
    QuotaStagePays(m2, TokKey(s, ctx.agentID, id), ctx.inputTokens as real, act.maxTokDay as real, now);
    SameAccounts(act, ctx, id, m, m1, now);
    SameAccounts(act, ctx, id, m1, m2, now);
    SameAccounts(act, ctx, id, m2, m3, now);
  }

  /**
   Stages charge in order and are never rolled back: a bucket that a passed stage has charged is left as
   that stage made it, one token or the whole amount poorer, also when a later stage refuses.
   */
  lemma RefusedRequestsStillPay(act: Action, ctx: Context, id: int, m: Buckets, now: int)
    requires KindsMatch(m) && act.RateLimit?
    ensures var (m', r) := ApplyLimit(act, ctx, id, m, now);
      var (m1, ok1) := RequestStage(act, ctx, id, m, now);
      var (m2, ok2) := CostStage(act, ctx, id, m1, now);
      var (m3, ok3) := TokenStage(act, ctx, id, m2, now);
      var reqKey, costKey := ReqKey(ScopeOr(act.scope), ctx.agentID, id), CostKey(ScopeOr(act.scope), ctx.agentID, id);
      && (r.verdict.Allowed? <==> ok1 && ok2 && ok3)
      && (ok1 ==> forall k :: IsReqKey(k) ==> SameAt(m', m1, k))
      && (ok1 && ok2 ==> forall k :: "cost:" <= k ==> SameAt(m', m2, k))
      && (ok1 && LimitsRequests(act) ==>
            reqKey in m' && m'[reqKey].tokens == Refilled(GetRequest(m, reqKey, act.maxReq, act.windowSec, now), now).tokens - 1)
      && (ok1 && ok2 && LimitsCost(act) ==>
            costKey in m' && m'[costKey].used == RolledOver(GetQuota(m, costKey, act.maxCost, DAY_SEC, now), now).used + ctx.cost)
  {
    var s := ScopeOr(act.scope);
    KindsAreDisjoint(s, ctx.agentID, id);
    var m1 := RequestStage(act, ctx, id, m, now).0;
    var m2 := CostStage(act, ctx, id, m1, now).0;
    StagesApart(act, ctx, id, m, now);
    forall k | IsReqKey(k) ensures SameAt(m1, m2, k) && SameAt(m2, TokenStage(act, ctx, id, m2, now).0, k) {
      CostStageTouches(act, ctx, id, m1, now, k);
      TokenStageTouches(act, ctx, id, m2, now, k);
    }
    forall k | "cost:" <= k ensures SameAt(TokenStage(act, ctx, id, m2, now).0, m2, k) {
      assert k[0] == 'c' && TokKey(s, ctx.agentID, id)[0] == 't';
      TokenStageTouches(act, ctx, id, m2, now, k);
    }
  }

  /** None of the accounts that the action limits has changed. */
  predicate ChargedNothing(act: Action, ctx: Context, id: int, m: Buckets, m': Buckets, now: int)
    requires KindsMatch(m) && KindsMatch(m') && act.RateLimit?
  {
    && (LimitsRequests(act) ==> Balance(m', act, ctx, id, now) == Balance(m, act, ctx, id, now))
    && (LimitsCost(act) ==> CostSoFar(m', act, ctx, id, now) == CostSoFar(m, act, ctx, id, now))
    && (LimitsTokens(act) ==> TokensSoFar(m', act, ctx, id, now) == TokensSoFar(m, act, ctx, id, now))
  }

  /**
   A refused request is charged nothing exactly when the first stage configured refuses it, or the cost
   stage is the only one before the refusal and the request costs nothing.
   */
  lemma RefusedForFreeIff(act: Action, ctx: Context, id: int, m: Buckets, now: int)
    requires KindsMatch(m) && PeriodsForward(m) && act.RateLimit? && !ApplyLimit(act, ctx, id, m, now).1.verdict.Allowed?
    ensures KindsMatch(ApplyLimit(act, ctx, id, m, now).0)
    ensures ChargedNothing(act, ctx, id, m, ApplyLimit(act, ctx, id, m, now).0, now) <==>
      || !RequestsPass(m, act, ctx, id, now)
      || (!LimitsRequests(act) && (!LimitsCost(act) || !CostPasses(m, act, ctx, id, now) || ctx.cost == 0.0))
  {
    EveryPassedStageIsPaid(act, ctx, id, m, now);
  }
}
