/**
 Keys of the rate limiter's bucket map: "<kind>:<scope>:<agent>:<rule id>" as strings.
 What the rest of the model needs from the format is that the kind and the rule id can
 always be read back, whatever colons the scope and the agent id contain.
 */
module BucketKeys {

  // ---- Decimal rendering of a rule id (the %d verb) ----

  function Digit(n: nat): char
    requires n < 10
  {
    ['0', '1', '2', '3', '4', '5', '6', '7', '8', '9'][n]
  }

  function Decimal(n: nat): (s: string)
    ensures |s| > 0 && ':' !in s && '-' !in s
  {
    if n < 10 then [Digit(n)] else Decimal(n / 10) + [Digit(n % 10)]
  }

  function Itoa(n: int): (s: string)
    ensures |s| > 0 && ':' !in s
  {
    if n < 0 then "-" + Decimal(-n) else Decimal(n)
  }

  lemma {:induction false} DecimalInjective(m: nat, n: nat)
    requires m != n
    ensures Decimal(m) != Decimal(n)
  {
    var s, t := Decimal(m), Decimal(n);
    assert s[|s| - 1] == Digit(m % 10) && t[|t| - 1] == Digit(n % 10);
    if m >= 10 && n >= 10 && m / 10 != n / 10 {
      DecimalInjective(m / 10, n / 10);
      assert s[..|s| - 1] == Decimal(m / 10) && t[..|t| - 1] == Decimal(n / 10);
    }
  }

  lemma SamePrefix(p: string, s: string, t: string)
    requires p + s == p + t
    ensures s == t
  {
    assert (p + s)[|p|..] == s && (p + t)[|p|..] == t;
  }

  lemma {:induction false} ItoaSign(n: int)
    ensures Itoa(n)[0] == '-' <==> n < 0
  {
    if n >= 0 {
      var d := Decimal(n);
      assert d[0] in d;
    }
  }

  lemma {:induction false} ItoaInjective(m: int, n: int)
    requires m != n
    ensures Itoa(m) != Itoa(n)
  {
    if m < 0 && n < 0 {
      DecimalInjective(-m, -n);
      if "-" + Decimal(-m) == "-" + Decimal(-n) {
        SamePrefix("-", Decimal(-m), Decimal(-n));
      }
    } else if m >= 0 && n >= 0 {
      DecimalInjective(m, n);
    } else {
      ItoaSign(m);
      ItoaSign(n);
    }
  }

  // ---- The three key formats ----

  function KeyBody(scope: string, agentID: string, ruleID: int): string {
    scope + ":" + agentID + ":" + Itoa(ruleID)
  }

  function ReqKey(scope: string, agentID: string, ruleID: int): string {
    "req:" + KeyBody(scope, agentID, ruleID)
  }

  function CostKey(scope: string, agentID: string, ruleID: int): string {
    "cost:" + KeyBody(scope, agentID, ruleID)
  }

  function TokKey(scope: string, agentID: string, ruleID: int): string {
    "tok:" + KeyBody(scope, agentID, ruleID)
  }

  predicate IsReqKey(k: string) { "req:" <= k }
  predicate IsQuotaKey(k: string) { "cost:" <= k || "tok:" <= k }

  lemma KindsAreDisjoint(scope: string, agentID: string, ruleID: int)
    ensures IsReqKey(ReqKey(scope, agentID, ruleID)) && !IsQuotaKey(ReqKey(scope, agentID, ruleID))
    ensures IsQuotaKey(CostKey(scope, agentID, ruleID)) && !IsReqKey(CostKey(scope, agentID, ruleID))
    ensures IsQuotaKey(TokKey(scope, agentID, ruleID)) && !IsReqKey(TokKey(scope, agentID, ruleID))
    ensures forall s, a, r :: CostKey(s, a, r) != TokKey(scope, agentID, ruleID)
  {
    assert ReqKey(scope, agentID, ruleID)[0] == 'r';
    assert CostKey(scope, agentID, ruleID)[0] == 'c';
    assert TokKey(scope, agentID, ruleID)[0] == 't';
    forall s, a, r ensures CostKey(s, a, r) != TokKey(scope, agentID, ruleID) {
      assert CostKey(s, a, r)[0] == 'c';
    }
  }

  lemma LastColonMoves(p: string, s: string, q: string, t: string)
    requires |p| < |q| && ':' !in s
    ensures p + ":" + s != q + ":" + t
  {
    var u, v := p + ":" + s, q + ":" + t;
    if |u| == |v| {
      assert v[|q|] == ':';
      assert u[|q|] == s[|q| - |p| - 1];
    }
  }

  /** Splitting a string at its last colon is unique when the tail has none. */
  lemma LastColonSplit(p: string, s: string, q: string, t: string)
    requires p + ":" + s == q + ":" + t
    requires ':' !in s && ':' !in t
    ensures p == q && s == t
  {
    assert |p| == |q| by {
      if |p| < |q| { LastColonMoves(p, s, q, t); }
      if |q| < |p| { LastColonMoves(q, t, p, s); }
    }
    var u, v := p + ":" + s, q + ":" + t;
    assert u[..|p|] == p && v[..|q|] == q;
    assert u[|p| + 1..] == s && v[|q| + 1..] == t;
  }

  lemma KeyBodyFixesRule(s1: string, a1: string, r1: int, s2: string, a2: string, r2: int)
    requires KeyBody(s1, a1, r1) == KeyBody(s2, a2, r2)
    ensures r1 == r2
    ensures s1 + ":" + a1 == s2 + ":" + a2
  {
    var p, q := s1 + ":" + a1, s2 + ":" + a2;
    assert p + ":" + Itoa(r1) == KeyBody(s1, a1, r1);
    assert q + ":" + Itoa(r2) == KeyBody(s2, a2, r2);
    LastColonSplit(p, Itoa(r1), q, Itoa(r2));
    if r1 != r2 {
      ItoaInjective(r1, r2);
    }
  }

  /** The rule id of every key can be read back, so no two rules ever share a bucket. */
  lemma KeysFixTheRule(s1: string, a1: string, r1: int, s2: string, a2: string, r2: int)
    ensures ReqKey(s1, a1, r1) == ReqKey(s2, a2, r2) ==> r1 == r2
    ensures CostKey(s1, a1, r1) == CostKey(s2, a2, r2) ==> r1 == r2
    ensures TokKey(s1, a1, r1) == TokKey(s2, a2, r2) ==> r1 == r2
  {
    var b1, b2 := KeyBody(s1, a1, r1), KeyBody(s2, a2, r2);
    assert ReqKey(s1, a1, r1)[4..] == b1 && ReqKey(s2, a2, r2)[4..] == b2;
    assert CostKey(s1, a1, r1)[5..] == b1 && CostKey(s2, a2, r2)[5..] == b2;
    assert TokKey(s1, a1, r1)[4..] == b1 && TokKey(s2, a2, r2)[4..] == b2;
    if b1 == b2 {
      KeyBodyFixesRule(s1, a1, r1, s2, a2, r2);
    }
  }

  /**
   With one scope, two agents share a rule's bucket only if they are the same agent. For the
   scope "global" this means there is no bucket shared by all agents: the limit stays per agent.
   */
  lemma OneScopeSeparatesAgents(scope: string, a1: string, a2: string, ruleID: int)
    ensures ReqKey(scope, a1, ruleID) == ReqKey(scope, a2, ruleID) <==> a1 == a2
    ensures CostKey(scope, a1, ruleID) == CostKey(scope, a2, ruleID) <==> a1 == a2
    ensures TokKey(scope, a1, ruleID) == TokKey(scope, a2, ruleID) <==> a1 == a2
  {
    var b1, b2 := KeyBody(scope, a1, ruleID), KeyBody(scope, a2, ruleID);
    assert ReqKey(scope, a1, ruleID)[4..] == b1 && ReqKey(scope, a2, ruleID)[4..] == b2;
    assert CostKey(scope, a1, ruleID)[5..] == b1 && CostKey(scope, a2, ruleID)[5..] == b2;
    assert TokKey(scope, a1, ruleID)[4..] == b1 && TokKey(scope, a2, ruleID)[4..] == b2;
    if b1 == b2 {
      KeyBodyFixesRule(scope, a1, ruleID, scope, a2, ruleID);
      assert (scope + ":" + a1)[|scope| + 1..] == a1;
      assert (scope + ":" + a2)[|scope| + 1..] == a2;
    }
  }

  lemma KeyBodiesEqualIff(s1: string, a1: string, r1: int, s2: string, a2: string, r2: int)
    ensures KeyBody(s1, a1, r1) == KeyBody(s2, a2, r2) <==> r1 == r2 && s1 + ":" + a1 == s2 + ":" + a2
  {
    if KeyBody(s1, a1, r1) == KeyBody(s2, a2, r2) {
      KeyBodyFixesRule(s1, a1, r1, s2, a2, r2);
    } else if s1 + ":" + a1 == s2 + ":" + a2 {
      assert KeyBody(s1, a1, r1) == (s1 + ":" + a1) + ":" + Itoa(r1);
      assert KeyBody(s2, a2, r2) == (s2 + ":" + a2) + ":" + Itoa(r2);
    }
  }

  /**
   Two keys of one kind are equal exactly when the rule ids and the joined "scope:agent" strings are. One
   rule has one scope at a time, but its buckets outlive an edit of the scope, and its request_count
   condition peeks under the scope "agent" whatever the action's scope is.
   */
  lemma KeysEqualIff(s1: string, a1: string, r1: int, s2: string, a2: string, r2: int)
    ensures ReqKey(s1, a1, r1) == ReqKey(s2, a2, r2) <==> r1 == r2 && s1 + ":" + a1 == s2 + ":" + a2
    ensures CostKey(s1, a1, r1) == CostKey(s2, a2, r2) <==> r1 == r2 && s1 + ":" + a1 == s2 + ":" + a2
    ensures TokKey(s1, a1, r1) == TokKey(s2, a2, r2) <==> r1 == r2 && s1 + ":" + a1 == s2 + ":" + a2
  {
    var b1, b2 := KeyBody(s1, a1, r1), KeyBody(s2, a2, r2);
    assert ReqKey(s1, a1, r1)[4..] == b1 && ReqKey(s2, a2, r2)[4..] == b2;
    assert CostKey(s1, a1, r1)[5..] == b1 && CostKey(s2, a2, r2)[5..] == b2;
    assert TokKey(s1, a1, r1)[4..] == b1 && TokKey(s2, a2, r2)[4..] == b2;
    KeyBodiesEqualIff(s1, a1, r1, s2, a2, r2);
  }

  /** So some two agents collide under two scopes exactly when one scope and its colon begin the other. */
  lemma ScopesCollideIff(s1: string, s2: string, ruleID: int)
    ensures (exists a1, a2 :: ReqKey(s1, a1, ruleID) == ReqKey(s2, a2, ruleID)) <==> s1 + ":" <= s2 + ":" || s2 + ":" <= s1 + ":"
  {
    if s1 + ":" <= s2 + ":" {
      JoinedUnder(s1, s2, ruleID);
    } else if s2 + ":" <= s1 + ":" {
      JoinedUnder(s2, s1, ruleID);
    } else if a1, a2 :| ReqKey(s1, a1, ruleID) == ReqKey(s2, a2, ruleID) {
      KeysEqualIff(s1, a1, ruleID, s2, a2, ruleID);
      HeadsArePrefixes(s1 + ":", a1, s2 + ":", a2);
    }
  }

  lemma HeadsArePrefixes(p: string, s: string, q: string, t: string)
    requires p + s == q + t
    ensures p <= q || q <= p
  {
    var u := p + s;
    assert p == u[..|p|] && q == (q + t)[..|q|] == u[..|q|];
    if |p| <= |q| {
      assert u[..|q|][..|p|] == u[..|p|];
    } else {
      assert u[..|p|][..|q|] == u[..|q|];
    }
  }

  lemma JoinedUnder(s1: string, s2: string, ruleID: int)
    requires s1 + ":" <= s2 + ":"
    ensures exists a1, a2 :: ReqKey(s1, a1, ruleID) == ReqKey(s2, a2, ruleID)
    ensures exists a1, a2 :: ReqKey(s2, a1, ruleID) == ReqKey(s1, a2, ruleID)
  {
    var a1 := (s2 + ":")[|s1| + 1..];
    assert s1 + ":" + a1 == s2 + ":" + "";
    KeysEqualIff(s1, a1, ruleID, s2, "", ruleID);
    KeysEqualIff(s2, "", ruleID, s1, a1, ruleID);
    assert ReqKey(s1, a1, ruleID) == ReqKey(s2, "", ruleID);
    assert ReqKey(s2, "", ruleID) == ReqKey(s1, a1, ruleID);
  }

  /** Scopes without a colon, as the documented ones are, never collide, whatever the agent ids hold. */
  lemma ColonFreeScopesSeparate(s1: string, a1: string, r1: int, s2: string, a2: string, r2: int)
    requires ':' !in s1 && ':' !in s2
    ensures ReqKey(s1, a1, r1) == ReqKey(s2, a2, r2) <==> r1 == r2 && s1 == s2 && a1 == a2
    ensures CostKey(s1, a1, r1) == CostKey(s2, a2, r2) <==> r1 == r2 && s1 == s2 && a1 == a2
    ensures TokKey(s1, a1, r1) == TokKey(s2, a2, r2) <==> r1 == r2 && s1 == s2 && a1 == a2
  {
    KeysEqualIff(s1, a1, r1, s2, a2, r2);
    if s1 + ":" + a1 == s2 + ":" + a2 {
      FirstColonSplit(s1, a1, s2, a2);
    }
  }

  lemma FirstColonMoves(p: string, s: string, q: string, t: string)
    requires |p| < |q| && ':' !in q
    ensures p + ":" + s != q + ":" + t
  {
    var u, v := p + ":" + s, q + ":" + t;
    assert u[|p|] == ':' && v[|p|] == q[|p|];
  }

  /** Splitting a string at its first colon is unique when the heads have none. */
  lemma FirstColonSplit(p: string, s: string, q: string, t: string)
    requires p + ":" + s == q + ":" + t
    requires ':' !in p && ':' !in q
    ensures p == q && s == t
  {
    var u, v := p + ":" + s, q + ":" + t;
    assert |p| == |q| by {
      if |p| < |q| { FirstColonMoves(p, s, q, t); }
      if |q| < |p| { FirstColonMoves(q, t, p, s); }
    }
    assert u[..|p|] == p && v[..|q|] == q;
    assert u[|p| + 1..] == s && v[|q| + 1..] == t;
  }
}
