/**
 Token buckets and fixed-period quotas (rules/ratelimiter.go). Time is an integer number of
 nanoseconds; every call reads the clock once and gets the reading as `now`. The pure functions
 give the state change of each operation on a map of bucket values; the two classes update
 their fields in place and are proved to make exactly those changes.
 */
module RateLimiter {
  import opened BucketKeys

  const SECOND: int := 1_000_000_000

  /** The one struct that serves both modes; windowSec > 0 selects request-rate mode. */
  datatype Bucket = Bucket(
    windowSec: int, maxTokens: int, tokens: int, lastRefill: int,
    quota: real, used: real, resetAt: int, periodSec: int)

  type Buckets = map<string, Bucket>

  function Min(a: int, b: int): int { if a < b then a else b }

  /** Go's conversion to int: toward zero. */
  function Truncate(a: int, b: int): int
    requires b > 0
  {
    if a >= 0 then a / b else -((-a) / b)
  }

  function NewRequestBucket(maxRequests: int, windowSec: int, now: int): Bucket {
    Bucket(windowSec, maxRequests, maxRequests, now, 0.0, 0.0, 0, 0)
  }

  function NewQuotaBucket(quota: real, periodSec: int, now: int): Bucket {
    Bucket(0, 0, 0, 0, quota, 0.0, now + periodSec * SECOND, periodSec)
  }

  // ---- One bucket ----

  /** Whole tokens earned since the last refill. */
  function Refill(b: Bucket, now: int): int
    requires b.windowSec > 0
  {
    Truncate((now - b.lastRefill) * b.maxTokens, b.windowSec * SECOND)
  }

  function Refilled(b: Bucket, now: int): Bucket
    requires b.windowSec > 0
  {
    var refill := Refill(b, now);
    if refill > 0 then b.(tokens := Min(b.maxTokens, b.tokens + refill), lastRefill := now) else b
  }

  function ConsumeOne(b: Bucket, now: int): (Bucket, bool)
    requires b.windowSec > 0
  {
    var c := Refilled(b, now);
    if c.tokens <= 0 then (c, false) else (c.(tokens := c.tokens - 1), true)
  }

  function RolledOver(b: Bucket, now: int): Bucket {
    if now > b.resetAt then b.(used := 0.0, resetAt := now + b.periodSec * SECOND) else b
  }

  function ConsumeQuota(b: Bucket, now: int, amount: real): (Bucket, bool) {
    var c := RolledOver(b, now);
    if c.used + amount > c.quota then (c, false) else (c.(used := c.used + amount), true)
  }

  predicate Stale(b: Bucket, now: int) {
    if b.windowSec > 0 then now - b.lastRefill > 2 * b.windowSec * SECOND
    else b.periodSec > 0 && now > b.resetAt && b.used == 0.0
  }

  // ---- The bucket map ----

  /** Request keys hold request buckets: what keeps the refill rate's divisor positive. */
  predicate KindsMatch(m: Buckets) {
    forall k :: k in m && IsReqKey(k) ==> m[k].windowSec > 0
  }

  function GetRequest(m: Buckets, key: string, maxRequests: int, windowSec: int, now: int): Bucket {
    if key in m then m[key] else NewRequestBucket(maxRequests, windowSec, now)
  }

  function GetQuota(m: Buckets, key: string, quota: real, periodSec: int, now: int): Bucket {
    if key in m then m[key] else NewQuotaBucket(quota, periodSec, now)
  }

  function RequestStep(m: Buckets, key: string, maxRequests: int, windowSec: int, now: int): (Buckets, bool)
    requires KindsMatch(m) && IsReqKey(key) && windowSec > 0
  {
    var (c, ok) := ConsumeOne(GetRequest(m, key, maxRequests, windowSec, now), now);
    (m[key := c], ok)
  }

  function QuotaStep(m: Buckets, key: string, amount: real, quota: real, periodSec: int, now: int): (Buckets, bool) {
    var (c, ok) := ConsumeQuota(GetQuota(m, key, quota, periodSec, now), now, amount);
    (m[key := c], ok)
  }

  /** Would the next request be allowed? An absent bucket counts as not yet limited. */
  function PeekStep(m: Buckets, key: string, now: int): bool
    requires KindsMatch(m) && IsReqKey(key)
  {
    key in m ==> Min(m[key].maxTokens, m[key].tokens + Refill(m[key], now)) > 0
  }

  function CleanupStep(m: Buckets, now: int): Buckets {
    map k | k in m && !Stale(m[k], now) :: m[k]
  }

  // ---- The objects ----

  class TokenBucket {
    var windowSec: int
    var maxTokens: int
    var tokens: int
    var lastRefill: int
    var quota: real
    var used: real
    var resetAt: int
    var periodSec: int

    function View(): Bucket
      reads this
    {
      Bucket(windowSec, maxTokens, tokens, lastRefill, quota, used, resetAt, periodSec)
    }

    constructor Request(maxRequests: int, windowSec: int, now: int)
      ensures View() == NewRequestBucket(maxRequests, windowSec, now)
    {
      this.windowSec, maxTokens, tokens, lastRefill := windowSec, maxRequests, maxRequests, now;
      quota, used, resetAt, periodSec := 0.0, 0.0, 0, 0;
    }

    constructor Quota(quota: real, periodSec: int, now: int)
      ensures View() == NewQuotaBucket(quota, periodSec, now)
    {
      windowSec, maxTokens, tokens, lastRefill := 0, 0, 0, 0;
      this.quota, used, resetAt, this.periodSec := quota, 0.0, now + periodSec * SECOND, periodSec;
    }

    method ConsumeOneToken(now: int) returns (ok: bool)
      requires windowSec > 0
      modifies this
      ensures (View(), ok) == ConsumeOne(old(View()), now)
    {
      var refill := Truncate((now - lastRefill) * maxTokens, windowSec * SECOND);
      if refill > 0 {
        tokens := tokens + refill;
        if tokens > maxTokens {
          tokens := maxTokens;
        }
        lastRefill := now;
      }
      if tokens <= 0 {
        return false;
      }
      tokens := tokens - 1;
      return true;
    }

    method ConsumeAmount(now: int, amount: real) returns (ok: bool)
      modifies this
      ensures (View(), ok) == ConsumeQuota(old(View()), now, amount)
    {
      if now > resetAt {
        used := 0.0;
        resetAt := now + periodSec * SECOND;
      }
      if used + amount > quota {
        return false;
      }
      used := used + amount;
      return true;
    }

    method IsStale(now: int) returns (stale: bool)
      ensures stale == Stale(View(), now)
    {
      stale := false;
      if windowSec > 0 {
        stale := now - lastRefill > 2 * windowSec * SECOND;
      } else if periodSec > 0 {
        stale := now > resetAt && used == 0.0;
      }
    }
  }

  class Limiter {
    var buckets: map<string, TokenBucket>

    ghost predicate Valid()
      reads this, buckets.Values
    {
      && (forall k1, k2 :: k1 in buckets && k2 in buckets && k1 != k2 ==> buckets[k1] != buckets[k2])
      && KindsMatch(View())
    }

    ghost function View(): Buckets
      reads this, buckets.Values
    {
      map k | k in buckets :: buckets[k].View()
    }

    constructor ()
      ensures Valid() && View() == map[] && fresh(buckets.Values)
    {
      buckets := map[];
    }

    method GetOrCreateRequest(key: string, maxRequests: int, windowSec: int, now: int) returns (b: TokenBucket)
      requires Valid() && windowSec > 0
      modifies this
      ensures Valid() && fresh(buckets.Values - old(buckets.Values))
      ensures key in buckets && b == buckets[key]
      ensures View() == old(View())[key := GetRequest(old(View()), key, maxRequests, windowSec, now)]
    {
      if key in buckets {
        return buckets[key];
      }
      b := new TokenBucket.Request(maxRequests, windowSec, now);
      buckets := buckets[key := b];
    }

    method GetOrCreateQuota(key: string, quota: real, periodSec: int, now: int) returns (b: TokenBucket)
      requires Valid() && !IsReqKey(key)
      modifies this
      ensures Valid() && fresh(buckets.Values - old(buckets.Values))
      ensures key in buckets && b == buckets[key]
      ensures View() == old(View())[key := GetQuota(old(View()), key, quota, periodSec, now)]
    {
      if key in buckets {
        return buckets[key];
      }
      b := new TokenBucket.Quota(quota, periodSec, now);
      buckets := buckets[key := b];
    }

    /** The second region of a request check: the bucket is used under its own lock. */
    method ConsumeFrom(key: string, b: TokenBucket, now: int) returns (ok: bool)
      requires Valid() && IsReqKey(key) && key in buckets && b == buckets[key] && b.windowSec > 0
      modifies b
      ensures Valid()
      ensures var (c, passed) := ConsumeOne(old(b.View()), now); View() == old(View())[key := c] && ok == passed
    {
      ok := b.ConsumeOneToken(now);
      assert View() == old(View())[key := b.View()];
    }

    method CheckAndConsumeRequest(scope: string, agentID: string, ruleID: int,
                                  maxRequests: int, windowSec: int, now: int) returns (ok: bool)
      requires Valid() && windowSec > 0
      modifies this, buckets.Values
      ensures Valid() && fresh(buckets.Values - old(buckets.Values))
      ensures (View(), ok) == RequestStep(old(View()), ReqKey(scope, agentID, ruleID), maxRequests, windowSec, now)
    {
      var key := ReqKey(scope, agentID, ruleID);
      var b := GetOrCreateRequest(key, maxRequests, windowSec, now);
      label Got:
      assert b.View() == View()[key];
      ok := ConsumeFrom(key, b, now);
      ghost var c := ConsumeOne(old@Got(b.View()), now).0;
      assert old@Got(View())[key := c] == old(View())[key := c];
    }

    method CheckAndConsumeQuota(key: string, amount: real, quota: real, periodSec: int, now: int) returns (ok: bool)
      requires Valid() && !IsReqKey(key)
      modifies this, buckets.Values
      ensures Valid() && fresh(buckets.Values - old(buckets.Values))
      ensures (View(), ok) == QuotaStep(old(View()), key, amount, quota, periodSec, now)
    {
      var b := GetOrCreateQuota(key, quota, periodSec, now);
      label Got:
      assert b.View() == View()[key];
      ok := b.ConsumeAmount(now, amount);
      assert View() == old@Got(View())[key := b.View()];
      assert View() == old(View())[key := b.View()];
    }

    method CheckAndConsumeCost(scope: string, agentID: string, ruleID: int,
                               addCost: real, maxCost: real, periodSec: int, now: int) returns (ok: bool)
      requires Valid()
      modifies this, buckets.Values
      ensures Valid() && fresh(buckets.Values - old(buckets.Values))
      ensures (View(), ok) == QuotaStep(old(View()), CostKey(scope, agentID, ruleID), addCost, maxCost, periodSec, now)
    {
      KindsAreDisjoint(scope, agentID, ruleID);
      ok := CheckAndConsumeQuota(CostKey(scope, agentID, ruleID), addCost, maxCost, periodSec, now);
    }

    method CheckAndConsumeTokens(scope: string, agentID: string, ruleID: int,
                                 addTokens: int, maxTokens: int, periodSec: int, now: int) returns (ok: bool)
      requires Valid()
      modifies this, buckets.Values
      ensures Valid() && fresh(buckets.Values - old(buckets.Values))
      ensures (View(), ok) == QuotaStep(old(View()), TokKey(scope, agentID, ruleID), addTokens as real, maxTokens as real, periodSec, now)
    {
      KindsAreDisjoint(scope, agentID, ruleID);
      ok := CheckAndConsumeQuota(TokKey(scope, agentID, ruleID), addTokens as real, maxTokens as real, periodSec, now);
    }

    method PeekRequest(scope: string, agentID: string, ruleID: int, now: int) returns (allowed: bool)
      requires Valid()
      ensures allowed == PeekStep(View(), ReqKey(scope, agentID, ruleID), now)
    {
      var key := ReqKey(scope, agentID, ruleID);
      if key !in buckets {
        return true;
      }
      var b := buckets[key];
      assert b.View() == View()[key];
      var available := b.tokens + Truncate((now - b.lastRefill) * b.maxTokens, b.windowSec * SECOND);
      if available > b.maxTokens {
        available := b.maxTokens;
      }
      return available > 0;
    }

    /** One tick of the cleanup loop; the keys are visited in any order. */
    method Cleanup(now: int)
      requires Valid()
      modifies this
      ensures Valid() && buckets.Values <= old(buckets.Values)
      ensures View() == CleanupStep(old(View()), now)
    {
      var pending := buckets.Keys;
      while pending != {}
        invariant pending <= buckets.Keys <= old(buckets.Keys)
        invariant forall k :: k in buckets ==> buckets[k] == old(buckets[k])
        invariant forall k :: k in old(buckets) ==>
          (k in buckets <==> k in pending || !Stale(old(buckets[k].View()), now))
        decreases pending
      {
        var key :| key in pending;
        var stale := buckets[key].IsStale(now);
        if stale {
          buckets := buckets - {key};
        }
        pending := pending - {key};
      }
    }
  }
}
