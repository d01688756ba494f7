/**
 What the limiter has to grant (rules/ratelimiter.go): how many requests a refill lets through, which
 charges fit a quota, and which buckets the cleaner keeps. The other bounds say what it may not grant.
 */
module LimiterService {
  import opened BucketKeys
  import opened RateLimiter
  import opened LimiterRuns
  import Regions = LimiterRegions
  import Moves = LimiterInterleaving

  // ---- Refills ----

  lemma FloorOfSum(w: int, whole: int, part: int)
    requires w > 0
    ensures (w * whole + part) / w == whole + part / w
  {
    var q := part / w;
    assert w * whole + part == w * (whole + q) + part % w by {
      assert part == w * q + part % w;
      assert w * (whole + q) == w * whole + w * q;
    }
    QuotientIs(w * whole + part, w, whole + q);
  }

  lemma QuotientIs(a: int, w: int, q: int)
    requires w > 0 && w * q <= a < w * q + w
    ensures a / w == q
  {
    assert a == w * (a / w) + a % w;
    NoMultipleBetween(w, q, a / w, a % w);
  }

  lemma NoMultipleBetween(w: int, q: int, r: int, rest: int)
    requires w > 0 && 0 <= rest < w && w * q <= w * r + rest < w * q + w
    ensures r == q
  {
    assert w * (r + 1) == w * r + w && w * (q + 1) == w * q + w;
    Cancels(q, r + 1, w);
    Cancels(r, q + 1, w);
  }

  lemma Cancels(x: int, y: int, w: int)
    requires w > 0 && w * x < w * y
    ensures x < y
  {
    if x >= y {
      MulLe(y, x, w);
    }
  }

  /** The whole tokens that balance and elapsed time are worth at `now`, in the bucket's fields, up to the limit. */
  function Worth(b: Bucket, now: int): int
    requires b.windowSec > 0
  {
    var w := b.windowSec * 1_000_000_000;
    var worth := (w * b.tokens + (now - b.lastRefill) * b.maxTokens) / w;
    if worth < b.maxTokens then worth else b.maxTokens
  }

  predicate Sound(b: Bucket, now: int) {
    b.windowSec > 0 && b.maxTokens > 0 && 0 <= b.tokens <= b.maxTokens && b.lastRefill <= now
  }

  lemma WorthIsRefilled(b: Bucket, now: int)
    requires Sound(b, now)
    ensures Refill(b, now) >= 0 && Worth(b, now) == Min(b.tokens + Refill(b, now), b.maxTokens)
    ensures Refill(b, now) * (b.windowSec * SECOND) <= (now - b.lastRefill) * b.maxTokens
    ensures (now - b.lastRefill) * b.maxTokens < Refill(b, now) * (b.windowSec * SECOND) + b.windowSec * SECOND
  {
    var w := b.windowSec * SECOND;
    var earned := (now - b.lastRefill) * b.maxTokens;
    MulLe(0, now - b.lastRefill, b.maxTokens);
    DivBounds(earned, w);
    FloorOfSum(w, b.tokens, earned);
    assert Refill(b, now) == earned / w;
    assert (earned / w + 1) * w == earned / w * w + w;
  }

  /**
   A refill gives back every whole token earned, up to the limit; below the limit it loses less than one
   token's worth of credit.
   */
  lemma RefillGivesAll(b: Bucket, now: int)
    requires Sound(b, now)
    ensures var c := Refilled(b, now); var w := b.windowSec * 1_000_000_000;
      && c.tokens == Worth(b, now)
      && (c.tokens < b.maxTokens ==>
            w * b.tokens + (now - b.lastRefill) * b.maxTokens < w * c.tokens + (now - c.lastRefill) * b.maxTokens + w)
  {
    WorthIsRefilled(b, now);
    var w, refill := b.windowSec * SECOND, Refill(b, now);
    assert w * (b.tokens + refill) == w * b.tokens + refill * w;
  }

  /** Right after a refill the bucket is worth its balance, also with some of it taken. */
  lemma NothingToRefill(b: Bucket, taken: nat, now: int)
    requires Sound(b, now) && taken <= Refilled(b, now).tokens
    ensures var c := Refilled(b, now); var d := c.(tokens := c.tokens - taken); Sound(d, now) && Worth(d, now) == d.tokens
  {
    WorthIsRefilled(b, now);
    var c := Refilled(b, now);
    var d := c.(tokens := c.tokens - taken);
    if Refill(b, now) > 0 {
      assert (now - d.lastRefill) * d.maxTokens == 0;
    } else {
      assert Refill(d, now) == Refill(b, now);
    }
    WorthIsRefilled(d, now);
  }

  /** A request passes exactly if the bucket is worth one, and takes one. */
  lemma ConsumeTakesOne(b: Bucket, now: int)
    requires Sound(b, now)
    ensures var (c, ok) := ConsumeOne(b, now);
      && (ok <==> Worth(b, now) > 0)
      && c.windowSec == b.windowSec && c.maxTokens == b.maxTokens && Worth(c, now) == Worth(b, now) - (if ok then 1 else 0)
  {
    RefillGivesAll(b, now);
    WorthIsRefilled(b, now);
    NothingToRefill(b, if Worth(b, now) > 0 then 1 else 0, now);
  }

  // ---- Bursts ----

  function Burst(key: string, now: int, n: nat): (evs: seq<Event>)
    ensures |evs| == n
  {
    seq(n, _ => Event(now, Request(key)))
  }

  lemma BurstNext(key: string, now: int, n: nat)
    requires n > 0
    ensures Burst(key, now, n)[0] == Event(now, Request(key)) && Burst(key, now, n)[1..] == Burst(key, now, n - 1)
  {
  }

  /** How many requests the key's bucket is worth at `now`: the whole limit if it has none. */
  ghost function Granted(cfg: Config, m: Buckets, key: string, now: int): int
    requires KindsMatch(m) && IsReqKey(key)
  {
    if key in m then Worth(m[key], now) else cfg(key).maxReq
  }

  lemma RequestTakesOne(cfg: Config, m: Buckets, now: int, key: string)
    requires Inv(cfg, m, now) && IsReqKey(key) && KindsMatch(m)
    ensures var (m', ok) := Step(cfg, m, Event(now, Request(key)));
      && KindsMatch(m') && (ok <==> Granted(cfg, m, key, now) > 0)
      && Granted(cfg, m', key, now) == Granted(cfg, m, key, now) - (if ok then 1 else 0)
  {
    var l := cfg(key);
    var b := GetRequest(m, key, l.maxReq, l.windowSec, now);
    SoundBucket(cfg, m, now, key);
    ConsumeTakesOne(b, now);
    if key !in m {
      NothingToRefill(b, 0, now);
    }
  }

  lemma SoundBucket(cfg: Config, m: Buckets, now: int, key: string)
    requires Inv(cfg, m, now) && IsReqKey(key)
    ensures var l := cfg(key); var b := GetRequest(m, key, l.maxReq, l.windowSec, now);
      Sound(b, now) && b.maxTokens == l.maxReq && b.windowSec == l.windowSec
    ensures KindsMatch(m)
  {
    var l := cfg(key);
    NewBucketsOk(l, key, now);
    if key in m {
      assert BucketOk(l, key, m[key], now);
    }
    forall k | k in m && IsReqKey(k) ensures m[k].windowSec > 0 {
      assert BucketOk(cfg(k), k, m[k], now);
    }
  }

  /** A burst of n requests at one instant gets exactly what the bucket is worth, from any reachable state. */
  lemma {:induction false} BurstAdmits(cfg: Config, m: Buckets, t0: int, now: int, key: string, n: nat)
    requires Inv(cfg, m, t0) && t0 <= now && IsReqKey(key)
    ensures KindsMatch(m) && RunOk(Burst(key, now, n), t0)
    ensures Admitted(cfg, m, Burst(key, now, n), t0, key) == (if n < Granted(cfg, m, key, now) then n else Granted(cfg, m, key, now))
    decreases n
  {
    InvLater(cfg, m, t0, now);
    GrantedIsNoDebt(cfg, m, key, now);
    if n > 0 {
      BurstNext(key, now, n);
      var e := Event(now, Request(key));
      StepKeepsInv(cfg, m, e, t0);
      RequestTakesOne(cfg, m, now, key);
      BurstAdmits(cfg, Step(cfg, m, e).0, now, now, key, n - 1);
    }
  }

  lemma GrantedIsNoDebt(cfg: Config, m: Buckets, key: string, now: int)
    requires Inv(cfg, m, now) && IsReqKey(key)
    ensures KindsMatch(m) && Granted(cfg, m, key, now) >= 0
  {
    SoundBucket(cfg, m, now, key);
    WorthIsRefilled(GetRequest(m, key, cfg(key).maxReq, cfg(key).windowSec, now), now);
  }

  /** Time enough for k tokens lets k more requests through at once than tokens were left, up to the limit. */
  lemma {:induction false} EarnedRequestsPass(cfg: Config, m: Buckets, t0: int, now: int, key: string, k: nat, n: nat)
    requires Inv(cfg, m, t0) && t0 <= now && IsReqKey(key)
    requires (now - t0) * cfg(key).maxReq >= k * (cfg(key).windowSec * SECOND)
    requires n <= cfg(key).maxReq && (key in m ==> n <= m[key].tokens + k)
    ensures RunOk(Burst(key, now, n), t0) && Admitted(cfg, m, Burst(key, now, n), t0, key) == n
  {
    BurstAdmits(cfg, m, t0, now, key, n);
    if key in m {
      var b, w := m[key], cfg(key).windowSec * SECOND;
      assert BucketOk(cfg(key), key, b, t0);
      MulLe(now - t0, now - b.lastRefill, b.maxTokens);
      EarnedAtLeast(b, now, k);
    }
  }

  lemma EarnedAtLeast(b: Bucket, now: int, k: nat)
    requires Sound(b, now) && (now - b.lastRefill) * b.maxTokens >= k * (b.windowSec * SECOND)
    ensures Worth(b, now) >= Min(b.tokens + k, b.maxTokens)
  {
    var w, refill := b.windowSec * SECOND, Refill(b, now);
    WorthIsRefilled(b, now);
    assert w * (refill + 1) == refill * w + w && w * k == k * w;
    Cancels(k, refill + 1, w);
  }

  // ---- Demand over time ----

  /**
   What is owed to a key at time t when `passed` requests passed and `span` went by since some instant:
   the bucket has lost no more tokens than requests passed since it was last full, or its credit is what
   was earned less two tokens for each request, one spent and at most one lost to rounding.
   */
  ghost predicate Owed(cfg: Config, m: Buckets, key: string, t: int, passed: nat, span: int)
    requires IsReqKey(key)
  {
    var l := cfg(key);
    key in m ==> m[key].tokens >= l.maxReq - passed || EarnedBy(l, m[key], t, passed, span)
  }

  ghost predicate EarnedBy(l: Limits, b: Bucket, t: int, passed: nat, span: int) {
    l.windowSec * SECOND * b.tokens + (t - b.lastRefill) * l.maxReq >= span * l.maxReq - 2 * passed * (l.windowSec * SECOND)
  }

  lemma OwedLater(cfg: Config, m: Buckets, key: string, t: int, t': int, passed: nat, span: int)
    requires IsReqKey(key) && Owed(cfg, m, key, t, passed, span) && t <= t'
    ensures Owed(cfg, m, key, t', passed, span + (t' - t))
  {
    if key in m {
      var l, b := cfg(key), m[key];
      assert (t' - b.lastRefill) * l.maxReq == (t - b.lastRefill) * l.maxReq + (t' - t) * l.maxReq;
      assert (span + (t' - t)) * l.maxReq == span * l.maxReq + (t' - t) * l.maxReq;
    }
  }

  lemma OwedAfterRefill(l: Limits, b: Bucket, now: int, passed: nat, span: int)
    requires Sound(b, now) && b.maxTokens == l.maxReq && b.windowSec == l.windowSec
    requires b.tokens >= l.maxReq - passed || EarnedBy(l, b, now, passed, span)
    ensures var (c, ok) := ConsumeOne(b, now); var more := if ok then passed + 1 else passed;
      c.tokens >= l.maxReq - more || EarnedBy(l, c, now, more, span)
  {
    var w := l.windowSec * SECOND;
    RefillGivesAll(b, now);
    WorthIsRefilled(b, now);
    var (c, ok) := ConsumeOne(b, now);
    if ok {
      assert w * c.tokens == w * (c.tokens + 1) - w;
      assert 2 * (passed + 1) * w == 2 * passed * w + 2 * w;
    }
  }

  lemma OwedAfterStep(cfg: Config, m: Buckets, e: Event, key: string, passed: nat, span: int)
    requires Inv(cfg, m, e.now) && OpOk(e.op) && IsReqKey(key) && KindsMatch(m) && Owed(cfg, m, key, e.now, passed, span)
    ensures var (m', ok) := Step(cfg, m, e);
      Owed(cfg, m', key, e.now, if e.op == Request(key) && ok then passed + 1 else passed, span)
  {
    if e.op == Request(key) {
      var l := cfg(key);
      SoundBucket(cfg, m, e.now, key);
      OwedAfterRefill(l, GetRequest(m, key, l.maxReq, l.windowSec, e.now), e.now, passed, span);
    } else if e.op.Charge? {
      QuotaKeysAreNotRequestKeys(e.op.key);
    }
  }

  lemma {:induction false} OwedAfterRun(cfg: Config, m: Buckets, evs: seq<Event>, t0: int, key: string, passed: nat, span: int)
    requires Inv(cfg, m, t0) && RunOk(evs, t0) && IsReqKey(key) && Owed(cfg, m, key, t0, passed, span)
    ensures var t := LastTime(evs, t0);
      Owed(cfg, Exec(cfg, m, evs, t0), key, t, passed + Admitted(cfg, m, evs, t0, key), span + (t - t0))
    decreases |evs|
  {
    if evs != [] {
      var e := evs[0];
      FirstEvent(cfg, m, evs, t0, key);
      InvLater(cfg, m, t0, e.now);
      OwedLater(cfg, m, key, t0, e.now, passed, span);
      OwedAfterStep(cfg, m, e, key, passed, span + (e.now - t0));
      var (m', ok) := Step(cfg, m, e);
      OwedAfterRun(cfg, m', evs[1..], e.now, key, if e.op == Request(key) && ok then passed + 1 else passed, span + (e.now - t0));
    }
  }

  /** a requests are fewer than the limit, and the span earns a token more than twice as many. */
  ghost predicate EarnsTwice(l: Limits, a: nat, span: int) {
    a < l.maxReq && span * l.maxReq >= (2 * a + 1) * (l.windowSec * 1_000_000_000)
  }

  /**
   Half the rate is guaranteed: after any stretch of any run in which a requests of the key passed, fewer
   than the limit, and long enough to earn 2 * a + 1 tokens, the next request passes, whatever else happened.
   */
  lemma {:induction false} HalfTheRateIsGuaranteed(cfg: Config, m: Buckets, evs: seq<Event>, t0: int, now: int, key: string)
    requires Inv(cfg, m, t0) && RunOk(evs, t0) && LastTime(evs, t0) <= now && IsReqKey(key)
    requires EarnsTwice(cfg(key), Admitted(cfg, m, evs, t0, key), now - t0)
    ensures var m' := Exec(cfg, m, evs, t0); KindsMatch(m') && Step(cfg, m', Event(now, Request(key))).1
  {
    var t, m' := LastTime(evs, t0), Exec(cfg, m, evs, t0);
    var a := Admitted(cfg, m, evs, t0, key);
    ExecKeepsInv(cfg, m, evs, t0);
    OwedFromTheStart(cfg, m, key, t0);
    OwedAfterRun(cfg, m, evs, t0, key, 0, 0);
    OwedLater(cfg, m', key, t, now, a, t - t0);
    InvLater(cfg, m', t, now);
    OwedPasses(cfg, m', now, key, a, now - t0);
  }

  lemma OwedPasses(cfg: Config, m: Buckets, now: int, key: string, a: nat, span: int)
    requires Inv(cfg, m, now) && IsReqKey(key) && Owed(cfg, m, key, now, a, span) && EarnsTwice(cfg(key), a, span)
    ensures KindsMatch(m) && Step(cfg, m, Event(now, Request(key))).1
  {
    SoundBucket(cfg, m, now, key);
    RequestTakesOne(cfg, m, now, key);
    if key in m {
      OwedIsGranted(cfg(key), m[key], now, a, span);
    }
  }

  lemma OwedFromTheStart(cfg: Config, m: Buckets, key: string, t: int)
    requires Inv(cfg, m, t) && IsReqKey(key)
    ensures Owed(cfg, m, key, t, 0, 0)
  {
    if key in m {
      assert BucketOk(cfg(key), key, m[key], t);
      MulLe(0, t - m[key].lastRefill, cfg(key).maxReq);
      MulLe(0, m[key].tokens, cfg(key).windowSec * SECOND);
    }
  }

  lemma OwedIsGranted(l: Limits, b: Bucket, now: int, a: nat, span: int)
    requires Sound(b, now) && b.maxTokens == l.maxReq && b.windowSec == l.windowSec && a < l.maxReq
    requires b.tokens >= l.maxReq - a || EarnedBy(l, b, now, a, span)
    requires span * l.maxReq >= (2 * a + 1) * (l.windowSec * SECOND)
    ensures Worth(b, now) > 0
  {
    var w := l.windowSec * SECOND;
    WorthIsRefilled(b, now);
    if b.tokens == 0 {
      assert (2 * a + 1) * w == 2 * a * w + w;
      EarnedAtLeast(b, now, 1);
    }
  }

  lemma {:induction false} LastAtom(cfg: Config, s: Regions.State, mvs: seq<Regions.Move>, t0: int)
    requires Regions.RegionInv(cfg, s, t0) && Moves.Possible(cfg, s, mvs, t0)
    ensures RunOk(Moves.AtomsOf(cfg, s, mvs, t0), t0)
    ensures LastTime(Moves.AtomsOf(cfg, s, mvs, t0), t0) <= Moves.LastMove(mvs, t0)
  {
    Moves.RunRefines(cfg, s, mvs, t0);
    Moves.AtomTimes(cfg, s, mvs, t0);
    var a := Moves.AtomsOf(cfg, s, mvs, t0);
    if a != [] {
      assert a[|a| - 1] in a;
    }
  }

  /** A caller whose bucket is the one its key leads to is told what one request would be told then. */
  lemma LiveRequestIsARequest(cfg: Config, s: Regions.State, mv: Regions.Move, key: string)
    requires Regions.RegionInv(cfg, s, mv.now) && Regions.Enabled(s, mv.act) && mv.act.Use?
    requires s.callers[mv.act.caller].op == Request(key) && Regions.Live(s, s.callers[mv.act.caller])
    ensures IsReqKey(key) && KindsMatch(Regions.Found(s))
    ensures Regions.Told(s, mv) == [Step(cfg, Regions.Found(s), Event(mv.now, Request(key))).1]
  {
    Regions.FoundInv(cfg, s, mv.now);
    Regions.UseRefines(cfg, s, mv);
    assert Regions.CallerOk(s.callers[mv.act.caller], s.heap);
  }

  /** A caller that holds the bucket its key leads to is about to make its request. */
  predicate AboutToAsk(s: Regions.State, mv: Regions.Move, key: string)
    requires Regions.WellFormed(s)
  {
    && Regions.Enabled(s, mv.act) && mv.act.Use? && s.callers[mv.act.caller].op == Request(key)
    && Regions.CallerOk(s.callers[mv.act.caller], s.heap) && Regions.Live(s, s.callers[mv.act.caller])
  }

  lemma {:induction false} HalfTheRateAtLeast(cfg: Config, m: Buckets, evs: seq<Event>, t0: int, now: int, key: string, a: nat)
    requires Inv(cfg, m, t0) && RunOk(evs, t0) && LastTime(evs, t0) <= now && IsReqKey(key)
    requires Admitted(cfg, m, evs, t0, key) <= a && EarnsTwice(cfg(key), a, now - t0)
    ensures var m' := Exec(cfg, m, evs, t0); KindsMatch(m') && Step(cfg, m', Event(now, Request(key))).1
  {
    FewerNeedLess(Admitted(cfg, m, evs, t0, key), a, cfg(key).windowSec * SECOND);
    HalfTheRateIsGuaranteed(cfg, m, evs, t0, now, key);
  }

  /**
   Half the rate is guaranteed under every interleaving, too: from any reachable state, after any moves of
   callers and cleaner in which a requests of the key passed, fewer than the limit, and long enough to earn
   2 * a + 1 tokens, a caller that was not overtaken passes.
   */
  lemma {:induction false} HalfTheRateUnderInterleaving(cfg: Config, s: Regions.State, mvs: seq<Regions.Move>, t0: int, mv: Regions.Move, key: string)
    requires Regions.RegionInv(cfg, s, t0) && Moves.Possible(cfg, s, mvs, t0) && Moves.LastMove(mvs, t0) <= mv.now
    requires AboutToAsk(Moves.Run(cfg, s, mvs, t0), mv, key)
    requires EarnsTwice(cfg(key), Moves.Passed(cfg, s, mvs, t0, key, false), mv.now - t0)
    ensures Regions.Told(Moves.Run(cfg, s, mvs, t0), mv) == [true]
  {
    RegionInvNow(cfg, s, mvs, t0, mv.now);
    AskerIsGranted(cfg, Moves.Run(cfg, s, mvs, t0), mv, key);
    FoundGrantsHalf(cfg, s, mvs, t0, mv.now, key, Moves.Passed(cfg, s, mvs, t0, key, false));
  }

  lemma AskerIsGranted(cfg: Config, q: Regions.State, mv: Regions.Move, key: string)
    requires Regions.RegionInv(cfg, q, mv.now) && AboutToAsk(q, mv, key)
    ensures IsReqKey(key) && KindsMatch(Regions.Found(q))
    ensures Step(cfg, Regions.Found(q), Event(mv.now, Request(key))).1 ==> Regions.Told(q, mv) == [true]
  {
    LiveRequestIsARequest(cfg, q, mv, key);
  }

  lemma {:induction false} FoundGrantsHalf(cfg: Config, s: Regions.State, mvs: seq<Regions.Move>, t0: int, now: int, key: string, a: nat)
    requires Regions.RegionInv(cfg, s, t0) && Moves.Possible(cfg, s, mvs, t0) && Moves.LastMove(mvs, t0) <= now && IsReqKey(key)
    requires a == Moves.Passed(cfg, s, mvs, t0, key, false) && EarnsTwice(cfg(key), a, now - t0)
    ensures var m' := Regions.Found(Moves.Run(cfg, s, mvs, t0)); KindsMatch(m') && Step(cfg, m', Event(now, Request(key))).1
  {
    Moves.PassedSplits(cfg, s, mvs, t0, key);
    Moves.RunRefines(cfg, s, mvs, t0);
    LastAtom(cfg, s, mvs, t0);
    HalfTheRateAtLeast(cfg, Regions.Found(s), Moves.AtomsOf(cfg, s, mvs, t0), t0, now, key, a);
  }

  lemma FewerNeedLess(a: nat, b: nat, w: int)
    requires a <= b && w >= 0
    ensures (2 * a + 1) * w <= (2 * b + 1) * w
  {
    MulLe(2 * a + 1, 2 * b + 1, w);
  }

  lemma {:induction false} RegionInvNow(cfg: Config, s: Regions.State, mvs: seq<Regions.Move>, t0: int, now: int)
    requires Regions.RegionInv(cfg, s, t0) && Moves.Possible(cfg, s, mvs, t0) && Moves.LastMove(mvs, t0) <= now
    ensures Regions.RegionInv(cfg, Moves.Run(cfg, s, mvs, t0), now)
  {
  }

  // ---- Charges ----

  function Charges(key: string, times: seq<int>, amounts: seq<NonNegative>): (evs: seq<Event>)
    requires |times| == |amounts|
    ensures |evs| == |times| && forall i :: 0 <= i < |times| ==> evs[i] == Event(times[i], Charge(key, amounts[i]))
  {
    seq(|times|, i requires 0 <= i < |times| => Event(times[i], Charge(key, amounts[i])))
  }

  function Total(amounts: seq<NonNegative>): real { if amounts == [] then 0.0 else amounts[0] + Total(amounts[1..]) }

  lemma {:induction false} TotalIsNoDebt(amounts: seq<NonNegative>)
    ensures Total(amounts) >= 0.0
  {
    if amounts != [] {
      TotalIsNoDebt(amounts[1..]);
    }
  }

  predicate InOrder(times: seq<int>, t0: int, end: int) {
    times != [] ==> t0 <= times[0] <= end && InOrder(times[1..], times[0], end)
  }

  ghost predicate AllPass(cfg: Config, m: Buckets, evs: seq<Event>, t0: int)
    requires Inv(cfg, m, t0) && RunOk(evs, t0)
    decreases |evs|
  {
    evs != [] ==>
      (StepKeepsInv(cfg, m, evs[0], t0);
       Step(cfg, m, evs[0]).1 && AllPass(cfg, Step(cfg, m, evs[0]).0, evs[1..], evs[0].now))
  }

  lemma {:induction false} ChargesAreARun(key: string, times: seq<int>, amounts: seq<NonNegative>, t0: int, end: int)
    requires |times| == |amounts| && IsQuotaKey(key) && InOrder(times, t0, end)
    ensures RunOk(Charges(key, times, amounts), t0)
    decreases |times|
  {
    if times != [] {
      assert Charges(key, times, amounts)[1..] == Charges(key, times[1..], amounts[1..]);
      ChargesAreARun(key, times[1..], amounts[1..], times[0], end);
    }
  }

  /** Until the period ends, charges all pass exactly if they fit into what is left of the quota. */
  lemma {:induction false} ChargesPassIffTheyFit(cfg: Config, m: Buckets, key: string, times: seq<int>, amounts: seq<NonNegative>, t0: int)
    requires Inv(cfg, m, t0) && IsQuotaKey(key) && |times| == |amounts| && key in m && InOrder(times, t0, m[key].resetAt)
    ensures RunOk(Charges(key, times, amounts), t0)
    ensures AllPass(cfg, m, Charges(key, times, amounts), t0) <==> amounts == [] || m[key].used + Total(amounts) <= cfg(key).quota
    decreases |times|
  {
    ChargesAreARun(key, times, amounts, t0, m[key].resetAt);
    if times != [] {
      var evs := Charges(key, times, amounts);
      assert evs[1..] == Charges(key, times[1..], amounts[1..]);
      QuotaKeysAreNotRequestKeys(key);
      StepKeepsInv(cfg, m, evs[0], t0);
      assert BucketOk(cfg(key), key, m[key], t0);
      TotalIsNoDebt(amounts[1..]);
      var m' := Step(cfg, m, evs[0]).0;
      ChargesPassIffTheyFit(cfg, m', key, times[1..], amounts[1..], times[0]);
    }
  }

  /** A key's first charges, within one period, all pass exactly if they fit the quota. */
  lemma {:induction false} FirstChargesPassIffTheyFit(cfg: Config, m: Buckets, key: string, times: seq<int>, amounts: seq<NonNegative>, t0: int)
    requires Inv(cfg, m, t0) && IsQuotaKey(key) && |times| == |amounts| > 0 && key !in m
    requires InOrder(times, t0, times[0] + cfg(key).periodSec * 1_000_000_000)
    ensures RunOk(Charges(key, times, amounts), t0)
    ensures AllPass(cfg, m, Charges(key, times, amounts), t0) <==> Total(amounts) <= cfg(key).quota
  {
    var l := cfg(key);
    var evs := Charges(key, times, amounts);
    ChargesAreARun(key, times, amounts, t0, times[0] + l.periodSec * SECOND);
    assert evs[1..] == Charges(key, times[1..], amounts[1..]);
    QuotaKeysAreNotRequestKeys(key);
    WindowPositive(l);
    StepKeepsInv(cfg, m, evs[0], t0);
    TotalIsNoDebt(amounts[1..]);
    ChargesPassIffTheyFit(cfg, Step(cfg, m, evs[0]).0, key, times[1..], amounts[1..], times[0]);
  }

  /** After the period has ended, the whole quota is there again, for a period from the first charge on. */
  lemma {:induction false} NewPeriodNewQuota(cfg: Config, m: Buckets, key: string, times: seq<int>, amounts: seq<NonNegative>, t0: int)
    requires Inv(cfg, m, t0) && IsQuotaKey(key) && |times| == |amounts| > 0 && key in m && m[key].resetAt < times[0]
    requires InOrder(times, t0, times[0] + cfg(key).periodSec * 1_000_000_000)
    ensures RunOk(Charges(key, times, amounts), t0)
    ensures AllPass(cfg, m, Charges(key, times, amounts), t0) <==> Total(amounts) <= cfg(key).quota
  {
    var l := cfg(key);
    var evs := Charges(key, times, amounts);
    ChargesAreARun(key, times, amounts, t0, times[0] + l.periodSec * SECOND);
    assert evs[1..] == Charges(key, times[1..], amounts[1..]);
    QuotaKeysAreNotRequestKeys(key);
    WindowPositive(l);
    StepKeepsInv(cfg, m, evs[0], t0);
    assert BucketOk(l, key, m[key], t0);
    TotalIsNoDebt(amounts[1..]);
    ChargesPassIffTheyFit(cfg, Step(cfg, m, evs[0]).0, key, times[1..], amounts[1..], times[0]);
  }

  // ---- What the cleaner keeps ----

  lemma LastRefillIsRecent(b: Bucket, t: int)
    requires Sound(b, t)
    ensures var c := ConsumeOne(b, t).0; c.lastRefill <= t && t - c.lastRefill < c.windowSec * SECOND
  {
    WorthIsRefilled(b, t);
    var w := b.windowSec * SECOND;
    if Refill(b, t) == 0 && t - b.lastRefill >= w {
      MulLe(w, t - b.lastRefill, b.maxTokens);
      MulLe(1, b.maxTokens, w);
    }
  }

  /**
   A request bucket used at t survives every tick until a window later, and no tick more than two windows
   later; nothing but another operation on its key matters.
   */
  lemma UsedBucketsStayAWindow(cfg: Config, m: Buckets, key: string, t: int, tick: int)
    requires Inv(cfg, m, t) && IsReqKey(key) && t <= tick && KindsMatch(m)
    ensures var m' := Step(cfg, m, Event(t, Request(key))).0; var window := cfg(key).windowSec * 1_000_000_000;
      && KindsMatch(m')
      && (tick - t <= window ==> key in Step(cfg, m', Event(tick, Cleanup)).0)
      && (tick - t > 2 * window ==> key !in Step(cfg, m', Event(tick, Cleanup)).0)
  {
    var l := cfg(key);
    SoundBucket(cfg, m, t, key);
    StepKeepsInv(cfg, m, Event(t, Request(key)), t);
    LastRefillIsRecent(GetRequest(m, key, l.maxReq, l.windowSec, t), t);
  }

  /**
   Nothing but another charge to its key ever changes a quota bucket with a charge in it: no tick removes it,
   however long ago its period ended.
   */
  lemma {:induction false} ChargedBucketsStay(cfg: Config, m: Buckets, evs: seq<Event>, t0: int, key: string)
    requires Inv(cfg, m, t0) && RunOk(evs, t0) && IsQuotaKey(key) && key in m && m[key].used > 0.0
    requires forall e :: e in evs && e.op.Charge? ==> e.op.key != key
    ensures key in Exec(cfg, m, evs, t0) && Exec(cfg, m, evs, t0)[key] == m[key]
    decreases |evs|
  {
    if evs != [] {
      StepKeepsInv(cfg, m, evs[0], t0);
      ChargedBucketStays(cfg, m, evs[0], t0, key);
      ChargedBucketsStay(cfg, Step(cfg, m, evs[0]).0, evs[1..], evs[0].now, key);
    }
  }

  lemma ChargedBucketStays(cfg: Config, m: Buckets, e: Event, t0: int, key: string)
    requires Inv(cfg, m, t0) && KindsMatch(m) && OpOk(e.op) && IsQuotaKey(key) && key in m && m[key].used > 0.0
    requires e.op.Charge? ==> e.op.key != key
    ensures var m' := Step(cfg, m, e).0; key in m' && m'[key] == m[key]
  {
    QuotaKeysAreNotRequestKeys(key);
    assert BucketOk(cfg(key), key, m[key], t0);
  }

  /** An accepted charge of any amount is such a charge. */
  lemma AcceptedChargeShows(cfg: Config, m: Buckets, key: string, t: int, amount: NonNegative)
    requires Inv(cfg, m, t) && IsQuotaKey(key) && KindsMatch(m) && amount > 0.0
    requires Step(cfg, m, Event(t, Charge(key, amount))).1
    ensures var m' := Step(cfg, m, Event(t, Charge(key, amount))).0; key in m' && m'[key].used > 0.0
  {
    QuotaKeysAreNotRequestKeys(key);
    if key in m {
      assert BucketOk(cfg(key), key, m[key], t);
    }
  }

  /** One without goes at the first tick after its period. */
  lemma UnchargedBucketsGo(cfg: Config, m: Buckets, key: string, t: int, tick: int)
    requires Inv(cfg, m, t) && IsQuotaKey(key) && KindsMatch(m) && key !in m && t <= tick
    ensures var m' := Step(cfg, m, Event(t, Create(key))).0;
      && KindsMatch(m')
      && (key !in Step(cfg, m', Event(tick, Cleanup)).0 <==> tick > t + cfg(key).periodSec * 1_000_000_000)
  {
    QuotaKeysAreNotRequestKeys(key);
    StepKeepsInv(cfg, m, Event(t, Create(key)), t);
  }
}
