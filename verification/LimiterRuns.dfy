/**
 Whole runs of the rate limiter: any sequence of requests, charges, peeks and cleanup ticks, each a whole
 operation with one clock reading, with a clock that never goes back, every key keeping its own limits
 throughout the run. LimiterRegions breaks the operations up into their lock regions.
 */
module LimiterRuns {
  import opened BucketKeys
  import opened RateLimiter

  type Positive = x: int | x > 0 witness 1
  type NonNegative = x: real | x >= 0.0

  /** The limits a key is always used with. */
  datatype Limits = Limits(maxReq: Positive, windowSec: Positive, quota: NonNegative, periodSec: Positive)
  type Config = string -> Limits

  /**
   Request and Charge find or create their bucket and consume from it. Create does the first half alone
   and Evict removes one stale bucket: what LimiterRegions needs to take whole operations apart.
   */
  datatype Op =
    | Request(key: string)
    | Charge(key: string, amount: NonNegative)
    | Peek(key: string)
    | Create(key: string)
    | Evict(key: string)
    | Cleanup

  datatype Event = Event(now: int, op: Op)

  predicate OpOk(op: Op) {
    match op
    case Request(k) => IsReqKey(k)
    case Peek(k) => IsReqKey(k)
    case Charge(k, _) => IsQuotaKey(k)
    case _ => true
  }

  /** Operations on the right kind of key, with clock readings from t0 on that never decrease. */
  predicate RunOk(evs: seq<Event>, t0: int) {
    evs != [] ==> OpOk(evs[0].op) && t0 <= evs[0].now && RunOk(evs[1..], evs[0].now)
  }

  // ---- What every reachable state satisfies ----

  predicate BucketOk(l: Limits, key: string, b: Bucket, now: int) {
    if IsReqKey(key) then
      b == Bucket(l.windowSec, l.maxReq, b.tokens, b.lastRefill, 0.0, 0.0, 0, 0)
      && 0 <= b.tokens <= b.maxTokens && b.lastRefill <= now
    else
      b == Bucket(0, 0, 0, 0, l.quota, b.used, b.resetAt, l.periodSec)
      && 0.0 <= b.used <= b.quota && b.resetAt <= now + b.periodSec * SECOND
  }

  ghost predicate Inv(cfg: Config, m: Buckets, now: int) {
    forall k :: k in m ==> BucketOk(cfg(k), k, m[k], now)
  }

  function NewBucket(l: Limits, key: string, now: int): Bucket {
    if IsReqKey(key) then NewRequestBucket(l.maxReq, l.windowSec, now) else NewQuotaBucket(l.quota, l.periodSec, now)
  }

  function Step(cfg: Config, m: Buckets, e: Event): (Buckets, bool)
    requires KindsMatch(m) && OpOk(e.op)
  {
    match e.op
    case Request(k) => RequestStep(m, k, cfg(k).maxReq, cfg(k).windowSec, e.now)
    case Charge(k, a) => QuotaStep(m, k, a, cfg(k).quota, cfg(k).periodSec, e.now)
    case Peek(k) => (m, PeekStep(m, k, e.now))
    case Create(k) => (if k in m then m else m[k := NewBucket(cfg(k), k, e.now)], true)
    case Evict(k) => (if k in m && Stale(m[k], e.now) then m - {k} else m, true)
    case Cleanup => (CleanupStep(m, e.now), true)
  }

  lemma WindowPositive(l: Limits)
    ensures l.windowSec * SECOND > 0 && l.periodSec * SECOND > 0
  {
  }

  lemma QuotaKeysAreNotRequestKeys(k: string)
    requires IsQuotaKey(k)
    ensures !IsReqKey(k)
  {
    assert k[0] != 'r';
  }

  lemma ConsumeKeepsBucket(l: Limits, key: string, b: Bucket, t0: int, now: int)
    requires IsReqKey(key) && BucketOk(l, key, b, t0) && t0 <= now
    ensures BucketOk(l, key, ConsumeOne(b, now).0, now)
  {
  }

  lemma ChargeKeepsBucket(l: Limits, key: string, b: Bucket, t0: int, now: int, amount: NonNegative)
    requires !IsReqKey(key) && BucketOk(l, key, b, t0) && t0 <= now
    ensures BucketOk(l, key, ConsumeQuota(b, now, amount).0, now)
  {
    WindowPositive(l);
  }

  lemma NewBucketsOk(l: Limits, key: string, now: int)
    ensures IsReqKey(key) ==> BucketOk(l, key, NewRequestBucket(l.maxReq, l.windowSec, now), now)
    ensures !IsReqKey(key) ==> BucketOk(l, key, NewQuotaBucket(l.quota, l.periodSec, now), now)
  {
  }

  lemma BucketOkLater(l: Limits, key: string, b: Bucket, t: int, t': int)
    requires BucketOk(l, key, b, t) && t <= t'
    ensures BucketOk(l, key, b, t')
  {
  }

  /** `used` never passes the quota, tokens stay between 0 and the limit: kept by every step. */
  lemma StepKeepsInv(cfg: Config, m: Buckets, e: Event, t0: int)
    requires Inv(cfg, m, t0) && OpOk(e.op) && t0 <= e.now
    ensures KindsMatch(m)
    ensures Inv(cfg, Step(cfg, m, e).0, e.now)
  {
    InvLater(cfg, m, t0, e.now);
    if e.op.Request? || e.op.Charge? || e.op.Create? {
      var k := e.op.key;
      NewBucketsOk(cfg(k), k, e.now);
      if e.op.Request? {
        ConsumeKeepsBucket(cfg(k), k, GetRequest(m, k, cfg(k).maxReq, cfg(k).windowSec, e.now), e.now, e.now);
      } else if e.op.Charge? {
        QuotaKeysAreNotRequestKeys(k);
        ChargeKeepsBucket(cfg(k), k, GetQuota(m, k, cfg(k).quota, cfg(k).periodSec, e.now), e.now, e.now, e.op.amount);
      }
    }
  }

  lemma InvLater(cfg: Config, m: Buckets, t: int, t': int)
    requires Inv(cfg, m, t) && t <= t'
    ensures Inv(cfg, m, t')
  {
    forall k | k in m ensures BucketOk(cfg(k), k, m[k], t') {
      BucketOkLater(cfg(k), k, m[k], t, t');
    }
  }

  /** The state after a run. */
  ghost function Exec(cfg: Config, m: Buckets, evs: seq<Event>, t0: int): (r: Buckets)
    requires Inv(cfg, m, t0) && RunOk(evs, t0)
    ensures evs == [] ==> r == m
    decreases |evs|
  {
    if evs == [] then m
    else
      StepKeepsInv(cfg, m, evs[0], t0);
      Exec(cfg, Step(cfg, m, evs[0]).0, evs[1..], evs[0].now)
  }

  ghost function LastTime(evs: seq<Event>, t0: int): int {
    if evs == [] then t0 else evs[|evs| - 1].now
  }

  lemma {:induction false} ExecKeepsInv(cfg: Config, m: Buckets, evs: seq<Event>, t0: int)
    requires Inv(cfg, m, t0) && RunOk(evs, t0)
    ensures t0 <= LastTime(evs, t0)
    ensures Inv(cfg, Exec(cfg, m, evs, t0), LastTime(evs, t0))
    decreases |evs|
  {
    if evs != [] {
      StepKeepsInv(cfg, m, evs[0], t0);
      ExecKeepsInv(cfg, Step(cfg, m, evs[0]).0, evs[1..], evs[0].now);
    }
  }

  lemma {:induction false} SplitRun(evs: seq<Event>, t0: int, i: nat)
    requires RunOk(evs, t0) && i <= |evs|
    ensures RunOk(evs[..i], t0) && RunOk(evs[i..], LastTime(evs[..i], t0))
    decreases |evs|
  {
    if i > 0 {
      SplitRun(evs[1..], evs[0].now, i - 1);
      assert evs[..i][1..] == evs[1..][..i - 1];
      assert evs[i..] == evs[1..][i - 1..];
    } else {
      assert evs[0..] == evs;
    }
  }

  // ---- Requests admitted in an interval ----

  /** How many requests on `key` the run admits. */
  ghost function Admitted(cfg: Config, m: Buckets, evs: seq<Event>, t0: int, key: string): nat
    requires Inv(cfg, m, t0) && RunOk(evs, t0)
    decreases |evs|
  {
    if evs == [] then 0
    else
      StepKeepsInv(cfg, m, evs[0], t0);
      var (m', ok) := Step(cfg, m, evs[0]);
      (if evs[0].op == Request(key) && ok then 1 else 0) + Admitted(cfg, m', evs[1..], evs[0].now, key)
  }

  /**
   What the key can still spend at time t, in units of 1/(windowSec * SECOND) of a token: the
   tokens in the bucket and the fraction earned since the last refill. An absent bucket is full.
   */
  ghost function Credit(cfg: Config, m: Buckets, key: string, t: int): int {
    var w := cfg(key).windowSec * SECOND;
    if key in m then w * m[key].tokens + (t - m[key].lastRefill) * cfg(key).maxReq
    else w * cfg(key).maxReq
  }

  lemma DivBounds(a: int, b: int)
    requires a >= 0 && b > 0
    ensures 0 <= a / b && (a / b) * b <= a < (a / b + 1) * b
  {
  }

  lemma MulLe(a: int, b: int, c: int)
    requires a <= b && c >= 0
    ensures a * c <= b * c
  {
  }

  /** A refill never creates credit, and leaves less than one token of fraction behind. */
  lemma RefillCredit(b: Bucket, now: int)
    requires b.windowSec > 0 && b.maxTokens > 0 && 0 <= b.tokens <= b.maxTokens && b.lastRefill <= now
    ensures var w := b.windowSec * SECOND; var c := Refilled(b, now);
      && w > 0 && 0 <= c.tokens <= c.maxTokens && c.lastRefill <= now
      && w * c.tokens + (now - c.lastRefill) * b.maxTokens <= w * b.tokens + (now - b.lastRefill) * b.maxTokens
      && w * c.tokens + (now - c.lastRefill) * b.maxTokens < w * (b.maxTokens + 1)
  {
    var w := b.windowSec * SECOND;
    var earned := (now - b.lastRefill) * b.maxTokens;
    MulLe(0, now - b.lastRefill, b.maxTokens);
    DivBounds(earned, w);
    var refill := earned / w;
    assert refill == Refill(b, now);
    var c := Refilled(b, now);
    if refill > 0 {
      MulLe(c.tokens, b.tokens + refill, w);
      assert (b.tokens + refill) * w == b.tokens * w + refill * w;
      MulLe(c.tokens, b.maxTokens, w);
      assert w * (b.maxTokens + 1) == w * b.maxTokens + w;
    } else {
      MulLe(b.tokens, b.maxTokens, w);
      assert w * (b.maxTokens + 1) == w * b.maxTokens + w;
      assert earned < 1 * w;
    }
  }

  /** A stale request bucket has more credit than a fresh one, so dropping it creates none. */
  lemma StaleCredit(b: Bucket, now: int)
    requires b.windowSec > 0 && b.maxTokens > 0 && 0 <= b.tokens && Stale(b, now)
    ensures var w := b.windowSec * SECOND;
      w * b.maxTokens <= w * b.tokens + (now - b.lastRefill) * b.maxTokens
  {
    var w := b.windowSec * SECOND;
    MulLe(w, now - b.lastRefill, b.maxTokens);
    MulLe(0, b.tokens, w);
  }

  /** A request pays for its token out of the bucket's credit. */
  lemma RequestCredit(b: Bucket, now: int)
    requires b.windowSec > 0 && b.maxTokens > 0 && 0 <= b.tokens <= b.maxTokens && b.lastRefill <= now
    ensures var w := b.windowSec * SECOND;
      var (c, ok) := ConsumeOne(b, now);
      var left := w * c.tokens + (now - c.lastRefill) * b.maxTokens + if ok then w else 0;
      left <= w * b.tokens + (now - b.lastRefill) * b.maxTokens && left < w * (b.maxTokens + 1)
  {
    RefillCredit(b, now);
    var w := b.windowSec * SECOND;
    var c := Refilled(b, now);
    assert w * (c.tokens - 1) == w * c.tokens - w;
  }

  /** The clock increases the credit by the rate, or not at all. */
  lemma CreditLater(cfg: Config, m: Buckets, key: string, t: int, t': int)
    requires t <= t'
    ensures Credit(cfg, m, key, t') <= Credit(cfg, m, key, t) + (t' - t) * cfg(key).maxReq
  {
    MulLe(0, t' - t, cfg(key).maxReq);
    if key in m {
      assert (t' - m[key].lastRefill) * cfg(key).maxReq == (t - m[key].lastRefill) * cfg(key).maxReq + (t' - t) * cfg(key).maxReq;
    }
  }

  lemma RequestStepCredit(cfg: Config, m: Buckets, now: int, key: string)
    requires Inv(cfg, m, now) && IsReqKey(key) && KindsMatch(m)
    ensures var l := cfg(key); var w := l.windowSec * SECOND;
      var (m', ok) := RequestStep(m, key, l.maxReq, l.windowSec, now); var spent := if ok then w else 0;
      && Credit(cfg, m', key, now) + spent <= Credit(cfg, m, key, now)
      && Credit(cfg, m', key, now) + spent < w * (l.maxReq + 1)
  {
    var l := cfg(key);
    if key in m {
      assert BucketOk(l, key, m[key], now);
    }
    RequestCredit(GetRequest(m, key, l.maxReq, l.windowSec, now), now);
  }

  lemma OtherStepCredit(cfg: Config, m: Buckets, e: Event, key: string)
    requires Inv(cfg, m, e.now) && OpOk(e.op) && IsReqKey(key) && KindsMatch(m) && e.op != Request(key)
    ensures Credit(cfg, Step(cfg, m, e).0, key, e.now) <= Credit(cfg, m, key, e.now)
  {
    if key in m {
      assert BucketOk(cfg(key), key, m[key], e.now);
    }
    if (e.op.Cleanup? || e.op == Evict(key)) && key in m && Stale(m[key], e.now) {
      StaleCredit(m[key], e.now);
    } else if e.op.Charge? {
      QuotaKeysAreNotRequestKeys(e.op.key);
    }
  }

  /** One step pays for what it admits out of the credit, which only the clock increases. */
  lemma StepCredit(cfg: Config, m: Buckets, e: Event, t0: int, key: string)
    requires Inv(cfg, m, t0) && OpOk(e.op) && t0 <= e.now && IsReqKey(key)
    ensures KindsMatch(m)
    ensures var w := cfg(key).windowSec * SECOND;
      var (m', ok) := Step(cfg, m, e);
      var spent := if e.op == Request(key) && ok then w else 0;
      && Credit(cfg, m', key, e.now) + spent <= Credit(cfg, m, key, t0) + (e.now - t0) * cfg(key).maxReq
      && (e.op == Request(key) ==> Credit(cfg, m', key, e.now) + spent < w * (cfg(key).maxReq + 1))
  {
    StepKeepsInv(cfg, m, e, t0);
    InvLater(cfg, m, t0, e.now);
    CreditLater(cfg, m, key, t0, e.now);
    if e.op == Request(key) {
      RequestStepCredit(cfg, m, e.now, key);
    } else {
      OtherStepCredit(cfg, m, e, key);
    }
  }

  /** The credit and what it gains in the span pay for n requests. */
  ghost predicate Covers(l: Limits, credit: int, span: int, n: nat) {
    l.windowSec * SECOND * n <= credit + span * l.maxReq
  }

  /** The credit c0 and what it gains in the span pay for the request, if there is one, and leave c1. */
  ghost predicate Leaves(l: Limits, c0: int, span: int, hit: bool, c1: int) {
    c1 + (if hit then l.windowSec * SECOND else 0) <= c0 + span * l.maxReq
  }

  lemma PayStep(l: Limits, c0: int, span: int, hit: bool, c1: int, rest: int, n: nat)
    requires Leaves(l, c0, span, hit, c1) && Covers(l, c1, rest, n)
    ensures Covers(l, c0, span + rest, (if hit then 1 else 0) + n)
  {
    assert l.windowSec * SECOND * (1 + n) == l.windowSec * SECOND + l.windowSec * SECOND * n;
    assert (span + rest) * l.maxReq == span * l.maxReq + rest * l.maxReq;
  }

  lemma CoversNothing(l: Limits, credit: int)
    requires credit >= 0
    ensures Covers(l, credit, 0, 0)
  {
  }

  lemma StepLeaves(cfg: Config, m: Buckets, e: Event, t0: int, key: string)
    requires Inv(cfg, m, t0) && OpOk(e.op) && t0 <= e.now && IsReqKey(key)
    ensures KindsMatch(m)
    ensures var (m', ok) := Step(cfg, m, e);
      Leaves(cfg(key), Credit(cfg, m, key, t0), e.now - t0, e.op == Request(key) && ok, Credit(cfg, m', key, e.now))
  {
    StepCredit(cfg, m, e, t0, key);
  }

  lemma PayFirst(w: int, rest: int, hit: bool, c1: int, bound: int, extra: int)
    requires w * rest <= c1 + extra
    requires c1 + (if hit then w else 0) < bound
    ensures w * ((if hit then 1 else 0) + rest) < bound + extra
  {
    assert w * (1 + rest) == w + w * rest;
  }

  lemma NonNegativeCredit(cfg: Config, m: Buckets, t: int, key: string)
    requires Inv(cfg, m, t) && IsReqKey(key)
    ensures Credit(cfg, m, key, t) >= 0
  {
    var l := cfg(key);
    if key in m {
      assert BucketOk(l, key, m[key], t);
      MulLe(0, t - m[key].lastRefill, l.maxReq);
      MulLe(0, m[key].tokens, l.windowSec * SECOND);
    }
  }

  lemma {:induction false} FirstEvent(cfg: Config, m: Buckets, evs: seq<Event>, t0: int, key: string)
    requires Inv(cfg, m, t0) && RunOk(evs, t0) && evs != []
    ensures OpOk(evs[0].op) && t0 <= evs[0].now && KindsMatch(m)
    ensures LastTime(evs[1..], evs[0].now) == LastTime(evs, t0)
    ensures var (m', ok) := Step(cfg, m, evs[0]);
      && Inv(cfg, m', evs[0].now) && RunOk(evs[1..], evs[0].now)
      && Admitted(cfg, m, evs, t0, key)
         == (if evs[0].op == Request(key) && ok then 1 else 0) + Admitted(cfg, m', evs[1..], evs[0].now, key)
  {
    StepKeepsInv(cfg, m, evs[0], t0);
  }

  lemma {:induction false} SpendCredit(cfg: Config, m: Buckets, evs: seq<Event>, t0: int, key: string)
    requires Inv(cfg, m, t0) && RunOk(evs, t0) && IsReqKey(key)
    ensures Covers(cfg(key), Credit(cfg, m, key, t0), LastTime(evs, t0) - t0, Admitted(cfg, m, evs, t0, key))
    decreases |evs|
  {
    if evs == [] {
      NonNegativeCredit(cfg, m, t0, key);
      CoversNothing(cfg(key), Credit(cfg, m, key, t0));
    } else {
      var e := evs[0];
      FirstEvent(cfg, m, evs, t0, key);
      StepLeaves(cfg, m, e, t0, key);
      var (m', ok) := Step(cfg, m, e);
      SpendCredit(cfg, m', evs[1..], e.now, key);
      PayStep(cfg(key), Credit(cfg, m, key, t0), e.now - t0, e.op == Request(key) && ok, Credit(cfg, m', key, e.now),
              LastTime(evs, t0) - e.now, Admitted(cfg, m', evs[1..], e.now, key));
    }
  }

  /** What a stretch of a run that starts with a request may admit, and so any stretch. */
  ghost predicate FewAdmitted(l: Limits, n: nat, span: int) {
    l.windowSec * SECOND * n < l.windowSec * SECOND * (l.maxReq + 1) + span * l.maxReq
  }

  lemma NoneAdmitted(l: Limits)
    ensures FewAdmitted(l, 0, 0)
  {
    MulLe(1, l.maxReq + 1, l.windowSec * SECOND);
  }

  lemma LongerSpan(l: Limits, n: nat, span: int, longer: int)
    requires FewAdmitted(l, n, span) && span <= longer
    ensures FewAdmitted(l, n, longer)
  {
    MulLe(span, longer, l.maxReq);
  }

  /** The first request of the stretch leaves at most one token's worth of fraction above the limit. */
  lemma {:induction false} RequestFirst(cfg: Config, m: Buckets, evs: seq<Event>, t0: int, key: string)
    requires Inv(cfg, m, t0) && RunOk(evs, t0) && IsReqKey(key) && evs != [] && evs[0].op == Request(key)
    ensures FewAdmitted(cfg(key), Admitted(cfg, m, evs, t0, key), LastTime(evs, t0) - evs[0].now)
  {
    var l := cfg(key);
    var w := l.windowSec * SECOND;
    var e := evs[0];
    StepKeepsInv(cfg, m, e, t0);
    var (m', ok) := Step(cfg, m, e);
    StepCredit(cfg, m, e, t0, key);
    SpendCredit(cfg, m', evs[1..], e.now, key);
    PayFirst(w, Admitted(cfg, m', evs[1..], e.now, key), ok, Credit(cfg, m', key, e.now),
             w * (l.maxReq + 1), (LastTime(evs, t0) - e.now) * l.maxReq);
  }

  lemma {:induction false} IntervalCredit(cfg: Config, m: Buckets, evs: seq<Event>, t0: int, key: string)
    requires Inv(cfg, m, t0) && RunOk(evs, t0) && IsReqKey(key) && evs != []
    ensures FewAdmitted(cfg(key), Admitted(cfg, m, evs, t0, key), LastTime(evs, t0) - evs[0].now)
    decreases |evs|
  {
    var e := evs[0];
    if e.op == Request(key) {
      RequestFirst(cfg, m, evs, t0, key);
    } else {
      StepKeepsInv(cfg, m, e, t0);
      var m' := Step(cfg, m, e).0;
      if |evs| == 1 {
        NoneAdmitted(cfg(key));
      } else {
        IntervalCredit(cfg, m', evs[1..], e.now, key);
        LongerSpan(cfg(key), Admitted(cfg, m', evs[1..], e.now, key), LastTime(evs, t0) - evs[1].now, LastTime(evs, t0) - e.now);
      }
    }
  }

  function CeilDiv(a: int, b: int): int
    requires b > 0
  {
    (a + b - 1) / b
  }

  lemma StrictlyBelow(w: int, n: int, bound: int, extra: int)
    requires w > 0 && extra >= 0 && w * n < w * (bound + 1) + extra
    ensures n <= bound + CeilDiv(extra, w)
  {
    var c := CeilDiv(extra, w);
    DivBounds(extra + w - 1, w);
    assert extra <= c * w;
    assert w * n < w * (bound + 1 + c) by {
      assert w * (bound + 1 + c) == w * (bound + 1) + w * c;
    }
    assert n < bound + 1 + c by {
      if n >= bound + 1 + c { MulLe(bound + 1 + c, n, w); assert false; }
    }
  }

  /** n requests within a stretch of `span` nanoseconds are no more than the limit and a whole refill allow. */
  predicate WithinBound(l: Limits, n: int, span: int) {
    var w := l.windowSec * SECOND;
    w > 0 && n <= l.maxReq + CeilDiv(span * l.maxReq, w) && (span <= w ==> n <= 2 * l.maxReq)
  }

  lemma CeilGrows(a: int, b: int, w: int)
    requires a <= b && w > 0 && 0 <= a
    ensures CeilDiv(a, w) <= CeilDiv(b, w)
  {
    var c, d := CeilDiv(a, w), CeilDiv(b, w);
    DivBounds(a + w - 1, w);
    DivBounds(b + w - 1, w);
    assert (d + 1) * w == d * w + w;
    if c > d {
      MulLe(d + 1, c, w);
      assert false;
    }
  }

  lemma WithinLongerSpan(l: Limits, n: int, span: int, longer: int)
    requires WithinBound(l, n, span) && 0 <= span <= longer
    ensures WithinBound(l, n, longer)
  {
    MulLe(0, span, l.maxReq);
    MulLe(span, longer, l.maxReq);
    CeilGrows(span * l.maxReq, longer * l.maxReq, l.windowSec * SECOND);
  }

  lemma NoneWithinBound(l: Limits)
    ensures WithinBound(l, 0, 0)
  {
    WindowPositive(l);
    DivBounds(l.windowSec * SECOND - 1, l.windowSec * SECOND);
  }

  /** The bound for a stretch that starts in any reachable state. */
  lemma {:induction false} IntervalBound(cfg: Config, m: Buckets, evs: seq<Event>, t0: int, key: string)
    requires Inv(cfg, m, t0) && RunOk(evs, t0) && IsReqKey(key) && evs != []
    ensures 0 <= LastTime(evs, t0) - evs[0].now
    ensures WithinBound(cfg(key), Admitted(cfg, m, evs, t0, key), LastTime(evs, t0) - evs[0].now)
  {
    var l := cfg(key);
    var w := l.windowSec * SECOND;
    var d := LastTime(evs, t0) - evs[0].now;
    IntervalCredit(cfg, m, evs, t0, key);
    TimesAscend(evs, t0);
    MulLe(0, d, l.maxReq);
    StrictlyBelow(w, Admitted(cfg, m, evs, t0, key), l.maxReq, d * l.maxReq);
    if d <= w {
      MulLe(d, w, l.maxReq);
      CeilAtMost(d * l.maxReq, w, l.maxReq);
    }
  }

  /**
   In every run from an empty limiter, cleanup between operations included, any stretch of the run that
   lasts D nanoseconds admits at most maxReq + ceil(D * maxReq / window) requests of one key; a stretch
   no longer than the window admits at most twice the limit.
   */
  lemma {:induction false} AdmittedInAnyInterval(cfg: Config, evs: seq<Event>, t0: int, i: nat, j: nat, key: string)
    requires RunOk(evs, t0) && i < j <= |evs| && IsReqKey(key)
    ensures RunOk(evs[..i], t0) && RunOk(evs[i..j], LastTime(evs[..i], t0))
    ensures var before := Exec(cfg, map[], evs[..i], t0);
      var t1 := LastTime(evs[..i], t0);
      var n := (ExecKeepsInv(cfg, map[], evs[..i], t0); Admitted(cfg, before, evs[i..j], t1, key));
      WithinBound(cfg(key), n, evs[j - 1].now - evs[i].now)
  {
    SplitRun(evs, t0, i);
    var t1 := LastTime(evs[..i], t0);
    SplitRun(evs[i..], t1, j - i);
    assert evs[i..][..j - i] == evs[i..j];
    ExecKeepsInv(cfg, map[], evs[..i], t0);
    assert LastTime(evs[i..j], t1) == evs[j - 1].now && evs[i..j][0] == evs[i];
    IntervalBound(cfg, Exec(cfg, map[], evs[..i], t0), evs[i..j], t1, key);
  }

  lemma CeilAtMost(a: int, b: int, q: int)
    requires 0 <= a <= b * q && b > 0
    ensures CeilDiv(a, b) <= q
  {
    var c := CeilDiv(a, b);
    DivBounds(a + b - 1, b);
    assert (q + 1) * b == q * b + b;
    if c > q {
      MulLe(q + 1, c, b);
      assert false;
    }
  }

  lemma {:induction false} TimesAscend(evs: seq<Event>, t0: int)
    requires RunOk(evs, t0) && evs != []
    ensures evs[0].now <= evs[|evs| - 1].now
    decreases |evs|
  {
    if |evs| > 1 {
      TimesAscend(evs[1..], evs[0].now);
    }
  }
}
