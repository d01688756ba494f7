/**
 Facts about runs of whole operations that callers can observe: cleanup never changes an answer as long as a
 new bucket is used at once, a peek foretells the consume, spaced-out requests always pass, and the interval
 bound of LimiterRuns is reached.
 */
module LimiterCleanup {
  import opened BucketKeys
  import opened RateLimiter
  import opened LimiterRuns

  // ---- Cleanup is unobservable ----

  predicate Cleans(op: Op) { op.Cleanup? || op.Evict? }

  /** Callers see an allow or deny, or the answer of a peek. */
  predicate Answers(op: Op) { op.Request? || op.Charge? || op.Peek? }

  /** The run without its cleanup ticks and evictions. */
  function NoCleanup(evs: seq<Event>): seq<Event> {
    if evs == [] then []
    else if Cleans(evs[0].op) then NoCleanup(evs[1..])
    else [evs[0]] + NoCleanup(evs[1..])
  }

  /** The answers callers see, in order. */
  ghost function AnswersOf(cfg: Config, m: Buckets, evs: seq<Event>, t0: int): seq<bool>
    requires Inv(cfg, m, t0) && RunOk(evs, t0)
    decreases |evs|
  {
    if evs == [] then []
    else
      StepKeepsInv(cfg, m, evs[0], t0);
      var (m', ok) := Step(cfg, m, evs[0]);
      (if Answers(evs[0].op) then [ok] else []) + AnswersOf(cfg, m', evs[1..], evs[0].now)
  }

  /**
   A bucket created at c in the place of a stale one and first used at t is left as the stale one would have been
   left: it is used at once, or late enough to be refilled or rolled over itself.
   */
  predicate Harmless(l: Limits, k: string, c: int, t: int) {
    t == c || if IsReqKey(k) then (t - c) * l.maxReq >= l.windowSec * SECOND else t > c + l.periodSec * SECOND
  }

  /** `gone`: keys whose bucket cleanup took away; `pending`: those created anew since and not yet used, and when. */
  datatype Memory = Memory(gone: set<string>, pending: map<string, int>)

  const NOTHING := Memory({}, map[])

  predicate Uses(op: Op) { op.Request? || op.Charge? }

  /** After one more operation that led from m to m'. */
  function Remember(mem: Memory, m: Buckets, e: Event, m': Buckets): Memory {
    match e.op
    case Create(k) => if k in mem.gone then Memory(mem.gone - {k}, mem.pending[k := e.now]) else mem
    case Request(k) => Memory(mem.gone - {k}, mem.pending - {k})
    case Charge(k, _) => Memory(mem.gone - {k}, mem.pending - {k})
    case Peek(_) => mem
    case _ => Memory(mem.gone + (m.Keys - m'.Keys), mem.pending - (m.Keys - m'.Keys))
  }

  predicate HarmlessNow(cfg: Config, mem: Memory, e: Event) {
    Uses(e.op) && e.op.key in mem.pending ==> Harmless(cfg(e.op.key), e.op.key, mem.pending[e.op.key], e.now)
  }

  /** In this run every bucket that replaces one taken away is first used harmlessly. */
  ghost predicate UsedHarmlessly(cfg: Config, m: Buckets, evs: seq<Event>, t0: int, mem: Memory)
    requires Inv(cfg, m, t0) && RunOk(evs, t0)
    decreases |evs|
  {
    evs != [] ==>
      && HarmlessNow(cfg, mem, evs[0])
      && (StepKeepsInv(cfg, m, evs[0], t0);
          var m' := Step(cfg, m, evs[0]).0;
          UsedHarmlessly(cfg, m', evs[1..], evs[0].now, Remember(mem, m, evs[0], m')))
  }

  /** One key with and without cleanup: created anew and not yet used, or the same, or gone after going stale. */
  ghost predicate Alike(l: Limits, k: string, cleaned: Buckets, full: Buckets, t: int, mem: Memory) {
    if k in mem.pending then
      && k in cleaned && k in full && k !in mem.gone && mem.pending[k] <= t
      && cleaned[k] == NewBucket(l, k, mem.pending[k]) && Stale(full[k], mem.pending[k])
    else if k in cleaned then k in full && cleaned[k] == full[k] && k !in mem.gone
    else (k in full <==> k in mem.gone) && (k in full ==> Stale(full[k], t))
  }

  /** `cleaned` is what cleanup made of `full`. */
  ghost predicate MissesOnlyStale(cfg: Config, cleaned: Buckets, full: Buckets, t: int, mem: Memory) {
    forall k :: Alike(cfg(k), k, cleaned, full, t, mem)
  }

  lemma StaysStale(b: Bucket, t: int, t': int)
    requires Stale(b, t) && t <= t'
    ensures Stale(b, t')
  {
  }

  lemma FreshRefillsNothing(l: Limits, now: int)
    ensures l.windowSec * SECOND > 0
    ensures Refill(NewRequestBucket(l.maxReq, l.windowSec, now), now) == 0
    ensures Refilled(NewRequestBucket(l.maxReq, l.windowSec, now), now) == NewRequestBucket(l.maxReq, l.windowSec, now)
  {
    WindowPositive(l);
    assert 0 / (l.windowSec * SECOND) == 0;
  }

  lemma StaleRefillsAll(b: Bucket, now: int)
    requires b.windowSec > 0 && b.maxTokens > 0 && Stale(b, now)
    ensures Refill(b, now) >= b.maxTokens
  {
    var w := b.windowSec * SECOND;
    var earned := (now - b.lastRefill) * b.maxTokens;
    MulLe(w, now - b.lastRefill, b.maxTokens);
    QuotientAtLeast(earned, w, b.maxTokens);
    assert Refill(b, now) == earned / w;
  }

  /** An idle request bucket refills to exactly the state of a new one. */
  lemma StaleRequestIsFresh(l: Limits, key: string, b: Bucket, t: int, now: int)
    requires IsReqKey(key) && BucketOk(l, key, b, t) && t <= now && Stale(b, now)
    ensures Refilled(b, now) == NewRequestBucket(l.maxReq, l.windowSec, now)
    ensures Refilled(NewRequestBucket(l.maxReq, l.windowSec, now), now) == NewRequestBucket(l.maxReq, l.windowSec, now)
    ensures Min(b.maxTokens, b.tokens + Refill(b, now)) == b.maxTokens
  {
    StaleRefillsAll(b, now);
    FreshRefillsNothing(l, now);
  }

  lemma QuotientAtLeast(a: int, w: int, n: int)
    requires w > 0 && n >= 0 && n * w <= a
    ensures a / w >= n
  {
    DivBounds(a, w);
    if a / w + 1 <= n {
      MulLe(a / w + 1, n, w);
      assert false;
    }
  }

  /** A quota bucket past its reset time with nothing used rolls over to the state of a new one. */
  lemma StaleQuotaIsFresh(l: Limits, key: string, b: Bucket, t: int, now: int)
    requires IsQuotaKey(key) && BucketOk(l, key, b, t) && t <= now && Stale(b, now)
    ensures RolledOver(b, now) == NewQuotaBucket(l.quota, l.periodSec, now)
    ensures RolledOver(NewQuotaBucket(l.quota, l.periodSec, now), now) == NewQuotaBucket(l.quota, l.periodSec, now)
  {
    QuotaKeysAreNotRequestKeys(key);
    WindowPositive(l);
  }

  lemma QuotientBelow(a: int, w: int)
    requires w > 0 && 0 <= a < w
    ensures a / w == 0
  {
    DivBounds(a, w);
    if a / w >= 1 {
      MulLe(1, a / w, w);
    }
  }

  /** What a request leaves in a bucket created at c. */
  lemma NewRefills(l: Limits, c: int, t: int)
    requires c <= t
    ensures var b := NewRequestBucket(l.maxReq, l.windowSec, c); var refills := (t - c) * l.maxReq >= l.windowSec * SECOND;
      Refilled(b, t) == if refills then NewRequestBucket(l.maxReq, l.windowSec, t) else b
  {
    WindowPositive(l);
    var earned := (t - c) * l.maxReq;
    MulLe(0, t - c, l.maxReq);
    if earned >= l.windowSec * SECOND {
      QuotientAtLeast(earned, l.windowSec * SECOND, 1);
    } else {
      QuotientBelow(earned, l.windowSec * SECOND);
    }
  }

  /** A request at t tells a bucket created at c from the stale one it replaces, or does not. */
  lemma SameRequestIff(l: Limits, key: string, b: Bucket, c: int, t: int)
    requires IsReqKey(key) && BucketOk(l, key, b, c) && Stale(b, c) && c <= t
    ensures ConsumeOne(NewRequestBucket(l.maxReq, l.windowSec, c), t).1 && ConsumeOne(b, t).1
    ensures ConsumeOne(NewRequestBucket(l.maxReq, l.windowSec, c), t) == ConsumeOne(b, t) <==> Harmless(l, key, c, t)
  {
    BucketOkLater(l, key, b, c, t);
    StaysStale(b, c, t);
    StaleRequestIsFresh(l, key, b, c, t);
    NewRefills(l, c, t);
  }

  /** And a charge, whatever its amount. */
  lemma SameChargeIff(l: Limits, key: string, b: Bucket, c: int, t: int, amount: real)
    requires IsQuotaKey(key) && BucketOk(l, key, b, c) && Stale(b, c) && c <= t
    ensures ConsumeQuota(NewQuotaBucket(l.quota, l.periodSec, c), t, amount).1 == ConsumeQuota(b, t, amount).1
    ensures ConsumeQuota(NewQuotaBucket(l.quota, l.periodSec, c), t, amount) == ConsumeQuota(b, t, amount) <==> Harmless(l, key, c, t)
  {
    QuotaKeysAreNotRequestKeys(key);
    BucketOkLater(l, key, b, c, t);
    StaysStale(b, c, t);
    StaleQuotaIsFresh(l, key, b, c, t);
  }

  /** A bucket created anew answers peeks as the stale one does. */
  lemma SamePeek(l: Limits, key: string, b: Bucket, c: int, t: int)
    requires IsReqKey(key) && BucketOk(l, key, b, c) && Stale(b, c) && c <= t
    ensures Min(b.maxTokens, b.tokens + Refill(b, t)) > 0
    ensures var n := NewRequestBucket(l.maxReq, l.windowSec, c); Min(n.maxTokens, n.tokens + Refill(n, t)) > 0
  {
    StaysStale(b, c, t);
    StaleRefillsAll(b, t);
    WindowPositive(l);
    MulLe(0, t - c, l.maxReq);
    DivBounds((t - c) * l.maxReq, l.windowSec * SECOND);
  }

  /** A use gives the same answer with and without cleanup, and if it is harmless leaves the same bucket. */
  lemma UseIsAlike(cfg: Config, m1: Buckets, m2: Buckets, e: Event, mem: Memory)
    requires Inv(cfg, m1, e.now) && Inv(cfg, m2, e.now) && KindsMatch(m1) && KindsMatch(m2)
    requires MissesOnlyStale(cfg, m1, m2, e.now, mem) && OpOk(e.op) && Uses(e.op)
    ensures Step(cfg, m1, e).1 == Step(cfg, m2, e).1
    ensures e.op.key in Step(cfg, m1, e).0 && e.op.key in Step(cfg, m2, e).0
    ensures Step(cfg, m1, e).0[e.op.key] == Step(cfg, m2, e).0[e.op.key] <==> HarmlessNow(cfg, mem, e)
  {
    var k := e.op.key;
    var l := cfg(k);
    assert Alike(l, k, m1, m2, e.now, mem);
    if e.op.Charge? {
      QuotaKeysAreNotRequestKeys(k);
    }
    if k in m2 && (k in mem.pending || k !in m1) {
      var c := if k in mem.pending then mem.pending[k] else e.now;
      assert BucketOk(l, k, m2[k], e.now);
      OkWhenStale(l, k, m2[k], c, e.now);
      if e.op.Charge? {
        SameChargeIff(l, k, m2[k], c, e.now, e.op.amount);
      } else {
        SameRequestIff(l, k, m2[k], c, e.now);
      }
    }
  }

  /** A bucket that was stale at c has not been written since. */
  lemma OkWhenStale(l: Limits, key: string, b: Bucket, c: int, t: int)
    requires BucketOk(l, key, b, t) && Stale(b, c) && c <= t
    ensures BucketOk(l, key, b, c)
  {
    WindowPositive(l);
  }

  lemma PeekIsAlike(cfg: Config, m1: Buckets, m2: Buckets, e: Event, mem: Memory)
    requires Inv(cfg, m1, e.now) && Inv(cfg, m2, e.now) && KindsMatch(m1) && KindsMatch(m2)
    requires MissesOnlyStale(cfg, m1, m2, e.now, mem) && OpOk(e.op) && e.op.Peek?
    ensures Step(cfg, m1, e).1 == Step(cfg, m2, e).1
  {
    var k := e.op.key;
    assert Alike(cfg(k), k, m1, m2, e.now, mem);
    if k in m2 && (k in mem.pending || k !in m1) {
      var c := if k in mem.pending then mem.pending[k] else e.now;
      assert BucketOk(cfg(k), k, m2[k], e.now);
      OkWhenStale(cfg(k), k, m2[k], c, e.now);
      SamePeek(cfg(k), k, m2[k], c, e.now);
    }
  }

  lemma AlikeLater(cfg: Config, m1: Buckets, m2: Buckets, t: int, t': int, mem: Memory)
    requires MissesOnlyStale(cfg, m1, m2, t, mem) && t <= t'
    ensures MissesOnlyStale(cfg, m1, m2, t', mem)
  {
    forall k ensures Alike(cfg(k), k, m1, m2, t', mem) {
      assert Alike(cfg(k), k, m1, m2, t, mem);
      if k in m2 && Stale(m2[k], t) {
        StaysStale(m2[k], t, t');
      }
    }
  }

  lemma StepIsAlike(cfg: Config, m1: Buckets, m2: Buckets, e: Event, mem: Memory)
    requires Inv(cfg, m1, e.now) && Inv(cfg, m2, e.now) && KindsMatch(m1) && KindsMatch(m2)
    requires MissesOnlyStale(cfg, m1, m2, e.now, mem) && OpOk(e.op) && !Cleans(e.op) && HarmlessNow(cfg, mem, e)
    ensures Answers(e.op) ==> Step(cfg, m1, e).1 == Step(cfg, m2, e).1
    ensures var m1' := Step(cfg, m1, e).0; MissesOnlyStale(cfg, m1', Step(cfg, m2, e).0, e.now, Remember(mem, m1, e, m1'))
  {
    if Uses(e.op) {
      UseIsAlike(cfg, m1, m2, e, mem);
    } else if e.op.Peek? {
      PeekIsAlike(cfg, m1, m2, e, mem);
    }
    var m1' := Step(cfg, m1, e).0;
    forall k ensures Alike(cfg(k), k, m1', Step(cfg, m2, e).0, e.now, Remember(mem, m1, e, m1')) {
      assert Alike(cfg(k), k, m1, m2, e.now, mem);
    }
  }

  lemma CleaningIsAlike(cfg: Config, m1: Buckets, m2: Buckets, e: Event, mem: Memory)
    requires Inv(cfg, m1, e.now) && KindsMatch(m1)
    requires MissesOnlyStale(cfg, m1, m2, e.now, mem) && OpOk(e.op) && Cleans(e.op)
    ensures var m1' := Step(cfg, m1, e).0; MissesOnlyStale(cfg, m1', m2, e.now, Remember(mem, m1, e, m1'))
  {
    var m1' := Step(cfg, m1, e).0;
    forall k ensures Alike(cfg(k), k, m1', m2, e.now, Remember(mem, m1, e, m1')) {
      assert Alike(cfg(k), k, m1, m2, e.now, mem);
      if k in m1 && k !in m1' && k in mem.pending {
        StaysStale(m2[k], mem.pending[k], e.now);
      }
    }
  }

  lemma {:induction false} NoCleanupRunOk(evs: seq<Event>, t0: int, t1: int)
    requires RunOk(evs, t0) && t1 <= t0
    ensures RunOk(NoCleanup(evs), t1)
    decreases |evs|
  {
    if evs != [] {
      if Cleans(evs[0].op) {
        NoCleanupRunOk(evs[1..], evs[0].now, t1);
      } else {
        NoCleanupRunOk(evs[1..], evs[0].now, evs[0].now);
        assert NoCleanup(evs)[1..] == NoCleanup(evs[1..]);
      }
    }
  }

  lemma {:induction false} SameAnswers(cfg: Config, m1: Buckets, m2: Buckets, evs: seq<Event>, t0: int, t1: int, mem: Memory)
    requires Inv(cfg, m1, t0) && Inv(cfg, m2, t1) && t1 <= t0 && MissesOnlyStale(cfg, m1, m2, t0, mem)
    requires RunOk(evs, t0) && UsedHarmlessly(cfg, m1, evs, t0, mem)
    ensures RunOk(NoCleanup(evs), t1)
    ensures AnswersOf(cfg, m1, evs, t0) == AnswersOf(cfg, m2, NoCleanup(evs), t1)
    decreases |evs|
  {
    NoCleanupRunOk(evs, t0, t1);
    if evs != [] {
      var e := evs[0];
      StepKeepsInv(cfg, m1, e, t0);
      StepKeepsInv(cfg, m2, e, t1);
      InvLater(cfg, m1, t0, e.now);
      InvLater(cfg, m2, t1, e.now);
      AlikeLater(cfg, m1, m2, t0, e.now, mem);
      var m1' := Step(cfg, m1, e).0;
      if Cleans(e.op) {
        CleaningIsAlike(cfg, m1, m2, e, mem);
        SameAnswers(cfg, m1', m2, evs[1..], e.now, t1, Remember(mem, m1, e, m1'));
      } else {
        StepIsAlike(cfg, m1, m2, e, mem);
        SameAnswers(cfg, m1', Step(cfg, m2, e).0, evs[1..], e.now, e.now, Remember(mem, m1, e, m1'));
        assert NoCleanup(evs)[1..] == NoCleanup(evs[1..]);
      }
    }
  }

  /** Cleanup changes no answer of any run in which the buckets it takes away are replaced harmlessly. */
  lemma {:induction false} CleanupIsUnobservable(cfg: Config, evs: seq<Event>, t0: int)
    requires RunOk(evs, t0) && UsedHarmlessly(cfg, map[], evs, t0, NOTHING)
    ensures RunOk(NoCleanup(evs), t0)
    ensures AnswersOf(cfg, map[], evs, t0) == AnswersOf(cfg, map[], NoCleanup(evs), t0)
  {
    SameAnswers(cfg, map[], map[], evs, t0, t0, NOTHING);
  }

  /** Runs of whole operations create nothing that is not used at once, so they are such runs. */
  lemma {:induction false} WholeOperationsAreHarmless(cfg: Config, m: Buckets, evs: seq<Event>, t0: int, mem: Memory)
    requires Inv(cfg, m, t0) && RunOk(evs, t0) && mem.pending == map[]
    requires forall i :: 0 <= i < |evs| ==> !evs[i].op.Create?
    ensures UsedHarmlessly(cfg, m, evs, t0, mem)
    decreases |evs|
  {
    if evs != [] {
      StepKeepsInv(cfg, m, evs[0], t0);
      var m' := Step(cfg, m, evs[0]).0;
      WholeOperationsAreHarmless(cfg, m', evs[1..], evs[0].now, Remember(mem, m, evs[0], m'));
    }
  }

  // ---- Peek and consume ----

  /** A peek answers what a request at the same instant would be told. */
  lemma PeekForetellsRequest(cfg: Config, m: Buckets, key: string, t0: int, now: int)
    requires Inv(cfg, m, t0) && IsReqKey(key) && t0 <= now
    ensures KindsMatch(m)
    ensures PeekStep(m, key, now) == RequestStep(m, key, cfg(key).maxReq, cfg(key).windowSec, now).1
  {
    StepKeepsInv(cfg, m, Event(now, Peek(key)), t0);
    if key in m {
      assert BucketOk(cfg(key), key, m[key], t0);
      MulLe(0, now - m[key].lastRefill, m[key].maxTokens);
    } else {
      assert 0 / (cfg(key).windowSec * SECOND) == 0;
    }
  }

  /** Polling never starves a client: window/limit after the previous event a request passes. */
  lemma SpacedRequestPasses(cfg: Config, m: Buckets, key: string, t0: int, now: int)
    requires Inv(cfg, m, t0) && IsReqKey(key) && t0 <= now
    requires (now - t0) * cfg(key).maxReq >= cfg(key).windowSec * SECOND
    ensures KindsMatch(m)
    ensures RequestStep(m, key, cfg(key).maxReq, cfg(key).windowSec, now).1
  {
    StepKeepsInv(cfg, m, Event(now, Peek(key)), t0);
    if key in m {
      var b := m[key];
      assert BucketOk(cfg(key), key, b, t0);
      MulLe(now - t0, now - b.lastRefill, b.maxTokens);
      var w := b.windowSec * SECOND;
      var earned := (now - b.lastRefill) * b.maxTokens;
      DivBounds(earned, w);
      assert Refill(b, now) == earned / w >= 1;
    }
  }

  // ---- The bound is reached: this is no sliding window ----

  function Burst(key: string, now: int, n: nat): seq<Event> {
    seq(n, i => Event(now, Request(key)))
  }

  function Drained(m: Buckets, key: string, n: int): Buckets
    requires key in m
  {
    m[key := m[key].(tokens := m[key].tokens - n)]
  }

  lemma OneMorePasses(cfg: Config, m: Buckets, key: string, now: int)
    requires Inv(cfg, m, now) && IsReqKey(key) && KindsMatch(m)
    requires key in m && m[key].tokens > 0 && Refill(m[key], now) <= 0
    ensures Step(cfg, m, Event(now, Request(key))) == (Drained(m, key, 1), true)
    ensures Inv(cfg, Drained(m, key, 1), now)
    ensures Refill(Drained(m, key, 1)[key], now) <= 0
  {
    StepKeepsInv(cfg, m, Event(now, Request(key)), now);
  }

  lemma BurstHead(key: string, now: int, n: nat, rest: seq<Event>)
    requires n > 0
    ensures var evs := Burst(key, now, n) + rest;
      evs[0] == Event(now, Request(key)) && evs[1..] == Burst(key, now, n - 1) + rest
  {
  }

  lemma {:induction false} BurstRunOk(key: string, now: int, n: nat, rest: seq<Event>, t0: int)
    requires IsReqKey(key) && t0 <= now && RunOk(rest, now)
    ensures RunOk(Burst(key, now, n) + rest, if n == 0 then now else t0)
    decreases n
  {
    if n > 0 {
      BurstRunOk(key, now, n - 1, rest, now);
      BurstHead(key, now, n, rest);
    } else {
      assert Burst(key, now, 0) + rest == rest;
    }
  }

  lemma {:induction false} CountPass(cfg: Config, m: Buckets, m1: Buckets, evs: seq<Event>, now: int, key: string)
    requires Inv(cfg, m, now) && RunOk(evs, now) && KindsMatch(m) && Inv(cfg, m1, now)
    requires evs != [] && evs[0] == Event(now, Request(key)) && Step(cfg, m, evs[0]) == (m1, true)
    ensures Admitted(cfg, m, evs, now, key) == 1 + Admitted(cfg, m1, evs[1..], now, key)
  {
  }

  lemma {:induction false} BurstDrains(cfg: Config, m: Buckets, key: string, now: int, n: nat, rest: seq<Event>)
    requires Inv(cfg, m, now) && IsReqKey(key) && RunOk(rest, now) && KindsMatch(m)
    requires key in m && n <= m[key].tokens && Refill(m[key], now) <= 0
    ensures RunOk(Burst(key, now, n) + rest, now)
    ensures Inv(cfg, Drained(m, key, n), now)
    ensures Admitted(cfg, m, Burst(key, now, n) + rest, now, key)
      == n + Admitted(cfg, Drained(m, key, n), rest, now, key)
    decreases n
  {
    var evs := Burst(key, now, n) + rest;
    BurstRunOk(key, now, n, rest, now);
    if n == 0 {
      assert evs == rest && Drained(m, key, 0) == m;
    } else {
      BurstHead(key, now, n, rest);
      OneMorePasses(cfg, m, key, now);
      var m1 := Drained(m, key, 1);
      StepKeepsInv(cfg, m1, Event(now, Request(key)), now);
      BurstDrains(cfg, m1, key, now, n - 1, rest);
      DrainedTwice(m, key, n);
      CountPass(cfg, m, m1, evs, now, key);
    }
  }

  lemma DrainedTwice(m: Buckets, key: string, n: int)
    requires key in m
    ensures Drained(Drained(m, key, 1), key, n - 1) == Drained(m, key, n)
  {
  }

  lemma FirstRequest(cfg: Config, key: string, now: int)
    requires IsReqKey(key)
    ensures var l := cfg(key); var m1 := map[key := NewRequestBucket(l.maxReq, l.windowSec, now).(tokens := l.maxReq - 1)];
      Step(cfg, map[], Event(now, Request(key))) == (m1, true) && Inv(cfg, m1, now)
  {
    FreshRefillsNothing(cfg(key), now);
    StepKeepsInv(cfg, map[], Event(now, Request(key)), now);
  }

  /** A bucket that has not been touched yet answers a first burst like a full one. */
  lemma {:induction false} FirstBurst(cfg: Config, key: string, now: int, rest: seq<Event>)
    requires IsReqKey(key) && RunOk(rest, now)
    ensures var l := cfg(key);
      var drained := NewRequestBucket(l.maxReq, l.windowSec, now).(tokens := 0);
      var evs := Burst(key, now, l.maxReq) + rest;
      && Inv(cfg, map[key := drained], now) && RunOk(evs, now)
      && Admitted(cfg, map[], evs, now, key) == l.maxReq + Admitted(cfg, map[key := drained], rest, now, key)
  {
    var l := cfg(key);
    var full := NewRequestBucket(l.maxReq, l.windowSec, now);
    FreshRefillsNothing(l, now);
    var evs := Burst(key, now, l.maxReq) + rest;
    var e := Event(now, Request(key));
    BurstHead(key, now, l.maxReq, rest);
    var m1 := map[key := full.(tokens := l.maxReq - 1)];
    FirstRequest(cfg, key, now);
    BurstDrains(cfg, m1, key, now, l.maxReq - 1, rest);
    assert m1[key := m1[key].(tokens := 0)] == map[key := full.(tokens := 0)];
  }

  /**
   Whatever the limits, a run of one window's length admits twice the limit: a burst at its start
   and another at its end. The sliding window the documentation speaks of would admit half.
   */
  lemma {:induction false} TwiceTheLimitInOneWindow(cfg: Config, key: string)
    requires IsReqKey(key)
    ensures var l := cfg(key);
      var evs := Burst(key, 0, l.maxReq) + Burst(key, l.windowSec * SECOND, l.maxReq);
      && RunOk(evs, 0)
      && (forall i :: 0 <= i < |evs| ==> 0 <= evs[i].now <= l.windowSec * SECOND)
      && Admitted(cfg, map[], evs, 0, key) == 2 * l.maxReq
  {
    var l := cfg(key);
    var w := l.windowSec * SECOND;
    var second := Burst(key, w, l.maxReq);
    var drained := NewRequestBucket(l.maxReq, l.windowSec, 0).(tokens := 0);
    BurstRunOk(key, w, l.maxReq, [], 0);
    assert Burst(key, w, l.maxReq) + [] == Burst(key, w, l.maxReq);
    FirstBurst(cfg, key, 0, second);
    SecondBurst(cfg, key);
  }

  lemma {:induction false} SecondBurst(cfg: Config, key: string)
    requires IsReqKey(key)
    ensures var l := cfg(key); var w := l.windowSec * SECOND;
      var m0 := map[key := NewRequestBucket(l.maxReq, l.windowSec, 0).(tokens := 0)];
      && Inv(cfg, m0, 0) && RunOk(Burst(key, w, l.maxReq), 0)
      && Admitted(cfg, m0, Burst(key, w, l.maxReq), 0, key) == l.maxReq
  {
    var l := cfg(key);
    var w := l.windowSec * SECOND;
    var drained := NewRequestBucket(l.maxReq, l.windowSec, 0).(tokens := 0);
    var m0 := map[key := drained];
    BurstRunOk(key, w, l.maxReq, [], 0);
    assert Burst(key, w, l.maxReq) + [] == Burst(key, w, l.maxReq);
    RefillsWhole(drained);
    var e := Event(w, Request(key));
    StepKeepsInv(cfg, m0, e, 0);
    var m1 := map[key := drained.(tokens := l.maxReq - 1, lastRefill := w)];
    assert m0[key] == drained && Refill(drained, w) == l.maxReq;
    assert Step(cfg, m0, e).0 == m1;
    assert 0 / w == 0;
    var later := Burst(key, w, l.maxReq - 1);
    BurstDrains(cfg, m1, key, w, l.maxReq - 1, []);
    assert later + [] == later;
    var all := Burst(key, w, l.maxReq);
    assert all[0] == e && all[1..] == later;
  }

  /** One full window refills an empty bucket completely. */
  lemma RefillsWhole(b: Bucket)
    requires b.windowSec > 0 && b.maxTokens > 0 && b.lastRefill == 0
    ensures Refill(b, b.windowSec * SECOND) == b.maxTokens
  {
    var w := b.windowSec * SECOND;
    var q := w * b.maxTokens / w;
    QuotientAtLeast(w * b.maxTokens, w, b.maxTokens);
    DivBounds(w * b.maxTokens, w);
    if q >= b.maxTokens + 1 {
      MulLe(b.maxTokens + 1, q, w);
      assert false;
    }
  }

}
