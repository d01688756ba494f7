/**
 Exactly when cleanup can be noticed. A bucket that cleanup has taken away and that is created anew differs from the
 old one by the clock reading of its creation; its first use makes up for that, or later answers on its key tell.
 */
module LimiterNotice {
  import opened BucketKeys
  import opened RateLimiter
  import opened LimiterRuns
  import opened LimiterCleanup

  // ---- Two buckets that only differ in when they were filled ----

  /** Whole operations on one key. */
  predicate OnKey(evs: seq<Event>, key: string) {
    forall i :: 0 <= i < |evs| ==> Answers(evs[i].op) && evs[i].op.key == key
  }

  /** No later operation on the key is answered differently. */
  ghost predicate IndistinctOn(cfg: Config, m1: Buckets, m2: Buckets, t: int, key: string)
    requires Inv(cfg, m1, t) && Inv(cfg, m2, t)
  {
    forall rest :: RunOk(rest, t) && OnKey(rest, key) ==> AnswersOf(cfg, m1, rest, t) == AnswersOf(cfg, m2, rest, t)
  }

  lemma SameStepOnKey(cfg: Config, m1: Buckets, m2: Buckets, e: Event)
    requires KindsMatch(m1) && KindsMatch(m2) && OpOk(e.op) && Answers(e.op)
    requires e.op.key in m1 && e.op.key in m2 && m1[e.op.key] == m2[e.op.key]
    ensures var (m1', ok1) := Step(cfg, m1, e); var (m2', ok2) := Step(cfg, m2, e);
      ok1 == ok2 && e.op.key in m1' && e.op.key in m2' && m1'[e.op.key] == m2'[e.op.key]
  {
  }

  lemma {:induction false} SameOnKey(cfg: Config, m1: Buckets, m2: Buckets, evs: seq<Event>, t: int, key: string)
    requires Inv(cfg, m1, t) && Inv(cfg, m2, t) && RunOk(evs, t) && OnKey(evs, key)
    requires key in m1 && key in m2 && m1[key] == m2[key]
    ensures AnswersOf(cfg, m1, evs, t) == AnswersOf(cfg, m2, evs, t)
    decreases |evs|
  {
    if evs != [] {
      var e := evs[0];
      StepKeepsInv(cfg, m1, e, t);
      StepKeepsInv(cfg, m2, e, t);
      SameStepOnKey(cfg, m1, m2, e);
      SameOnKey(cfg, Step(cfg, m1, e).0, Step(cfg, m2, e).0, evs[1..], e.now, key);
    }
  }

  lemma {:induction false} AnswersFirst(cfg: Config, m: Buckets, e: Event, rest: seq<Event>, t0: int)
    requires Inv(cfg, m, t0) && OpOk(e.op) && t0 <= e.now && RunOk(rest, e.now)
    ensures KindsMatch(m) && Inv(cfg, Step(cfg, m, e).0, e.now) && RunOk([e] + rest, t0)
    ensures AnswersOf(cfg, m, [e] + rest, t0)
      == (if Answers(e.op) then [Step(cfg, m, e).1] else []) + AnswersOf(cfg, Step(cfg, m, e).0, rest, e.now)
  {
    StepKeepsInv(cfg, m, e, t0);
    assert ([e] + rest)[0] == e && ([e] + rest)[1..] == rest;
  }

  lemma {:induction false} OneAnswer(cfg: Config, m: Buckets, e: Event, t0: int)
    requires Inv(cfg, m, t0) && OpOk(e.op) && t0 <= e.now && Answers(e.op)
    ensures KindsMatch(m) && RunOk([e], t0) && AnswersOf(cfg, m, [e], t0) == [Step(cfg, m, e).1]
  {
    AnswersFirst(cfg, m, e, [], t0);
    assert [e] + [] == [e];
  }

  /** How long the first token of an empty bucket takes. */
  function FirstToken(l: Limits): int { (l.windowSec * SECOND + l.maxReq - 1) / l.maxReq }

  lemma FirstTokenBounds(l: Limits)
    ensures var c := FirstToken(l); var w := l.windowSec * SECOND;
      c >= 1 && c * l.maxReq >= w && (c - 1) * l.maxReq < w
  {
    WindowPositive(l);
    var w := l.windowSec * SECOND;
    DivBounds(w + l.maxReq - 1, l.maxReq);
    var c := FirstToken(l);
    assert c * l.maxReq == (c - 1) * l.maxReq + l.maxReq;
    if c < 1 {
      MulLe(c + 1, 1, l.maxReq);
    }
  }

  /** The bucket with n tokens that was filled at c. */
  function FilledAt(l: Limits, c: int, n: int): Bucket { NewRequestBucket(l.maxReq, l.windowSec, c).(tokens := n) }

  lemma FilledRefills(l: Limits, c: int, n: int, t: int)
    requires c <= t && 0 <= n <= l.maxReq
    ensures (t - c) * l.maxReq < l.windowSec * SECOND ==> Refilled(FilledAt(l, c, n), t) == FilledAt(l, c, n)
    ensures (t - c) * l.maxReq >= l.windowSec * SECOND && n == 0 ==> Refilled(FilledAt(l, c, n), t).tokens > 0
  {
    WindowPositive(l);
    var earned := (t - c) * l.maxReq;
    MulLe(0, t - c, l.maxReq);
    if earned < l.windowSec * SECOND {
      QuotientBelow(earned, l.windowSec * SECOND);
    } else {
      QuotientAtLeast(earned, l.windowSec * SECOND, 1);
    }
  }

  /** Two drained buckets, one filled later: when the earlier one has its first token, the later one has none. */
  lemma DrainedApart(l: Limits, c: int, t: int)
    requires c < t && (t - c) * l.maxReq < l.windowSec * SECOND
    ensures var now := c + FirstToken(l);
      now > t && ConsumeOne(FilledAt(l, c, 0), now).1 && !ConsumeOne(FilledAt(l, t, 0), now).1
  {
    FirstTokenBounds(l);
    var d := FirstToken(l);
    if d <= t - c {
      MulLe(d, t - c, l.maxReq);
    }
    MulLe(d - (t - c), d - 1, l.maxReq);
    FilledRefills(l, c, 0, c + d);
    FilledRefills(l, t, 0, c + d);
  }

  /** Within a token's time of c a bucket filled at c just loses a token. */
  lemma FilledPasses(cfg: Config, m: Buckets, key: string, n: nat, c: int, t: int)
    requires IsReqKey(key) && Inv(cfg, m, t) && key in m && 0 < n <= cfg(key).maxReq && m[key] == FilledAt(cfg(key), c, n)
    requires c <= t && (t - c) * cfg(key).maxReq < cfg(key).windowSec * SECOND
    ensures KindsMatch(m) && Step(cfg, m, Event(t, Request(key))) == (m[key := FilledAt(cfg(key), c, n - 1)], true)
    ensures Inv(cfg, m[key := FilledAt(cfg(key), c, n - 1)], t)
  {
    StepKeepsInv(cfg, m, Event(t, Request(key)), t);
    FilledRefills(cfg(key), c, n, t);
  }

  lemma {:induction false} TellDrainedApart(cfg: Config, m1: Buckets, m2: Buckets, key: string, c: int, t: int) returns (rest: seq<Event>)
    requires IsReqKey(key) && Inv(cfg, m1, t) && Inv(cfg, m2, t) && key in m1 && key in m2
    requires m1[key] == FilledAt(cfg(key), c, 0) && m2[key] == FilledAt(cfg(key), t, 0)
    requires c < t && (t - c) * cfg(key).maxReq < cfg(key).windowSec * SECOND
    ensures RunOk(rest, t) && OnKey(rest, key) && AnswersOf(cfg, m1, rest, t) != AnswersOf(cfg, m2, rest, t)
  {
    var e := Event(c + FirstToken(cfg(key)), Request(key));
    DrainedApart(cfg(key), c, t);
    OneAnswer(cfg, m1, e, t);
    OneAnswer(cfg, m2, e, t);
    DrainedStep(cfg, m1, key, c, e.now);
    DrainedStep(cfg, m2, key, t, e.now);
    rest := [e];
  }

  lemma DrainedStep(cfg: Config, m: Buckets, key: string, c: int, t: int)
    requires IsReqKey(key) && KindsMatch(m) && key in m && m[key] == FilledAt(cfg(key), c, 0)
    ensures Step(cfg, m, Event(t, Request(key))).1 == ConsumeOne(FilledAt(cfg(key), c, 0), t).1
  {
  }

  /** Draining both buckets and asking once more tells them apart. */
  lemma {:induction false} TellRequestsApart(cfg: Config, m1: Buckets, m2: Buckets, key: string, n: nat, c: int, t: int) returns (rest: seq<Event>)
    requires IsReqKey(key) && Inv(cfg, m1, t) && Inv(cfg, m2, t) && key in m1 && key in m2 && n <= cfg(key).maxReq
    requires m1[key] == FilledAt(cfg(key), c, n) && m2[key] == FilledAt(cfg(key), t, n)
    requires c < t && (t - c) * cfg(key).maxReq < cfg(key).windowSec * SECOND
    ensures RunOk(rest, t) && OnKey(rest, key) && AnswersOf(cfg, m1, rest, t) != AnswersOf(cfg, m2, rest, t)
    decreases n
  {
    if n == 0 {
      rest := TellDrainedApart(cfg, m1, m2, key, c, t);
    } else {
      WindowPositive(cfg(key));
      FilledPasses(cfg, m1, key, n, c, t);
      FilledPasses(cfg, m2, key, n, t, t);
      var n1, n2 := m1[key := FilledAt(cfg(key), c, n - 1)], m2[key := FilledAt(cfg(key), t, n - 1)];
      var later := TellRequestsApart(cfg, n1, n2, key, n - 1, c, t);
      rest := FirstAndLater(cfg, m1, m2, n1, n2, Event(t, Request(key)), true, later, t);
    }
  }

  /** What tells two states apart after one operation, told alike, tells the states before it apart. */
  lemma {:induction false} FirstAndLater(cfg: Config, m1: Buckets, m2: Buckets, n1: Buckets, n2: Buckets, e: Event, ok: bool,
                                         later: seq<Event>, t: int) returns (rest: seq<Event>)
    requires Inv(cfg, m1, t) && Inv(cfg, m2, t) && KindsMatch(m1) && KindsMatch(m2) && t <= e.now && OpOk(e.op) && Answers(e.op)
    requires Step(cfg, m1, e) == (n1, ok) && Step(cfg, m2, e) == (n2, ok) && Inv(cfg, n1, e.now) && Inv(cfg, n2, e.now)
    requires RunOk(later, e.now) && OnKey(later, e.op.key) && AnswersOf(cfg, n1, later, e.now) != AnswersOf(cfg, n2, later, e.now)
    ensures RunOk(rest, t) && OnKey(rest, e.op.key) && AnswersOf(cfg, m1, rest, t) != AnswersOf(cfg, m2, rest, t)
  {
    rest := [e] + later;
    AnswersFirst(cfg, m1, e, later, t);
    AnswersFirst(cfg, m2, e, later, t);
    var a, b := AnswersOf(cfg, n1, later, e.now), AnswersOf(cfg, n2, later, e.now);
    assert ([ok] + a)[1..] == a && ([ok] + b)[1..] == b;
  }

  /** The quota bucket whose period began at c, with this much used. */
  function BegunAt(l: Limits, c: int, used: real): Bucket { NewQuotaBucket(l.quota, l.periodSec, c).(used := used) }

  lemma ChargeInPeriod(cfg: Config, m: Buckets, key: string, used: real, c: int, t: int, amount: NonNegative)
    requires IsQuotaKey(key) && Inv(cfg, m, t) && key in m && m[key] == BegunAt(cfg(key), c, used)
    requires t <= c + cfg(key).periodSec * SECOND && used + amount <= cfg(key).quota
    ensures KindsMatch(m) && Step(cfg, m, Event(t, Charge(key, amount))) == (m[key := BegunAt(cfg(key), c, used + amount)], true)
    ensures Inv(cfg, m[key := BegunAt(cfg(key), c, used + amount)], t)
  {
    StepKeepsInv(cfg, m, Event(t, Charge(key, amount)), t);
  }

  /** Whether a whole quota can be charged to a bucket that is used up depends on whether it has rolled over. */
  lemma WholeChargeIff(cfg: Config, m: Buckets, key: string, c: int, t: int)
    requires IsQuotaKey(key) && KindsMatch(m) && key in m && cfg(key).quota > 0.0 && m[key] == BegunAt(cfg(key), c, cfg(key).quota)
    ensures Step(cfg, m, Event(t, Charge(key, cfg(key).quota))).1 <==> t > c + cfg(key).periodSec * SECOND
  {
  }

  /** Using both up and charging once more after the earlier reset tells them apart. */
  lemma {:induction false} TellChargesApart(cfg: Config, m1: Buckets, m2: Buckets, key: string, used: real, c: int, t: int) returns (rest: seq<Event>)
    requires IsQuotaKey(key) && Inv(cfg, m1, t) && Inv(cfg, m2, t) && key in m1 && key in m2
    requires 0.0 <= used <= cfg(key).quota && cfg(key).quota > 0.0
    requires m1[key] == BegunAt(cfg(key), c, used) && m2[key] == BegunAt(cfg(key), t, used)
    requires c < t <= c + cfg(key).periodSec * SECOND
    ensures RunOk(rest, t) && OnKey(rest, key) && AnswersOf(cfg, m1, rest, t) != AnswersOf(cfg, m2, rest, t)
  {
    var l := cfg(key);
    ChargeInPeriod(cfg, m1, key, used, c, t, l.quota - used);
    ChargeInPeriod(cfg, m2, key, used, t, t, l.quota - used);
    var n1, n2 := m1[key := BegunAt(l, c, l.quota)], m2[key := BegunAt(l, t, l.quota)];
    var later := TellUsedUpApart(cfg, n1, n2, key, c, t);
    rest := FirstAndLater(cfg, m1, m2, n1, n2, Event(t, Charge(key, l.quota - used)), true, later, t);
  }

  lemma {:induction false} TellUsedUpApart(cfg: Config, m1: Buckets, m2: Buckets, key: string, c: int, t: int) returns (rest: seq<Event>)
    requires IsQuotaKey(key) && Inv(cfg, m1, t) && Inv(cfg, m2, t) && key in m1 && key in m2 && cfg(key).quota > 0.0
    requires m1[key] == BegunAt(cfg(key), c, cfg(key).quota) && m2[key] == BegunAt(cfg(key), t, cfg(key).quota)
    requires c < t <= c + cfg(key).periodSec * SECOND
    ensures RunOk(rest, t) && OnKey(rest, key) && AnswersOf(cfg, m1, rest, t) != AnswersOf(cfg, m2, rest, t)
  {
    var e := Event(c + cfg(key).periodSec * SECOND + 1, Charge(key, cfg(key).quota));
    rest := [e];
    OneAnswer(cfg, m1, e, t);
    OneAnswer(cfg, m2, e, t);
    WholeChargeIff(cfg, m1, key, c, e.now);
    WholeChargeIff(cfg, m2, key, t, e.now);
  }

  // ---- One use ----

  /** A use is harmless exactly if no later operation on its key is answered differently for the cleanup before it. */
  lemma {:induction false} UseNoticedIff(cfg: Config, m1: Buckets, m2: Buckets, e: Event, mem: Memory)
    requires Inv(cfg, m1, e.now) && Inv(cfg, m2, e.now) && MissesOnlyStale(cfg, m1, m2, e.now, mem)
    requires OpOk(e.op) && Uses(e.op) && (e.op.Charge? ==> cfg(e.op.key).quota > 0.0)
    ensures KindsMatch(m1) && KindsMatch(m2) && Step(cfg, m1, e).1 == Step(cfg, m2, e).1
    ensures Inv(cfg, Step(cfg, m1, e).0, e.now) && Inv(cfg, Step(cfg, m2, e).0, e.now)
    ensures HarmlessNow(cfg, mem, e) <==> IndistinctOn(cfg, Step(cfg, m1, e).0, Step(cfg, m2, e).0, e.now, e.op.key)
  {
    StepKeepsInv(cfg, m1, e, e.now);
    StepKeepsInv(cfg, m2, e, e.now);
    UseIsAlike(cfg, m1, m2, e, mem);
    var n1, n2 := Step(cfg, m1, e).0, Step(cfg, m2, e).0;
    if HarmlessNow(cfg, mem, e) {
      forall rest | RunOk(rest, e.now) && OnKey(rest, e.op.key)
        ensures AnswersOf(cfg, n1, rest, e.now) == AnswersOf(cfg, n2, rest, e.now)
      {
        SameOnKey(cfg, n1, n2, rest, e.now, e.op.key);
      }
    } else {
      var rest := TellApart(cfg, m1, m2, e, mem);
      assert !IndistinctOn(cfg, n1, n2, e.now, e.op.key);
    }
  }

  lemma {:induction false} TellApart(cfg: Config, m1: Buckets, m2: Buckets, e: Event, mem: Memory) returns (rest: seq<Event>)
    requires Inv(cfg, m1, e.now) && Inv(cfg, m2, e.now) && MissesOnlyStale(cfg, m1, m2, e.now, mem)
    requires OpOk(e.op) && Uses(e.op) && !HarmlessNow(cfg, mem, e) && (e.op.Charge? ==> cfg(e.op.key).quota > 0.0)
    ensures KindsMatch(m1) && KindsMatch(m2)
    ensures Inv(cfg, Step(cfg, m1, e).0, e.now) && Inv(cfg, Step(cfg, m2, e).0, e.now)
    ensures RunOk(rest, e.now) && OnKey(rest, e.op.key)
    ensures AnswersOf(cfg, Step(cfg, m1, e).0, rest, e.now) != AnswersOf(cfg, Step(cfg, m2, e).0, rest, e.now)
  {
    StepKeepsInv(cfg, m1, e, e.now);
    StepKeepsInv(cfg, m2, e, e.now);
    var k := e.op.key;
    var c := mem.pending[k];
    assert Alike(cfg(k), k, m1, m2, e.now, mem);
    if e.op.Request? {
      HarmfulRequest(cfg, m1, m2, k, c, e.now);
      rest := TellRequestsApart(cfg, Step(cfg, m1, e).0, Step(cfg, m2, e).0, k, cfg(k).maxReq - 1, c, e.now);
    } else {
      HarmfulCharge(cfg, m1, m2, k, c, e.now, e.op.amount);
      var used := if e.op.amount <= cfg(k).quota then e.op.amount else 0.0;
      rest := TellChargesApart(cfg, Step(cfg, m1, e).0, Step(cfg, m2, e).0, k, used, c, e.now);
    }
  }

  /** What a request too soon after the creation leaves in the new bucket, and what it would have left in the old one. */
  lemma HarmfulRequest(cfg: Config, m1: Buckets, m2: Buckets, key: string, c: int, t: int)
    requires IsReqKey(key) && Inv(cfg, m2, t) && KindsMatch(m1) && KindsMatch(m2) && key in m1 && key in m2 && c <= t
    requires m1[key] == NewBucket(cfg(key), key, c) && Stale(m2[key], c) && !Harmless(cfg(key), key, c, t)
    ensures var l := cfg(key); var e := Event(t, Request(key)); var n1, n2 := Step(cfg, m1, e).0, Step(cfg, m2, e).0;
      key in n1 && key in n2 && n1[key] == FilledAt(l, c, l.maxReq - 1) && n2[key] == FilledAt(l, t, l.maxReq - 1)
  {
    var l := cfg(key);
    assert BucketOk(l, key, m2[key], t);
    StaysStale(m2[key], c, t);
    StaleRequestIsFresh(l, key, m2[key], t, t);
    NewRefills(l, c, t);
  }

  lemma HarmfulCharge(cfg: Config, m1: Buckets, m2: Buckets, key: string, c: int, t: int, amount: NonNegative)
    requires IsQuotaKey(key) && Inv(cfg, m2, t) && KindsMatch(m1) && KindsMatch(m2) && key in m1 && key in m2 && c <= t
    requires m1[key] == NewBucket(cfg(key), key, c) && Stale(m2[key], c) && !Harmless(cfg(key), key, c, t)
    ensures var l := cfg(key); var e := Event(t, Charge(key, amount)); var n1, n2 := Step(cfg, m1, e).0, Step(cfg, m2, e).0;
      var used := if amount <= l.quota then amount else 0.0;
      key in n1 && key in n2 && n1[key] == BegunAt(l, c, used) && n2[key] == BegunAt(l, t, used) && c < t <= c + l.periodSec * SECOND
  {
    QuotaKeysAreNotRequestKeys(key);
    assert BucketOk(cfg(key), key, m2[key], t);
    StaysStale(m2[key], c, t);
    StaleQuotaIsFresh(cfg(key), key, m2[key], t, t);
  }

  // ---- Whole runs ----

  /** What a run leaves to be made up for. */
  ghost function MemoryOf(cfg: Config, m: Buckets, evs: seq<Event>, t0: int, mem: Memory): Memory
    requires Inv(cfg, m, t0) && RunOk(evs, t0)
    decreases |evs|
  {
    if evs == [] then mem
    else
      StepKeepsInv(cfg, m, evs[0], t0);
      var m' := Step(cfg, m, evs[0]).0;
      MemoryOf(cfg, m', evs[1..], evs[0].now, Remember(mem, m, evs[0], m'))
  }

  lemma {:induction false} StaysAlike(cfg: Config, m1: Buckets, m2: Buckets, evs: seq<Event>, t0: int, t1: int, mem: Memory)
    requires Inv(cfg, m1, t0) && Inv(cfg, m2, t1) && t1 <= t0 && MissesOnlyStale(cfg, m1, m2, t0, mem)
    requires RunOk(evs, t0) && UsedHarmlessly(cfg, m1, evs, t0, mem)
    ensures RunOk(NoCleanup(evs), t1) && LastTime(NoCleanup(evs), t1) <= LastTime(evs, t0)
    ensures MissesOnlyStale(cfg, Exec(cfg, m1, evs, t0), Exec(cfg, m2, NoCleanup(evs), t1), LastTime(evs, t0), MemoryOf(cfg, m1, evs, t0, mem))
    decreases |evs|
  {
    NoCleanupRunOk(evs, t0, t1);
    if evs != [] {
      var e := evs[0];
      StepKeepsInv(cfg, m1, e, t0);
      StepKeepsInv(cfg, m2, e, t1);
      InvLater(cfg, m1, t0, e.now);
      InvLater(cfg, m2, t1, e.now);
      AlikeLater(cfg, m1, m2, t0, e.now, mem);
      var m1' := Step(cfg, m1, e).0;
      assert LastTime(evs, t0) == LastTime(evs[1..], e.now);
      if Cleans(e.op) {
        CleaningIsAlike(cfg, m1, m2, e, mem);
        StaysAlike(cfg, m1', m2, evs[1..], e.now, t1, Remember(mem, m1, e, m1'));
      } else {
        StepIsAlike(cfg, m1, m2, e, mem);
        StaysAlike(cfg, m1', Step(cfg, m2, e).0, evs[1..], e.now, e.now, Remember(mem, m1, e, m1'));
        assert NoCleanup(evs)[1..] == NoCleanup(evs[1..]);
        assert LastTime(NoCleanup(evs), t1) == LastTime(NoCleanup(evs[1..]), e.now);
      }
    }
  }

  lemma {:induction false} ExecFirst(cfg: Config, m: Buckets, e: Event, rest: seq<Event>, t0: int)
    requires Inv(cfg, m, t0) && OpOk(e.op) && t0 <= e.now && RunOk(rest, e.now)
    ensures KindsMatch(m) && Inv(cfg, Step(cfg, m, e).0, e.now) && RunOk([e] + rest, t0)
    ensures Exec(cfg, m, [e] + rest, t0) == Exec(cfg, Step(cfg, m, e).0, rest, e.now)
    ensures LastTime([e] + rest, t0) == LastTime(rest, e.now)
  {
    StepKeepsInv(cfg, m, e, t0);
    assert ([e] + rest)[0] == e && ([e] + rest)[1..] == rest;
  }

  lemma {:induction false} AnswersConcat(cfg: Config, m: Buckets, a: seq<Event>, b: seq<Event>, t0: int)
    requires Inv(cfg, m, t0) && RunOk(a, t0) && RunOk(b, LastTime(a, t0))
    ensures Inv(cfg, Exec(cfg, m, a, t0), LastTime(a, t0)) && RunOk(a + b, t0)
    ensures AnswersOf(cfg, m, a + b, t0) == AnswersOf(cfg, m, a, t0) + AnswersOf(cfg, Exec(cfg, m, a, t0), b, LastTime(a, t0))
    decreases |a|
  {
    ExecKeepsInv(cfg, m, a, t0);
    if a == [] {
      assert a + b == b;
    } else {
      var e, rest := a[0], a[1..];
      assert a == [e] + rest && a + b == [e] + (rest + b);
      ExecFirst(cfg, m, e, rest, t0);
      AnswersConcat(cfg, Step(cfg, m, e).0, rest, b, e.now);
      AnswersFirst(cfg, m, e, rest + b, t0);
      AnswersFirst(cfg, m, e, rest, t0);
    }
  }

  lemma {:induction false} NoCleanupConcat(a: seq<Event>, b: seq<Event>)
    ensures NoCleanup(a + b) == NoCleanup(a) + NoCleanup(b)
  {
    if a == [] {
      assert a + b == b;
    } else {
      assert (a + b)[0] == a[0] && (a + b)[1..] == a[1..] + b;
      NoCleanupConcat(a[1..], b);
    }
  }

  lemma {:induction false} NothingToClean(evs: seq<Event>)
    requires forall i :: 0 <= i < |evs| ==> !Cleans(evs[i].op)
    ensures NoCleanup(evs) == evs
  {
    if evs != [] {
      NothingToClean(evs[1..]);
    }
  }

  /** The run and the run without its cleanup give the same answers. */
  ghost predicate SameTold(cfg: Config, evs: seq<Event>, t0: int) {
    && RunOk(evs, t0) && RunOk(NoCleanup(evs), t0)
    && AnswersOf(cfg, map[], evs, t0) == AnswersOf(cfg, map[], NoCleanup(evs), t0)
  }

  lemma {:induction false} AnswersEarlier(cfg: Config, m: Buckets, evs: seq<Event>, t0: int, t: int)
    requires Inv(cfg, m, t0) && t0 <= t && Inv(cfg, m, t) && RunOk(evs, t)
    ensures RunOk(evs, t0) && AnswersOf(cfg, m, evs, t0) == AnswersOf(cfg, m, evs, t)
  {
  }

  /** Where a harmless run leads, with and without its cleanup. */
  lemma {:induction false} StatesAfter(cfg: Config, evs: seq<Event>, t0: int, t: int)
    requires RunOk(evs, t0) && UsedHarmlessly(cfg, map[], evs, t0, NOTHING) && LastTime(evs, t0) <= t
    ensures RunOk(NoCleanup(evs), t0) && LastTime(NoCleanup(evs), t0) <= t
    ensures var m1, m2 := Exec(cfg, map[], evs, t0), Exec(cfg, map[], NoCleanup(evs), t0);
      && Inv(cfg, m1, LastTime(evs, t0)) && Inv(cfg, m2, LastTime(NoCleanup(evs), t0)) && Inv(cfg, m1, t) && Inv(cfg, m2, t)
      && MissesOnlyStale(cfg, m1, m2, t, MemoryOf(cfg, map[], evs, t0, NOTHING))
  {
    var cleanless := NoCleanup(evs);
    NoCleanupRunOk(evs, t0, t0);
    StaysAlike(cfg, map[], map[], evs, t0, t0, NOTHING);
    ExecKeepsInv(cfg, map[], evs, t0);
    ExecKeepsInv(cfg, map[], cleanless, t0);
    var m1, m2 := Exec(cfg, map[], evs, t0), Exec(cfg, map[], cleanless, t0);
    InvLater(cfg, m1, LastTime(evs, t0), t);
    InvLater(cfg, m2, LastTime(cleanless, t0), t);
    AlikeLater(cfg, m1, m2, LastTime(evs, t0), t, MemoryOf(cfg, map[], evs, t0, NOTHING));
  }

  lemma SameTail<T>(p: seq<T>, a: seq<T>, b: seq<T>)
    ensures p + a == p + b <==> a == b
  {
    assert (p + a)[|p|..] == a && (p + b)[|p|..] == b;
  }

  /** What follows a run from the empty limiter is told as from the state that the run leads to. */
  lemma {:induction false} ToldFrom(cfg: Config, evs: seq<Event>, more: seq<Event>, t0: int, t: int)
    requires RunOk(evs, t0) && LastTime(evs, t0) <= t && RunOk(more, t)
    requires Inv(cfg, Exec(cfg, map[], evs, t0), LastTime(evs, t0)) && Inv(cfg, Exec(cfg, map[], evs, t0), t)
    ensures RunOk(evs + more, t0)
    ensures AnswersOf(cfg, map[], evs + more, t0) == AnswersOf(cfg, map[], evs, t0) + AnswersOf(cfg, Exec(cfg, map[], evs, t0), more, t)
  {
    AnswersEarlier(cfg, Exec(cfg, map[], evs, t0), more, LastTime(evs, t0), t);
    AnswersConcat(cfg, map[], evs, more, t0);
  }

  /** Answers after a harmless run, with and without its cleanup. */
  lemma {:induction false} ToldAfter(cfg: Config, evs: seq<Event>, t0: int, more: seq<Event>, t: int)
    requires RunOk(evs, t0) && UsedHarmlessly(cfg, map[], evs, t0, NOTHING) && LastTime(evs, t0) <= t
    requires RunOk(more, t) && forall i :: 0 <= i < |more| ==> !Cleans(more[i].op)
    ensures RunOk(NoCleanup(evs), t0)
    ensures var m1, m2 := Exec(cfg, map[], evs, t0), Exec(cfg, map[], NoCleanup(evs), t0);
      && Inv(cfg, m1, t) && Inv(cfg, m2, t)
      && (SameTold(cfg, evs + more, t0) <==> AnswersOf(cfg, m1, more, t) == AnswersOf(cfg, m2, more, t))
  {
    StatesAfter(cfg, evs, t0, t);
    CleanupIsUnobservable(cfg, evs, t0);
    ToldFrom(cfg, evs, more, t0, t);
    ToldFrom(cfg, NoCleanup(evs), more, t0, t);
    NothingToClean(more);
    NoCleanupConcat(evs, more);
    SameTail(AnswersOf(cfg, map[], evs, t0), AnswersOf(cfg, Exec(cfg, map[], evs, t0), more, t),
             AnswersOf(cfg, Exec(cfg, map[], NoCleanup(evs), t0), more, t));
  }

  /** Whatever is asked of its key after e, the answers are those of the run without its cleanup. */
  ghost predicate Unnoticed(cfg: Config, evs: seq<Event>, t0: int, e: Event)
    requires Uses(e.op)
  {
    forall rest :: RunOk(rest, e.now) && OnKey(rest, e.op.key) ==> SameTold(cfg, evs + ([e] + rest), t0)
  }

  lemma {:induction false} ToldAfterUse(cfg: Config, evs: seq<Event>, t0: int, e: Event, n1: Buckets, n2: Buckets, ok: bool, rest: seq<Event>)
    requires RunOk(evs, t0) && UsedHarmlessly(cfg, map[], evs, t0, NOTHING) && LastTime(evs, t0) <= e.now
    requires OpOk(e.op) && Uses(e.op) && RunOk(rest, e.now) && OnKey(rest, e.op.key) && Inv(cfg, n1, e.now) && Inv(cfg, n2, e.now)
    requires RunOk(NoCleanup(evs), t0)
    requires KindsMatch(Exec(cfg, map[], evs, t0)) && Step(cfg, Exec(cfg, map[], evs, t0), e) == (n1, ok)
    requires KindsMatch(Exec(cfg, map[], NoCleanup(evs), t0)) && Step(cfg, Exec(cfg, map[], NoCleanup(evs), t0), e) == (n2, ok)
    ensures SameTold(cfg, evs + ([e] + rest), t0) <==> AnswersOf(cfg, n1, rest, e.now) == AnswersOf(cfg, n2, rest, e.now)
  {
    StatesAfter(cfg, evs, t0, e.now);
    AnswersFirst(cfg, Exec(cfg, map[], evs, t0), e, rest, e.now);
    AnswersFirst(cfg, Exec(cfg, map[], NoCleanup(evs), t0), e, rest, e.now);
    SameTail([ok], AnswersOf(cfg, n1, rest, e.now), AnswersOf(cfg, n2, rest, e.now));
    ToldAfter(cfg, evs, t0, [e] + rest, e.now);
  }

  /**
   After any run in which all uses so far were harmless, the next use is harmless exactly if, whatever is asked of
   its key afterwards, the answers are those of the run without its cleanup.
   */
  lemma {:induction false} CleanupNoticedIff(cfg: Config, evs: seq<Event>, t0: int, e: Event)
    requires RunOk(evs, t0) && UsedHarmlessly(cfg, map[], evs, t0, NOTHING)
    requires OpOk(e.op) && Uses(e.op) && LastTime(evs, t0) <= e.now && (e.op.Charge? ==> cfg(e.op.key).quota > 0.0)
    ensures HarmlessNow(cfg, MemoryOf(cfg, map[], evs, t0, NOTHING), e) <==> Unnoticed(cfg, evs, t0, e)
  {
    StatesAfter(cfg, evs, t0, e.now);
    var m1, m2 := Exec(cfg, map[], evs, t0), Exec(cfg, map[], NoCleanup(evs), t0);
    UseNoticedIff(cfg, m1, m2, e, MemoryOf(cfg, map[], evs, t0, NOTHING));
    var (n1, ok) := Step(cfg, m1, e);
    var n2 := Step(cfg, m2, e).0;
    forall rest | RunOk(rest, e.now) && OnKey(rest, e.op.key)
      ensures SameTold(cfg, evs + ([e] + rest), t0) <==> AnswersOf(cfg, n1, rest, e.now) == AnswersOf(cfg, n2, rest, e.now)
    {
      ToldAfterUse(cfg, evs, t0, e, n1, n2, ok, rest);
    }
  }

  // ---- Every gap between creation and first use ----

  /** How long a bucket has to lie idle to be stale. */
  function IdleTime(l: Limits, key: string): int { if IsReqKey(key) then 3 * (l.windowSec * SECOND) else l.periodSec * SECOND + 1 }

  /** A bucket is created, taken away and created anew. */
  function CreatedTwice(l: Limits, key: string): seq<Event> {
    [Event(0, Create(key))] + ([Event(IdleTime(l, key), Evict(key))] + ([Event(IdleTime(l, key), Create(key))] + []))
  }

  lemma {:induction false} HarmlessFirst(cfg: Config, m: Buckets, m': Buckets, e: Event, rest: seq<Event>, t0: int, mem: Memory)
    requires Inv(cfg, m, t0) && OpOk(e.op) && t0 <= e.now && RunOk(rest, e.now) && HarmlessNow(cfg, mem, e)
    requires KindsMatch(m) && Step(cfg, m, e).0 == m' && Inv(cfg, m', e.now)
    requires UsedHarmlessly(cfg, m', rest, e.now, Remember(mem, m, e, m'))
    ensures RunOk([e] + rest, t0) && UsedHarmlessly(cfg, m, [e] + rest, t0, mem)
    ensures LastTime([e] + rest, t0) == LastTime(rest, e.now)
    ensures MemoryOf(cfg, m, [e] + rest, t0, mem) == MemoryOf(cfg, m', rest, e.now, Remember(mem, m, e, m'))
  {
    assert ([e] + rest)[0] == e && ([e] + rest)[1..] == rest;
  }

  lemma NewIsStale(l: Limits, key: string)
    requires IsReqKey(key) || IsQuotaKey(key)
    ensures IdleTime(l, key) > 0 && Stale(NewBucket(l, key, 0), IdleTime(l, key))
  {
    WindowPositive(l);
  }

  lemma {:induction false} CreatedTwiceLeaves(cfg: Config, key: string)
    requires IsReqKey(key) || IsQuotaKey(key)
    ensures var evs := CreatedTwice(cfg(key), key);
      && RunOk(evs, 0) && LastTime(evs, 0) == IdleTime(cfg(key), key) && UsedHarmlessly(cfg, map[], evs, 0, NOTHING)
      && MemoryOf(cfg, map[], evs, 0, NOTHING) == Memory({}, map[key := IdleTime(cfg(key), key)])
  {
    var l := cfg(key);
    var idle := IdleTime(l, key);
    NewIsStale(l, key);
    NewBucketsOk(l, key, 0);
    NewBucketsOk(l, key, idle);
    var create, evict, again := Event(0, Create(key)), Event(idle, Evict(key)), Event(idle, Create(key));
    var first: Buckets := map[key := NewBucket(l, key, 0)];
    var second: Buckets := map[key := NewBucket(l, key, idle)];
    StepKeepsInv(cfg, map[], create, 0);
    StepKeepsInv(cfg, first, evict, 0);
    var none: Buckets := map[];
    assert first - {key} == none && first.Keys - none.Keys == {key};
    assert Remember(NOTHING, first, evict, none) == Memory({key}, map[]);
    assert {key} - {key} == {};
    HarmlessFirst(cfg, map[], second, again, [], idle, Memory({key}, map[]));
    HarmlessFirst(cfg, first, map[], evict, [again] + [], 0, NOTHING);
    HarmlessFirst(cfg, map[], first, create, [evict] + ([again] + []), 0, NOTHING);
  }

  /**
   For every limit, quota and gap d between the creation of a replacement and its first use: cleanup can be noticed
   exactly if 0 < d and d is less than a token's time, or no more than the quota's period.
   */
  lemma {:induction false} LateFirstUseIsNoticedIff(cfg: Config, key: string, d: nat, use: Op)
    requires (use == Request(key) && IsReqKey(key)) || (use.Charge? && use.key == key && IsQuotaKey(key) && cfg(key).quota > 0.0)
    ensures var l := cfg(key); var e := Event(IdleTime(l, key) + d, use);
      !Unnoticed(cfg, CreatedTwice(l, key), 0, e)
      <==> 0 < d && if IsReqKey(key) then d * l.maxReq < l.windowSec * SECOND else d <= l.periodSec * SECOND
  {
    CreatedTwiceLeaves(cfg, key);
    if use.Charge? {
      QuotaKeysAreNotRequestKeys(key);
    }
    CleanupNoticedIff(cfg, CreatedTwice(cfg(key), key), 0, Event(IdleTime(cfg(key), key) + d, use));
  }
}
