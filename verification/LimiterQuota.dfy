/**
 Fixed-period quotas over whole runs: what one key is charged in any stretch no longer than its
 period stays within twice the quota, because such a stretch meets at most one rollover.
 */
module LimiterQuota {
  import opened BucketKeys
  import opened RateLimiter
  import opened LimiterRuns

  /** The total amount the run admits on a quota key. */
  ghost function Charged(cfg: Config, m: Buckets, evs: seq<Event>, t0: int, key: string): real
    requires Inv(cfg, m, t0) && RunOk(evs, t0)
    decreases |evs|
  {
    if evs == [] then 0.0
    else
      StepKeepsInv(cfg, m, evs[0], t0);
      var (m', ok) := Step(cfg, m, evs[0]);
      Gain(evs[0], ok, key) + Charged(cfg, m', evs[1..], evs[0].now, key)
  }

  function Gain(e: Event, ok: bool, key: string): real {
    if e.op.Charge? && e.op.key == key && ok then e.op.amount else 0.0
  }

  /** What the current period still allows, nothing if there is no bucket yet. */
  ghost function Left(cfg: Config, m: Buckets, key: string): real {
    if key in m then m[key].quota - m[key].used else 0.0
  }

  /** A bucket whose period lasts until `until`. */
  ghost predicate OpenUntil(m: Buckets, key: string, until: int) {
    key in m && m[key].resetAt >= until
  }

  /** Within the current period a step takes what it admits out of what is left. */
  lemma StepInPeriod(cfg: Config, m: Buckets, e: Event, t0: int, key: string, until: int)
    requires Inv(cfg, m, t0) && OpOk(e.op) && IsQuotaKey(key) && t0 <= e.now <= until
    requires OpenUntil(m, key, until)
    ensures KindsMatch(m)
    ensures var (m', ok) := Step(cfg, m, e);
      OpenUntil(m', key, until) && Left(cfg, m', key) + Gain(e, ok, key) == Left(cfg, m, key)
  {
    StepKeepsInv(cfg, m, e, t0);
    QuotaKeysAreNotRequestKeys(key);
    assert BucketOk(cfg(key), key, m[key], t0);
  }

  /** A step outside it, or with no bucket, may open one new period, with a whole quota. */
  lemma StepAcrossPeriods(cfg: Config, m: Buckets, e: Event, t0: int, key: string, until: int)
    requires Inv(cfg, m, t0) && OpOk(e.op) && IsQuotaKey(key) && t0 <= e.now
    requires until <= e.now + cfg(key).periodSec * SECOND
    ensures KindsMatch(m)
    ensures var (m', ok) := Step(cfg, m, e);
      var gain := Gain(e, ok, key);
      || (OpenUntil(m', key, until) && Left(cfg, m', key) + gain == cfg(key).quota)
      || Left(cfg, m', key) + gain <= Left(cfg, m, key)
  {
    StepKeepsInv(cfg, m, e, t0);
    QuotaKeysAreNotRequestKeys(key);
    if key in m {
      assert BucketOk(cfg(key), key, m[key], t0);
    }
  }

  lemma {:induction false} ChargedInPeriod(cfg: Config, m: Buckets, evs: seq<Event>, t0: int, key: string)
    requires Inv(cfg, m, t0) && RunOk(evs, t0) && IsQuotaKey(key)
    requires OpenUntil(m, key, LastTime(evs, t0))
    ensures Charged(cfg, m, evs, t0, key) <= Left(cfg, m, key)
    decreases |evs|
  {
    if evs == [] {
      QuotaKeysAreNotRequestKeys(key);
      assert BucketOk(cfg(key), key, m[key], t0);
    } else {
      var e := evs[0];
      TimesAscend(evs, t0);
      StepInPeriod(cfg, m, e, t0, key, LastTime(evs, t0));
      StepKeepsInv(cfg, m, e, t0);
      assert LastTime(evs, t0) == LastTime(evs[1..], e.now);
      ChargedInPeriod(cfg, Step(cfg, m, e).0, evs[1..], e.now, key);
    }
  }

  lemma LeftWithinQuota(cfg: Config, m: Buckets, t: int, key: string)
    requires Inv(cfg, m, t) && IsQuotaKey(key)
    ensures 0.0 <= Left(cfg, m, key) <= cfg(key).quota
  {
    QuotaKeysAreNotRequestKeys(key);
    if key in m {
      assert BucketOk(cfg(key), key, m[key], t);
    }
  }

  lemma {:induction false} ChargedAcrossPeriods(cfg: Config, m: Buckets, evs: seq<Event>, t0: int, key: string)
    requires Inv(cfg, m, t0) && RunOk(evs, t0) && IsQuotaKey(key)
    requires evs != [] ==> LastTime(evs, t0) <= evs[0].now + cfg(key).periodSec * SECOND
    ensures Charged(cfg, m, evs, t0, key) <= Left(cfg, m, key) + cfg(key).quota
    decreases |evs|
  {
    LeftWithinQuota(cfg, m, t0, key);
    if evs != [] {
      var e := evs[0];
      var last := LastTime(evs, t0);
      assert last == LastTime(evs[1..], e.now);
      StepAcrossPeriods(cfg, m, e, t0, key, last);
      StepKeepsInv(cfg, m, e, t0);
      var m' := Step(cfg, m, e).0;
      if OpenUntil(m', key, last) {
        ChargedInPeriod(cfg, m', evs[1..], e.now, key);
        LeftWithinQuota(cfg, m', e.now, key);
        OneQuotaEach(cfg, m, e, t0, key);
      } else {
        if |evs| > 1 {
          assert RunOk(evs[1..], e.now) && evs[1..][0] == evs[1];
        }
        ChargedAcrossPeriods(cfg, m', evs[1..], e.now, key);
      }
    }
  }

  /** No single step admits more than what is left plus one quota. */
  lemma OneQuotaEach(cfg: Config, m: Buckets, e: Event, t0: int, key: string)
    requires Inv(cfg, m, t0) && OpOk(e.op) && IsQuotaKey(key) && t0 <= e.now
    ensures KindsMatch(m)
    ensures var (m', ok) := Step(cfg, m, e);
      Left(cfg, m', key) + Gain(e, ok, key) <= Left(cfg, m, key) + cfg(key).quota
  {
    StepKeepsInv(cfg, m, e, t0);
    LeftWithinQuota(cfg, m, t0, key);
    StepAcrossPeriods(cfg, m, e, t0, key, e.now);
  }

  /**
   In every run from an empty limiter, cleanup ticks included, what any stretch no longer than the
   period charges to one key is at most twice its quota.
   */
  lemma {:induction false} ChargedInAnyPeriod(cfg: Config, evs: seq<Event>, t0: int, i: nat, j: nat, key: string)
    requires RunOk(evs, t0) && i < j <= |evs| && IsQuotaKey(key)
    requires evs[j - 1].now - evs[i].now <= cfg(key).periodSec * SECOND
    ensures RunOk(evs[..i], t0) && RunOk(evs[i..j], LastTime(evs[..i], t0))
    ensures var before := Exec(cfg, map[], evs[..i], t0);
      var t1 := LastTime(evs[..i], t0);
      var total := (ExecKeepsInv(cfg, map[], evs[..i], t0); Charged(cfg, before, evs[i..j], t1, key));
      total <= 2.0 * cfg(key).quota
  {
    SplitRun(evs, t0, i);
    var t1 := LastTime(evs[..i], t0);
    SplitRun(evs[i..], t1, j - i);
    assert evs[i..][..j - i] == evs[i..j];
    ExecKeepsInv(cfg, map[], evs[..i], t0);
    var before := Exec(cfg, map[], evs[..i], t0);
    ChargedAcrossPeriods(cfg, before, evs[i..j], t1, key);
    LeftWithinQuota(cfg, before, t1, key);
  }

  /**
   The bound is reached within one nanosecond: a whole quota just before the rollover and a whole
   quota just after it.
   */
  lemma {:induction false} TwiceTheQuotaAtARollover(cfg: Config, key: string)
    requires IsQuotaKey(key)
    ensures var l := cfg(key); var p := l.periodSec * SECOND;
      var m := map[key := NewQuotaBucket(l.quota, l.periodSec, 0)];
      var evs := [Event(p, Charge(key, l.quota)), Event(p + 1, Charge(key, l.quota))];
      && Inv(cfg, m, 0) && RunOk(evs, 0)
      && m == Step(cfg, map[], Event(0, Charge(key, 0.0))).0
      && Charged(cfg, m, evs, 0, key) == 2.0 * l.quota
  {
    QuotaKeysAreNotRequestKeys(key);
    var l := cfg(key);
    var p := l.periodSec * SECOND;
    var m := map[key := NewQuotaBucket(l.quota, l.periodSec, 0)];
    var e1, e2 := Event(p, Charge(key, l.quota)), Event(p + 1, Charge(key, l.quota));
    StepKeepsInv(cfg, map[], Event(0, Charge(key, 0.0)), 0);
    assert [e1, e2][1..] == [e2] && [e2][1..] == [];
    StepKeepsInv(cfg, m, e1, 0);
    var (m1, ok1) := Step(cfg, m, e1);
    assert ok1 && m1[key].used == l.quota && m1[key].resetAt == p;
    StepKeepsInv(cfg, m1, e2, p);
    assert Step(cfg, m1, e2).1;
    ChargedOne(cfg, m1, e2, p, key);
  }

  lemma {:induction false} ChargedOne(cfg: Config, m: Buckets, e: Event, t0: int, key: string)
    requires Inv(cfg, m, t0) && OpOk(e.op) && t0 <= e.now
    ensures KindsMatch(m)
    ensures RunOk([e], t0) && Charged(cfg, m, [e], t0, key) == Gain(e, Step(cfg, m, e).1, key)
  {
    StepKeepsInv(cfg, m, e, t0);
    assert [e][1..] == [];
  }
}
