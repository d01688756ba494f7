/**
 Whole runs of the limiter's lock regions, in any interleaving: the bounds of LimiterRuns and LimiterQuota hold
 for what passes on buckets that can still be found, and fail by exactly what callers get out of buckets that the
 cleaner took away while they held them.
 */
module LimiterInterleaving {
  import opened BucketKeys
  import opened RateLimiter
  import opened LimiterRuns
  import opened LimiterQuota
  import opened LimiterCleanup
  import opened LimiterRegions

  ghost predicate Possible(cfg: Config, s: State, mvs: seq<Move>, t0: int)
    requires RegionInv(cfg, s, t0)
    decreases |mvs|
  {
    mvs != [] ==>
      && t0 <= mvs[0].now && Enabled(s, mvs[0].act)
      && (MoveKeepsInv(cfg, s, mvs[0], t0); Possible(cfg, Next(cfg, s, mvs[0]), mvs[1..], mvs[0].now))
  }

  ghost function LastMove(mvs: seq<Move>, t0: int): int {
    if mvs == [] then t0 else mvs[|mvs| - 1].now
  }

  ghost function Run(cfg: Config, s: State, mvs: seq<Move>, t0: int): (r: State)
    requires RegionInv(cfg, s, t0) && Possible(cfg, s, mvs, t0)
    ensures RegionInv(cfg, r, LastMove(mvs, t0))
    decreases |mvs|
  {
    if mvs == [] then s
    else
      MoveKeepsInv(cfg, s, mvs[0], t0);
      Run(cfg, Next(cfg, s, mvs[0]), mvs[1..], mvs[0].now)
  }

  /** The operations on findable buckets that the run amounts to. */
  ghost function AtomsOf(cfg: Config, s: State, mvs: seq<Move>, t0: int): seq<Event>
    requires RegionInv(cfg, s, t0) && Possible(cfg, s, mvs, t0)
    decreases |mvs|
  {
    if mvs == [] then []
    else
      MoveKeepsInv(cfg, s, mvs[0], t0);
      Atoms(s, mvs[0]) + AtomsOf(cfg, Next(cfg, s, mvs[0]), mvs[1..], mvs[0].now)
  }

  /** The caller uses a bucket that the cleaner has taken away meanwhile. */
  predicate IsLate(s: State, mv: Move)
    requires WellFormed(s) && Enabled(s, mv.act)
  {
    mv.act.Use? && !Live(s, s.callers[mv.act.caller])
  }

  /** This move admits a request on the key. */
  predicate Passes(s: State, mv: Move, key: string)
    requires WellFormed(s) && Enabled(s, mv.act)
  {
    mv.act.Use? && s.callers[mv.act.caller].op == Request(key) && Told(s, mv)[0]
  }

  /** What this move charges to the key. */
  function Pays(s: State, mv: Move, key: string): real
    requires WellFormed(s) && Enabled(s, mv.act)
  {
    if mv.act.Use? then Gain(Event(mv.now, s.callers[mv.act.caller].op), Told(s, mv)[0], key) else 0.0
  }

  /** How many requests on the key the run admits: all of them, or only the late ones. */
  ghost function Passed(cfg: Config, s: State, mvs: seq<Move>, t0: int, key: string, lateOnly: bool): nat
    requires RegionInv(cfg, s, t0) && Possible(cfg, s, mvs, t0)
    decreases |mvs|
  {
    if mvs == [] then 0
    else
      MoveKeepsInv(cfg, s, mvs[0], t0);
      (if Passes(s, mvs[0], key) && (lateOnly ==> IsLate(s, mvs[0])) then 1 else 0)
      + Passed(cfg, Next(cfg, s, mvs[0]), mvs[1..], mvs[0].now, key, lateOnly)
  }

  /** What the run charges to the key, in all or late. */
  ghost function Paid(cfg: Config, s: State, mvs: seq<Move>, t0: int, key: string, lateOnly: bool): real
    requires RegionInv(cfg, s, t0) && Possible(cfg, s, mvs, t0)
    decreases |mvs|
  {
    if mvs == [] then 0.0
    else
      MoveKeepsInv(cfg, s, mvs[0], t0);
      (if lateOnly ==> IsLate(s, mvs[0]) then Pays(s, mvs[0], key) else 0.0)
      + Paid(cfg, Next(cfg, s, mvs[0]), mvs[1..], mvs[0].now, key, lateOnly)
  }

  /** Everything the callers are told, in order. */
  ghost function AllTold(cfg: Config, s: State, mvs: seq<Move>, t0: int): seq<bool>
    requires RegionInv(cfg, s, t0) && Possible(cfg, s, mvs, t0)
    decreases |mvs|
  {
    if mvs == [] then []
    else
      MoveKeepsInv(cfg, s, mvs[0], t0);
      Told(s, mvs[0]) + AllTold(cfg, Next(cfg, s, mvs[0]), mvs[1..], mvs[0].now)
  }

  // ---- A run of regions is a run of operations ----

  lemma {:induction false} EarlierStart(cfg: Config, m: Buckets, evs: seq<Event>, t0: int, t: int, key: string)
    requires Inv(cfg, m, t0) && t0 <= t && Inv(cfg, m, t) && RunOk(evs, t)
    ensures RunOk(evs, t0) && Exec(cfg, m, evs, t0) == Exec(cfg, m, evs, t)
    ensures Admitted(cfg, m, evs, t0, key) == Admitted(cfg, m, evs, t, key)
    ensures Charged(cfg, m, evs, t0, key) == Charged(cfg, m, evs, t, key)
    ensures AnswersOf(cfg, m, evs, t0) == AnswersOf(cfg, m, evs, t)
  {
  }

  lemma {:induction false} FirstThenRest(cfg: Config, m: Buckets, e: Event, rest: seq<Event>, t0: int, key: string)
    requires Inv(cfg, m, t0) && OpOk(e.op) && t0 <= e.now && RunOk(rest, e.now)
    ensures KindsMatch(m) && Inv(cfg, Step(cfg, m, e).0, e.now) && RunOk([e] + rest, t0)
    ensures var (m', ok) := Step(cfg, m, e); var evs := [e] + rest;
      && Exec(cfg, m, evs, t0) == Exec(cfg, m', rest, e.now)
      && Admitted(cfg, m, evs, t0, key) == (if e.op == Request(key) && ok then 1 else 0) + Admitted(cfg, m', rest, e.now, key)
      && Charged(cfg, m, evs, t0, key) == Gain(e, ok, key) + Charged(cfg, m', rest, e.now, key)
      && AnswersOf(cfg, m, evs, t0) == (if Answers(e.op) then [ok] else []) + AnswersOf(cfg, m', rest, e.now)
  {
    StepKeepsInv(cfg, m, e, t0);
    var evs := [e] + rest;
    assert evs[0] == e && evs[1..] == rest;
  }

  lemma {:induction false} RunRefines(cfg: Config, s: State, mvs: seq<Move>, t0: int)
    requires RegionInv(cfg, s, t0) && Possible(cfg, s, mvs, t0)
    ensures Inv(cfg, Found(s), t0) && RunOk(AtomsOf(cfg, s, mvs, t0), t0)
    ensures Exec(cfg, Found(s), AtomsOf(cfg, s, mvs, t0), t0) == Found(Run(cfg, s, mvs, t0))
    decreases |mvs|
  {
    FoundInv(cfg, s, t0);
    if mvs != [] {
      var mv := mvs[0];
      var s' := Next(cfg, s, mv);
      MoveRefines(cfg, s, mv, t0);
      RunRefines(cfg, s', mvs[1..], mv.now);
      var rest := AtomsOf(cfg, s', mvs[1..], mv.now);
      if Atoms(s, mv) == [] {
        EarlierStart(cfg, Found(s), rest, t0, mv.now, "");
        assert [] + rest == rest;
      } else {
        FirstThenRest(cfg, Found(s), Atoms(s, mv)[0], rest, t0, "");
      }
    }
  }

  lemma MoveCounts(cfg: Config, s: State, mv: Move, t0: int, key: string)
    requires RegionInv(cfg, s, t0) && Enabled(s, mv.act) && t0 <= mv.now
    ensures KindsMatch(Found(s))
    ensures var a := Atoms(s, mv);
      if a == [] then (Passes(s, mv, key) ==> IsLate(s, mv)) && (!IsLate(s, mv) ==> Pays(s, mv, key) == 0.0)
      else
        && OpOk(a[0].op) && !IsLate(s, mv)
        && (Passes(s, mv, key) <==> a[0].op == Request(key) && Step(cfg, Found(s), a[0]).1)
        && Pays(s, mv, key) == Gain(a[0], Step(cfg, Found(s), a[0]).1, key)
  {
    MoveRefines(cfg, s, mv, t0);
  }

  /** What passes is what the operations admit, and what passes late. */
  lemma {:induction false} PassedSplits(cfg: Config, s: State, mvs: seq<Move>, t0: int, key: string)
    requires RegionInv(cfg, s, t0) && Possible(cfg, s, mvs, t0)
    ensures Inv(cfg, Found(s), t0) && RunOk(AtomsOf(cfg, s, mvs, t0), t0)
    ensures Passed(cfg, s, mvs, t0, key, false)
      == Admitted(cfg, Found(s), AtomsOf(cfg, s, mvs, t0), t0, key) + Passed(cfg, s, mvs, t0, key, true)
    ensures Paid(cfg, s, mvs, t0, key, false)
      == Charged(cfg, Found(s), AtomsOf(cfg, s, mvs, t0), t0, key) + Paid(cfg, s, mvs, t0, key, true)
    decreases |mvs|
  {
    RunRefines(cfg, s, mvs, t0);
    if mvs != [] {
      var mv := mvs[0];
      var s' := Next(cfg, s, mv);
      MoveRefines(cfg, s, mv, t0);
      MoveCounts(cfg, s, mv, t0, key);
      PassedSplits(cfg, s', mvs[1..], mv.now, key);
      var rest := AtomsOf(cfg, s', mvs[1..], mv.now);
      if Atoms(s, mv) == [] {
        EarlierStart(cfg, Found(s), rest, t0, mv.now, key);
        assert [] + rest == rest;
      } else {
        FirstThenRest(cfg, Found(s), Atoms(s, mv)[0], rest, t0, key);
      }
    }
  }

  /** A run that starts with one move, without what it counts. */
  lemma {:induction false} FirstMove(cfg: Config, s: State, mv: Move, rest: seq<Move>, t0: int)
    requires RegionInv(cfg, s, t0) && t0 <= mv.now && Enabled(s, mv.act)
    requires RegionInv(cfg, Next(cfg, s, mv), mv.now) && Possible(cfg, Next(cfg, s, mv), rest, mv.now)
    ensures Possible(cfg, s, [mv] + rest, t0)
    ensures Run(cfg, s, [mv] + rest, t0) == Run(cfg, Next(cfg, s, mv), rest, mv.now)
    ensures LastMove([mv] + rest, t0) == LastMove(rest, mv.now)
    ensures AtomsOf(cfg, s, [mv] + rest, t0) == Atoms(s, mv) + AtomsOf(cfg, Next(cfg, s, mv), rest, mv.now)
  {
    var mvs := [mv] + rest;
    assert mvs[0] == mv && mvs[1..] == rest;
  }

  /** The first move of a possible run, and the run that is left. */
  lemma {:induction false} Unfold(cfg: Config, s: State, mvs: seq<Move>, t0: int)
    requires RegionInv(cfg, s, t0) && Possible(cfg, s, mvs, t0) && mvs != []
    ensures t0 <= mvs[0].now && Enabled(s, mvs[0].act)
    ensures RegionInv(cfg, Next(cfg, s, mvs[0]), mvs[0].now)
    ensures Possible(cfg, Next(cfg, s, mvs[0]), mvs[1..], mvs[0].now)
  {
    MoveKeepsInv(cfg, s, mvs[0], t0);
  }

  lemma AtomsAreNow(s: State, mv: Move)
    requires WellFormed(s) && Enabled(s, mv.act)
    ensures forall e :: e in Atoms(s, mv) ==> e.now == mv.now
  {
  }

  lemma {:induction false} AtomTimes(cfg: Config, s: State, mvs: seq<Move>, t0: int)
    requires RegionInv(cfg, s, t0) && Possible(cfg, s, mvs, t0)
    ensures t0 <= LastMove(mvs, t0)
    ensures mvs != [] ==> forall e :: e in AtomsOf(cfg, s, mvs, t0) ==> mvs[0].now <= e.now <= LastMove(mvs, t0)
    decreases |mvs|
  {
    if mvs != [] {
      Unfold(cfg, s, mvs, t0);
      var mv, rest := mvs[0], mvs[1..];
      var s' := Next(cfg, s, mv);
      AtomTimes(cfg, s', rest, mv.now);
      FirstMove(cfg, s, mv, rest, t0);
      assert mvs == [mv] + rest;
      AtomsAreNow(s, mv);
    }
  }

  lemma {:induction false} SplitMoves(cfg: Config, s: State, mvs: seq<Move>, t0: int, i: nat)
    requires RegionInv(cfg, s, t0) && Possible(cfg, s, mvs, t0) && i <= |mvs|
    ensures Possible(cfg, s, mvs[..i], t0)
    ensures Possible(cfg, Run(cfg, s, mvs[..i], t0), mvs[i..], LastMove(mvs[..i], t0))
    decreases |mvs|
  {
    if i == 0 {
      assert mvs[..0] == [] && mvs[0..] == mvs;
    } else {
      Unfold(cfg, s, mvs, t0);
      var mv, rest := mvs[0], mvs[1..];
      SplitMoves(cfg, Next(cfg, s, mv), rest, mv.now, i - 1);
      FirstMove(cfg, s, mv, rest[..i - 1], t0);
      assert mvs[..i] == [mv] + rest[..i - 1] && mvs[i..] == rest[i - 1..];
    }
  }

  /** The instant a run is seen from does not matter, as long as it is no later than the first move. */
  lemma {:induction false} SeenEarlier(cfg: Config, s: State, mvs: seq<Move>, t0: int, t: int, key: string)
    requires RegionInv(cfg, s, t0) && t0 <= t && RegionInv(cfg, s, t) && Possible(cfg, s, mvs, t)
    ensures Possible(cfg, s, mvs, t0) && Run(cfg, s, mvs, t0) == Run(cfg, s, mvs, t)
    ensures forall late :: Passed(cfg, s, mvs, t0, key, late) == Passed(cfg, s, mvs, t, key, late)
    ensures forall late :: Paid(cfg, s, mvs, t0, key, late) == Paid(cfg, s, mvs, t, key, late)
  {
  }

  lemma {:induction false} MoveThenRest(cfg: Config, s: State, mv: Move, rest: seq<Move>, t0: int, key: string)
    requires RegionInv(cfg, s, t0) && t0 <= mv.now && Enabled(s, mv.act)
    requires RegionInv(cfg, Next(cfg, s, mv), mv.now) && Possible(cfg, Next(cfg, s, mv), rest, mv.now)
    ensures Possible(cfg, s, [mv] + rest, t0)
    ensures Run(cfg, s, [mv] + rest, t0) == Run(cfg, Next(cfg, s, mv), rest, mv.now)
    ensures Passed(cfg, s, [mv] + rest, t0, key, false)
      == (if Passes(s, mv, key) then 1 else 0) + Passed(cfg, Next(cfg, s, mv), rest, mv.now, key, false)
    ensures Paid(cfg, s, [mv] + rest, t0, key, false) == Pays(s, mv, key) + Paid(cfg, Next(cfg, s, mv), rest, mv.now, key, false)
  {
    assert ([mv] + rest)[0] == mv && ([mv] + rest)[1..] == rest;
  }

  lemma StartInv(cfg: Config, t0: int)
    ensures RegionInv(cfg, START, t0) && Found(START) == map[]
  {
  }

  // ---- The bounds under every interleaving ----

  lemma {:induction false} PassedWithin(cfg: Config, m: Buckets, a: seq<Event>, t0: int, key: string, first: int, last: int)
    requires Inv(cfg, m, t0) && RunOk(a, t0) && IsReqKey(key) && first <= last
    requires forall e :: e in a ==> first <= e.now <= last
    ensures WithinBound(cfg(key), Admitted(cfg, m, a, t0, key), last - first)
  {
    if a == [] {
      NoneWithinBound(cfg(key));
      WithinLongerSpan(cfg(key), 0, 0, last - first);
    } else {
      IntervalBound(cfg, m, a, t0, key);
      assert a[0] in a && a[|a| - 1] in a;
      WithinLongerSpan(cfg(key), Admitted(cfg, m, a, t0, key), LastTime(a, t0) - a[0].now, last - first);
    }
  }

  lemma {:induction false} StretchPasses(cfg: Config, s: State, mvs: seq<Move>, t0: int, key: string)
    requires RegionInv(cfg, s, t0) && Possible(cfg, s, mvs, t0) && mvs != [] && IsReqKey(key)
    ensures var n := Passed(cfg, s, mvs, t0, key, false); var late := Passed(cfg, s, mvs, t0, key, true);
      WithinBound(cfg(key), n - late, LastMove(mvs, t0) - mvs[0].now)
  {
    PassedSplits(cfg, s, mvs, t0, key);
    AtomTimes(cfg, s, mvs, t0);
    LastAfterFirst(cfg, s, mvs, t0);
    PassedWithin(cfg, Found(s), AtomsOf(cfg, s, mvs, t0), t0, key, mvs[0].now, LastMove(mvs, t0));
  }

  lemma {:induction false} LastAfterFirst(cfg: Config, s: State, mvs: seq<Move>, t0: int)
    requires RegionInv(cfg, s, t0) && Possible(cfg, s, mvs, t0) && mvs != []
    ensures mvs[0].now <= LastMove(mvs, t0)
  {
    Unfold(cfg, s, mvs, t0);
    AtomTimes(cfg, Next(cfg, s, mvs[0]), mvs[1..], mvs[0].now);
    assert LastMove(mvs[1..], mvs[0].now) == LastMove(mvs, t0);
  }

  lemma {:induction false} PassesWithin(cfg: Config, s: State, mvs: seq<Move>, t0: int, key: string, d: int)
    requires RegionInv(cfg, s, t0) && Possible(cfg, s, mvs, t0) && IsReqKey(key)
    requires 0 <= d && (mvs != [] ==> LastMove(mvs, t0) - mvs[0].now <= d)
    ensures WithinBound(cfg(key), Passed(cfg, s, mvs, t0, key, false) - Passed(cfg, s, mvs, t0, key, true), d)
  {
    if mvs == [] {
      NoneWithinBound(cfg(key));
      WithinLongerSpan(cfg(key), 0, 0, d);
    } else {
      StretchPasses(cfg, s, mvs, t0, key);
      LastAfterFirst(cfg, s, mvs, t0);
      WithinLongerSpan(cfg(key), Passed(cfg, s, mvs, t0, key, false) - Passed(cfg, s, mvs, t0, key, true),
                       LastMove(mvs, t0) - mvs[0].now, d);
    }
  }

  /** A stretch of a run from the empty limiter. */
  lemma {:induction false} StretchOf(cfg: Config, mvs: seq<Move>, t0: int, i: nat, j: nat)
    requires RegionInv(cfg, START, t0) && Possible(cfg, START, mvs, t0) && i <= j <= |mvs|
    ensures Possible(cfg, START, mvs[..i], t0)
    ensures Possible(cfg, Run(cfg, START, mvs[..i], t0), mvs[i..j], LastMove(mvs[..i], t0))
  {
    SplitMoves(cfg, START, mvs, t0, i);
    FrontOf(cfg, Run(cfg, START, mvs[..i], t0), mvs[i..], LastMove(mvs[..i], t0), j - i);
    assert mvs[i..][..j - i] == mvs[i..j];
  }

  lemma {:induction false} FrontOf(cfg: Config, s: State, mvs: seq<Move>, t0: int, n: nat)
    requires RegionInv(cfg, s, t0) && Possible(cfg, s, mvs, t0) && n <= |mvs|
    ensures Possible(cfg, s, mvs[..n], t0)
  {
    SplitMoves(cfg, s, mvs, t0, n);
  }

  /**
   In every interleaving from an empty limiter, any stretch that lasts D nanoseconds admits at most
   maxReq + ceil(D * maxReq / window) requests of one key (twice the limit in a window), and besides
   those what passes late.
   */
  lemma {:induction false} PassedInAnyInterval(cfg: Config, mvs: seq<Move>, t0: int, i: nat, j: nat, key: string)
    requires RegionInv(cfg, START, t0) && Possible(cfg, START, mvs, t0) && i < j <= |mvs| && IsReqKey(key)
    ensures (StretchOf(cfg, mvs, t0, i, j);
      var s := Run(cfg, START, mvs[..i], t0); var t1 := LastMove(mvs[..i], t0);
      var n := Passed(cfg, s, mvs[i..j], t1, key, false); var late := Passed(cfg, s, mvs[i..j], t1, key, true);
      WithinBound(cfg(key), n - late, mvs[j - 1].now - mvs[i].now))
  {
    StretchOf(cfg, mvs, t0, i, j);
    StretchPasses(cfg, Run(cfg, START, mvs[..i], t0), mvs[i..j], LastMove(mvs[..i], t0), key);
  }

  lemma {:induction false} StretchPays(cfg: Config, s: State, mvs: seq<Move>, t0: int, key: string)
    requires RegionInv(cfg, s, t0) && Possible(cfg, s, mvs, t0) && mvs != [] && IsQuotaKey(key)
    requires LastMove(mvs, t0) - mvs[0].now <= cfg(key).periodSec * SECOND
    ensures Paid(cfg, s, mvs, t0, key, false) <= 2.0 * cfg(key).quota + Paid(cfg, s, mvs, t0, key, true)
  {
    PassedSplits(cfg, s, mvs, t0, key);
    AtomTimes(cfg, s, mvs, t0);
    var a := AtomsOf(cfg, s, mvs, t0);
    if a != [] {
      assert a[0] in a && a[|a| - 1] in a;
    }
    ChargedAcrossPeriods(cfg, Found(s), a, t0, key);
    LeftWithinQuota(cfg, Found(s), t0, key);
  }

  /** Likewise for quotas: twice the quota in any stretch no longer than the period, and what is charged late. */
  lemma {:induction false} PaidInAnyPeriod(cfg: Config, mvs: seq<Move>, t0: int, i: nat, j: nat, key: string)
    requires RegionInv(cfg, START, t0) && Possible(cfg, START, mvs, t0) && i < j <= |mvs| && IsQuotaKey(key)
    requires mvs[j - 1].now - mvs[i].now <= cfg(key).periodSec * SECOND
    ensures (StretchOf(cfg, mvs, t0, i, j);
      var s := Run(cfg, START, mvs[..i], t0); var t1 := LastMove(mvs[..i], t0);
      Paid(cfg, s, mvs[i..j], t1, key, false) <= 2.0 * cfg(key).quota + Paid(cfg, s, mvs[i..j], t1, key, true))
  {
    StretchOf(cfg, mvs, t0, i, j);
    StretchPays(cfg, Run(cfg, START, mvs[..i], t0), mvs[i..j], LastMove(mvs[..i], t0), key);
  }

  // ---- Who is late ----

  /** Callers holding a bucket of the key that can no longer be found. */
  function Strays(s: State, key: string): set<nat>
    requires WellFormed(s)
  {
    set t | t in s.callers && s.callers[t].op.key == key && !Live(s, s.callers[t])
  }

  /** The callers that the cleaner overtakes with this move: it finds the bucket they hold stale. */
  function Overtaken(s: State, mv: Move, key: string): set<nat>
    requires WellFormed(s) && Enabled(s, mv.act)
  {
    if mv.act == Test(key) && Stale(s.heap[s.ptrs[key]].bucket, s.cleaner.reading)
    then set t | t in s.callers && s.callers[t].ptr == s.ptrs[key] else {}
  }

  ghost function OvertakenIn(cfg: Config, s: State, mvs: seq<Move>, t0: int, key: string): nat
    requires RegionInv(cfg, s, t0) && Possible(cfg, s, mvs, t0)
    decreases |mvs|
  {
    if mvs == [] then 0
    else
      MoveKeepsInv(cfg, s, mvs[0], t0);
      |Overtaken(s, mvs[0], key)| + OvertakenIn(cfg, Next(cfg, s, mvs[0]), mvs[1..], mvs[0].now, key)
  }

  lemma BecomesStray(cfg: Config, s: State, mv: Move, key: string, t: nat)
    requires WellFormed(s) && Enabled(s, mv.act) && WellFormed(Next(cfg, s, mv)) && t in Strays(Next(cfg, s, mv), key)
    ensures t in Strays(s, key) || t in Overtaken(s, mv, key)
  {
    if t in s.callers {
      assert CallerOk(s.callers[t], s.heap);
    }
  }

  /** Only an overtaken caller becomes a stray, and using its bucket ends that. */
  lemma MoveStrays(cfg: Config, s: State, mv: Move, key: string)
    requires WellFormed(s) && Enabled(s, mv.act) && WellFormed(Next(cfg, s, mv))
    ensures Strays(Next(cfg, s, mv), key) <= Strays(s, key) + Overtaken(s, mv, key)
    ensures mv.act.Use? ==> mv.act.caller !in Strays(Next(cfg, s, mv), key)
    ensures IsLate(s, mv) && s.callers[mv.act.caller].op.key == key ==> mv.act.caller in Strays(s, key)
  {
    forall t | t in Strays(Next(cfg, s, mv), key) ensures t in Strays(s, key) + Overtaken(s, mv, key) {
      BecomesStray(cfg, s, mv, key, t);
    }
  }

  lemma StraysShrink(a: set<nat>, b: set<nat>, more: set<nat>, gone: set<nat>)
    requires a <= b + more && gone !! a && gone <= b
    ensures |a| + |gone| <= |b| + |more|
  {
    SubsetSize(a + gone, b + more);
    assert |a + gone| == |a| + |gone|;
    assert |b + more| <= |b| + |more|;
  }

  lemma {:induction false} SubsetSize(a: set<nat>, b: set<nat>)
    requires a <= b
    ensures |a| <= |b|
  {
    assert b == a + (b - a);
  }

  lemma LateStep(cfg: Config, s: State, mv: Move, key: string)
    requires WellFormed(s) && Enabled(s, mv.act) && WellFormed(Next(cfg, s, mv))
    ensures (if Passes(s, mv, key) && IsLate(s, mv) then 1 else 0) + |Strays(Next(cfg, s, mv), key)|
      <= |Strays(s, key)| + |Overtaken(s, mv, key)|
  {
    MoveStrays(cfg, s, mv, key);
    var gone := if IsLate(s, mv) && s.callers[mv.act.caller].op.key == key then {mv.act.caller} else {};
    StraysShrink(Strays(Next(cfg, s, mv), key), Strays(s, key), Overtaken(s, mv, key), gone);
  }

  /** No more requests pass late than callers were overtaken, before the stretch or in it. */
  lemma {:induction false} LateWereOvertaken(cfg: Config, s: State, mvs: seq<Move>, t0: int, key: string)
    requires RegionInv(cfg, s, t0) && Possible(cfg, s, mvs, t0)
    ensures Passed(cfg, s, mvs, t0, key, true) + |Strays(Run(cfg, s, mvs, t0), key)|
      <= |Strays(s, key)| + OvertakenIn(cfg, s, mvs, t0, key)
    decreases |mvs|
  {
    if mvs != [] {
      var mv := mvs[0];
      MoveRefines(cfg, s, mv, t0);
      var s' := Next(cfg, s, mv);
      LateWereOvertaken(cfg, s', mvs[1..], mv.now, key);
      LateStep(cfg, s, mv, key);
    }
  }

  predicate LateUse(s: State, mv: Move, key: string)
    requires WellFormed(s) && Enabled(s, mv.act)
  {
    IsLate(s, mv) && s.callers[mv.act.caller].op.key == key
  }

  /** How often the key is used late. */
  ghost function LateUses(cfg: Config, s: State, mvs: seq<Move>, t0: int, key: string): nat
    requires RegionInv(cfg, s, t0) && Possible(cfg, s, mvs, t0)
    decreases |mvs|
  {
    if mvs == [] then 0
    else
      MoveKeepsInv(cfg, s, mvs[0], t0);
      (if LateUse(s, mvs[0], key) then 1 else 0) + LateUses(cfg, Next(cfg, s, mvs[0]), mvs[1..], mvs[0].now, key)
  }

  lemma ChargeWithinQuota(cfg: Config, s: State, mv: Move, t0: int, key: string)
    requires RegionInv(cfg, s, t0) && Enabled(s, mv.act) && mv.act.Use? && s.callers[mv.act.caller].op.key == key && IsQuotaKey(key)
    ensures Pays(s, mv, key) <= cfg(key).quota
  {
    var c := s.callers[mv.act.caller];
    assert CallerOk(c, s.heap);
    QuotaKeysAreNotRequestKeys(key);
    assert BucketOk(cfg(key), key, s.heap[c.ptr].bucket, t0);
  }

  lemma LateUseStep(cfg: Config, s: State, mv: Move, key: string)
    requires WellFormed(s) && Enabled(s, mv.act) && WellFormed(Next(cfg, s, mv))
    ensures (if LateUse(s, mv, key) then 1 else 0) + |Strays(Next(cfg, s, mv), key)| <= |Strays(s, key)| + |Overtaken(s, mv, key)|
  {
    MoveStrays(cfg, s, mv, key);
    var gone := if LateUse(s, mv, key) then {mv.act.caller} else {};
    StraysShrink(Strays(Next(cfg, s, mv), key), Strays(s, key), Overtaken(s, mv, key), gone);
  }

  lemma {:induction false} LateUsesWereOvertaken(cfg: Config, s: State, mvs: seq<Move>, t0: int, key: string)
    requires RegionInv(cfg, s, t0) && Possible(cfg, s, mvs, t0)
    ensures LateUses(cfg, s, mvs, t0, key) + |Strays(Run(cfg, s, mvs, t0), key)| <= |Strays(s, key)| + OvertakenIn(cfg, s, mvs, t0, key)
    decreases |mvs|
  {
    if mvs != [] {
      MoveKeepsInv(cfg, s, mvs[0], t0);
      LateUsesWereOvertaken(cfg, Next(cfg, s, mvs[0]), mvs[1..], mvs[0].now, key);
      LateUseStep(cfg, s, mvs[0], key);
    }
  }

  /** What a move charges late, if it does. */
  function PaysLate(s: State, mv: Move, key: string): real
    requires WellFormed(s) && Enabled(s, mv.act)
  {
    if IsLate(s, mv) then Pays(s, mv, key) else 0.0
  }

  lemma LateChargeWithinQuota(cfg: Config, s: State, mv: Move, t0: int, key: string)
    requires RegionInv(cfg, s, t0) && Enabled(s, mv.act) && IsQuotaKey(key)
    ensures PaysLate(s, mv, key) <= if LateUse(s, mv, key) then cfg(key).quota else 0.0
  {
    if LateUse(s, mv, key) {
      ChargeWithinQuota(cfg, s, mv, t0, key);
    }
  }

  /** n whole quotas. */
  function Quotas(n: nat, quota: real): real {
    if n == 0 then 0.0 else quota + Quotas(n - 1, quota)
  }

  lemma {:induction false} QuotasAreProducts(n: nat, quota: real)
    ensures Quotas(n, quota) == n as real * quota
  {
    if n > 0 {
      QuotasAreProducts(n - 1, quota);
    }
  }

  lemma {:induction false} FirstLateMove(cfg: Config, s: State, mvs: seq<Move>, t0: int, key: string)
    requires RegionInv(cfg, s, t0) && Possible(cfg, s, mvs, t0) && mvs != []
    ensures Enabled(s, mvs[0].act)
    ensures var s' := Next(cfg, s, mvs[0]);
      && RegionInv(cfg, s', mvs[0].now) && Possible(cfg, s', mvs[1..], mvs[0].now)
      && Paid(cfg, s, mvs, t0, key, true) == PaysLate(s, mvs[0], key) + Paid(cfg, s', mvs[1..], mvs[0].now, key, true)
      && LateUses(cfg, s, mvs, t0, key) == (if LateUse(s, mvs[0], key) then 1 else 0) + LateUses(cfg, s', mvs[1..], mvs[0].now, key)
  {
    MoveKeepsInv(cfg, s, mvs[0], t0);
  }

  lemma {:induction false} LateChargesWithinQuotas(cfg: Config, s: State, mvs: seq<Move>, t0: int, key: string)
    requires RegionInv(cfg, s, t0) && Possible(cfg, s, mvs, t0) && IsQuotaKey(key)
    ensures Paid(cfg, s, mvs, t0, key, true) <= Quotas(LateUses(cfg, s, mvs, t0, key), cfg(key).quota)
    decreases |mvs|
  {
    if mvs != [] {
      var mv := mvs[0];
      FirstLateMove(cfg, s, mvs, t0, key);
      var s' := Next(cfg, s, mv);
      LateChargesWithinQuotas(cfg, s', mvs[1..], mv.now, key);
      LateChargeWithinQuota(cfg, s, mv, t0, key);
      OneMoreCharge(PaysLate(s, mv, key), LateUse(s, mv, key), Paid(cfg, s', mvs[1..], mv.now, key, true),
                    LateUses(cfg, s', mvs[1..], mv.now, key), cfg(key).quota);
    }
  }

  lemma OneMoreCharge(charge: real, late: bool, rest: real, n: nat, quota: real)
    requires charge <= (if late then quota else 0.0) && rest <= Quotas(n, quota)
    ensures charge + rest <= Quotas((if late then 1 else 0) + n, quota)
  {
  }

  /** Nor is more charged late than one quota for every caller overtaken. */
  lemma {:induction false} LateChargesWereOvertaken(cfg: Config, s: State, mvs: seq<Move>, t0: int, key: string)
    requires RegionInv(cfg, s, t0) && Possible(cfg, s, mvs, t0) && IsQuotaKey(key)
    ensures Paid(cfg, s, mvs, t0, key, true) <= Quotas(|Strays(s, key)| + OvertakenIn(cfg, s, mvs, t0, key), cfg(key).quota)
  {
    LateUsesWereOvertaken(cfg, s, mvs, t0, key);
    LateChargesWithinQuotas(cfg, s, mvs, t0, key);
    QuotasGrow(LateUses(cfg, s, mvs, t0, key), |Strays(s, key)| + OvertakenIn(cfg, s, mvs, t0, key), cfg(key).quota);
  }

  lemma {:induction false} QuotasGrow(m: nat, n: nat, quota: real)
    requires m <= n && quota >= 0.0
    ensures Quotas(m, quota) <= Quotas(n, quota)
  {
    if m < n {
      QuotasGrow(m, n - 1, quota);
    }
  }

  // ---- Runs in which nobody is overtaken ----

  /** The cleaner never finds a bucket stale while a caller holds it. */
  ghost predicate Undisturbed(cfg: Config, s: State, mvs: seq<Move>, t0: int)
    requires RegionInv(cfg, s, t0) && Possible(cfg, s, mvs, t0)
    decreases |mvs|
  {
    mvs != [] ==>
      && (mvs[0].act.Test? ==> Overtaken(s, mvs[0], mvs[0].act.key) == {})
      && (MoveKeepsInv(cfg, s, mvs[0], t0); Undisturbed(cfg, Next(cfg, s, mvs[0]), mvs[1..], mvs[0].now))
  }

  predicate AllLive(s: State)
    requires WellFormed(s)
  {
    forall t :: t in s.callers ==> Live(s, s.callers[t])
  }

  lemma MoveKeepsLive(cfg: Config, s: State, mv: Move)
    requires WellFormed(s) && Enabled(s, mv.act) && WellFormed(Next(cfg, s, mv)) && AllLive(s)
    requires mv.act.Test? ==> Overtaken(s, mv, mv.act.key) == {}
    ensures AllLive(Next(cfg, s, mv)) && !IsLate(s, mv)
  {
    var s' := Next(cfg, s, mv);
    forall t | t in s'.callers ensures Live(s', s'.callers[t]) {
      if t in s.callers {
        assert CallerOk(s.callers[t], s.heap) && Live(s, s.callers[t]);
        if mv.act.Test? {
          assert t !in Overtaken(s, mv, mv.act.key);
        }
      }
    }
  }

  lemma {:induction false} NothingIsLate(cfg: Config, s: State, mvs: seq<Move>, t0: int, key: string)
    requires RegionInv(cfg, s, t0) && Possible(cfg, s, mvs, t0) && AllLive(s) && Undisturbed(cfg, s, mvs, t0)
    ensures Passed(cfg, s, mvs, t0, key, true) == 0 && Paid(cfg, s, mvs, t0, key, true) == 0.0
    ensures AllLive(Run(cfg, s, mvs, t0))
    decreases |mvs|
  {
    if mvs != [] {
      MoveRefines(cfg, s, mvs[0], t0);
      MoveKeepsLive(cfg, s, mvs[0]);
      NothingIsLate(cfg, Next(cfg, s, mvs[0]), mvs[1..], mvs[0].now, key);
    }
  }

  lemma {:induction false} UndisturbedParts(cfg: Config, s: State, mvs: seq<Move>, t0: int, i: nat)
    requires RegionInv(cfg, s, t0) && Possible(cfg, s, mvs, t0) && i <= |mvs| && Undisturbed(cfg, s, mvs, t0)
    ensures Possible(cfg, s, mvs[..i], t0) && Undisturbed(cfg, s, mvs[..i], t0)
    ensures var r := Run(cfg, s, mvs[..i], t0); var t := LastMove(mvs[..i], t0);
      Possible(cfg, r, mvs[i..], t) && Undisturbed(cfg, r, mvs[i..], t)
    decreases |mvs|
  {
    SplitMoves(cfg, s, mvs, t0, i);
    if i == 0 {
      assert mvs[..0] == [] && mvs[0..] == mvs;
    } else {
      Unfold(cfg, s, mvs, t0);
      var mv, rest := mvs[0], mvs[1..];
      UndisturbedParts(cfg, Next(cfg, s, mv), rest, mv.now, i - 1);
      FirstMove(cfg, s, mv, rest[..i - 1], t0);
      UndisturbedFirst(cfg, s, mv, rest[..i - 1], t0);
      assert mvs[..i] == [mv] + rest[..i - 1] && mvs[i..] == rest[i - 1..];
    }
  }

  lemma {:induction false} UndisturbedFirst(cfg: Config, s: State, mv: Move, rest: seq<Move>, t0: int)
    requires RegionInv(cfg, s, t0) && t0 <= mv.now && Enabled(s, mv.act)
    requires RegionInv(cfg, Next(cfg, s, mv), mv.now) && Possible(cfg, Next(cfg, s, mv), rest, mv.now)
    requires (mv.act.Test? ==> Overtaken(s, mv, mv.act.key) == {}) && Undisturbed(cfg, Next(cfg, s, mv), rest, mv.now)
    ensures Possible(cfg, s, [mv] + rest, t0) && Undisturbed(cfg, s, [mv] + rest, t0)
  {
    var mvs := [mv] + rest;
    assert mvs[0] == mv && mvs[1..] == rest;
  }

  /** If no caller is ever overtaken, the bounds hold for everything that passes or is charged. */
  lemma {:induction false} UndisturbedBounds(cfg: Config, mvs: seq<Move>, t0: int, i: nat, j: nat, key: string)
    requires RegionInv(cfg, START, t0) && Possible(cfg, START, mvs, t0) && i < j <= |mvs|
    requires Undisturbed(cfg, START, mvs, t0)
    ensures (StretchOf(cfg, mvs, t0, i, j);
      var s := Run(cfg, START, mvs[..i], t0); var t1 := LastMove(mvs[..i], t0); var d := mvs[j - 1].now - mvs[i].now;
      && (IsReqKey(key) ==> WithinBound(cfg(key), Passed(cfg, s, mvs[i..j], t1, key, false), d))
      && (IsQuotaKey(key) && d <= cfg(key).periodSec * SECOND ==>
         Paid(cfg, s, mvs[i..j], t1, key, false) <= 2.0 * cfg(key).quota))
  {
    StretchOf(cfg, mvs, t0, i, j);
    UndisturbedParts(cfg, START, mvs, t0, i);
    NothingIsLate(cfg, START, mvs[..i], t0, key);
    var s := Run(cfg, START, mvs[..i], t0);
    var t1 := LastMove(mvs[..i], t0);
    UndisturbedParts(cfg, s, mvs[i..], t1, j - i);
    assert mvs[i..][..j - i] == mvs[i..j];
    NothingIsLate(cfg, s, mvs[i..j], t1, key);
    if IsReqKey(key) {
      PassedInAnyInterval(cfg, mvs, t0, i, j, key);
    }
    if IsQuotaKey(key) && mvs[j - 1].now - mvs[i].now <= cfg(key).periodSec * SECOND {
      PaidInAnyPeriod(cfg, mvs, t0, i, j, key);
    }
  }

  lemma {:induction false} ToldByAtoms(cfg: Config, s: State, mvs: seq<Move>, t0: int)
    requires RegionInv(cfg, s, t0) && Possible(cfg, s, mvs, t0) && AllLive(s) && Undisturbed(cfg, s, mvs, t0)
    ensures Inv(cfg, Found(s), t0) && RunOk(AtomsOf(cfg, s, mvs, t0), t0)
    ensures AllTold(cfg, s, mvs, t0) == AnswersOf(cfg, Found(s), AtomsOf(cfg, s, mvs, t0), t0)
    decreases |mvs|
  {
    RunRefines(cfg, s, mvs, t0);
    if mvs != [] {
      var mv := mvs[0];
      var s' := Next(cfg, s, mv);
      MoveRefines(cfg, s, mv, t0);
      MoveKeepsLive(cfg, s, mv);
      ToldByAtoms(cfg, s', mvs[1..], mv.now);
      RunRefines(cfg, s', mvs[1..], mv.now);
      var rest := AtomsOf(cfg, s', mvs[1..], mv.now);
      if Atoms(s, mv) == [] {
        EarlierStart(cfg, Found(s), rest, t0, mv.now, "");
        assert Told(s, mv) == [];
        assert [] + rest == rest;
      } else {
        FirstThenRest(cfg, Found(s), Atoms(s, mv)[0], rest, t0, "");
      }
    }
  }

  /** Seen as a run of operations, the run uses every bucket that replaces one taken away harmlessly at first. */
  ghost predicate ReplacedHarmlessly(cfg: Config, mvs: seq<Move>, t0: int)
    requires RegionInv(cfg, START, t0) && Possible(cfg, START, mvs, t0)
  {
    RunRefines(cfg, START, mvs, t0);
    UsedHarmlessly(cfg, map[], AtomsOf(cfg, START, mvs, t0), t0, NOTHING)
  }

  /**
   If no caller is ever overtaken and the buckets that the cleaner takes away are replaced harmlessly, callers are
   told exactly what a limiter without any cleanup would tell them.
   */
  lemma {:induction false} InterleavedCleanupIsUnobservable(cfg: Config, mvs: seq<Move>, t0: int)
    requires RegionInv(cfg, START, t0) && Possible(cfg, START, mvs, t0) && Undisturbed(cfg, START, mvs, t0)
    requires ReplacedHarmlessly(cfg, mvs, t0)
    ensures RunOk(AtomsOf(cfg, START, mvs, t0), t0) && RunOk(NoCleanup(AtomsOf(cfg, START, mvs, t0)), t0)
    ensures AllTold(cfg, START, mvs, t0) == AnswersOf(cfg, map[], NoCleanup(AtomsOf(cfg, START, mvs, t0)), t0)
  {
    StartInv(cfg, t0);
    ToldByAtoms(cfg, START, mvs, t0);
    CleanupIsUnobservable(cfg, AtomsOf(cfg, START, mvs, t0), t0);
  }
}
