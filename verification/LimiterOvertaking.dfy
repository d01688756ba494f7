/**
 What callers overtaken by the cleaner can do to the bounds. From any state, with any other callers and the cleaner
 anywhere, some continuation in which nobody else is overtaken exceeds the bound of a key exactly if somebody holds a
 forgotten bucket of it and something to ask of it; and the excess can be as large as the number of those callers.
 Request and quota keys are treated alike: a pass counts one, a charge its amount.
 */
module LimiterOvertaking {
  import opened BucketKeys
  import opened RateLimiter
  import opened LimiterRuns
  import opened LimiterQuota
  import opened LimiterCleanup
  import opened LimiterNotice
  import opened LimiterRegions
  import opened LimiterInterleaving

  // ---- Both kinds of keys alike ----

  predicate LimitKey(key: string) { IsReqKey(key) || IsQuotaKey(key) }

  /** The limit or the quota. */
  function Allowance(l: Limits, key: string): real { if IsReqKey(key) then l.maxReq as real else l.quota }

  /** The window or the period. */
  function Span(l: Limits, key: string): int { (if IsReqKey(key) then l.windowSec else l.periodSec) * SECOND }

  /** The most that this use can ever let through or charge. */
  function Claim(l: Limits, op: Op): (r: real)
    requires Answers(op)
    ensures op.Charge? && l.quota < op.amount ==> r == 0.0
  {
    match op
    case Request(_) => 1.0
    case Charge(_, amount) => if amount <= l.quota then amount else 0.0
    case _ => 0.0
  }

  /** What the bucket still lets through or takes at this instant. */
  function Room(l: Limits, key: string, b: Bucket, now: int): real
    requires IsReqKey(key) ==> b.windowSec > 0
  {
    if IsReqKey(key) then Refilled(b, now).tokens as real else l.quota - RolledOver(b, now).used
  }

  function Worth(s: State, mv: Move, key: string): real
    requires WellFormed(s) && Enabled(s, mv.act)
  {
    if IsReqKey(key) then (if Passes(s, mv, key) then 1.0 else 0.0) else Pays(s, mv, key)
  }

  /** How many requests a run lets through, or how much it charges. */
  ghost function Got(cfg: Config, s: State, mvs: seq<Move>, t0: int, key: string): real
    requires RegionInv(cfg, s, t0) && Possible(cfg, s, mvs, t0)
  {
    if IsReqKey(key) then Passed(cfg, s, mvs, t0, key, false) as real else Paid(cfg, s, mvs, t0, key, false)
  }

  lemma {:induction false} GotFirst(cfg: Config, s: State, mv: Move, rest: seq<Move>, t0: int, key: string)
    requires RegionInv(cfg, s, t0) && t0 <= mv.now && Enabled(s, mv.act)
    requires RegionInv(cfg, Next(cfg, s, mv), mv.now) && Possible(cfg, Next(cfg, s, mv), rest, mv.now)
    ensures Possible(cfg, s, [mv] + rest, t0)
    ensures Got(cfg, s, [mv] + rest, t0, key) == Worth(s, mv, key) + Got(cfg, Next(cfg, s, mv), rest, mv.now, key)
  {
    MoveThenRest(cfg, s, mv, rest, t0, key);
  }

  /** A use within the room of its bucket gets its claim, and leaves that much less room. */
  lemma UseTakes(l: Limits, op: Op, b: Bucket, now: int)
    requires Answers(op) && OpOk(op) && BucketOk(l, op.key, b, now)
    requires (IsReqKey(op.key) ==> b.windowSec > 0) && Claim(l, op) <= Room(l, op.key, b, now)
    ensures var (c, ok) := UseBucket(op, b, now);
      && (IsReqKey(op.key) ==> c.windowSec > 0)
      && Room(l, op.key, c, now) == Room(l, op.key, b, now) - Claim(l, op)
      && (op.Request? ==> ok) && Claim(l, op) == if op.Request? then 1.0 else Gain(Event(now, op), ok, op.key)
  {
    WindowPositive(l);
    if op.Charge? {
      QuotaKeysAreNotRequestKeys(op.key);
    } else {
      RefilledTwice(b, now);
    }
  }

  lemma RefilledTwice(b: Bucket, now: int)
    requires b.windowSec > 0
    ensures var c := Refilled(b, now);
      Refilled(c, now).tokens == c.tokens && Refilled(c.(tokens := c.tokens - 1), now).tokens == c.tokens - 1
  {
    var c := Refilled(b, now);
    if Refill(b, now) > 0 {
      assert (now - c.lastRefill) * c.maxTokens == 0;
    } else {
      assert Refill(c.(tokens := c.tokens - 1), now) == Refill(b, now);
    }
  }

  /** After a whole window, or past the period, any bucket has all its room. */
  lemma AllRoomLater(l: Limits, key: string, b: Bucket, t: int, now: int)
    requires LimitKey(key) && BucketOk(l, key, b, t)
    requires if IsReqKey(key) then t + Span(l, key) <= now else t + Span(l, key) < now
    ensures (IsReqKey(key) ==> b.windowSec > 0) && Room(l, key, b, now) == Allowance(l, key)
  {
    if IsReqKey(key) {
      var w := l.windowSec * SECOND;
      var earned := (now - b.lastRefill) * b.maxTokens;
      MulLe(w, now - b.lastRefill, b.maxTokens);
      QuotientAtLeast(earned, w, b.maxTokens);
      assert Refill(b, now) == earned / w;
    }
  }

  lemma NewHasRoom(l: Limits, key: string, now: int)
    requires LimitKey(key)
    ensures var b := NewBucket(l, key, now);
      (IsReqKey(key) ==> b.windowSec > 0) && BucketOk(l, key, b, now) && Room(l, key, b, now) == Allowance(l, key)
  {
    NewBucketsOk(l, key, now);
    WindowPositive(l);
    FreshRefillsNothing(l, now);
  }

  // ---- Runs put together ----

  predicate Quiet(mvs: seq<Move>) { forall i :: 0 <= i < |mvs| ==> !mvs[i].act.Test? }

  /** `mvs` leads from s at t0 to r at t1, starting at `from`, and gets this much; if quiet, the cleaner tests nothing. */
  ghost predicate Goes(cfg: Config, s: State, t0: int, from: int, mvs: seq<Move>, r: State, t1: int, key: string, got: real, quiet: bool) {
    && RegionInv(cfg, s, t0) && RegionInv(cfg, r, t1) && t0 <= t1
    && Possible(cfg, s, mvs, t0) && LastMove(mvs, t0) == t1 && (mvs != [] ==> mvs[0].now == from)
    && Run(cfg, s, mvs, t0) == r && Got(cfg, s, mvs, t0, key) == got && (quiet ==> Quiet(mvs))
  }

  lemma GoesNowhere(cfg: Config, s: State, t0: int, from: int, key: string)
    requires RegionInv(cfg, s, t0)
    ensures Goes(cfg, s, t0, from, [], s, t0, key, 0.0, true)
  {
  }

  lemma {:induction false} GoesOne(cfg: Config, s: State, t0: int, mv: Move, key: string)
    requires RegionInv(cfg, s, t0) && t0 <= mv.now && Enabled(s, mv.act)
    ensures Goes(cfg, s, t0, mv.now, [mv], Next(cfg, s, mv), mv.now, key, Worth(s, mv, key), !mv.act.Test?)
  {
    MoveKeepsInv(cfg, s, mv, t0);
    GotFirst(cfg, s, mv, [], t0, key);
    FirstMove(cfg, s, mv, [], t0);
    assert [mv] + [] == [mv];
  }

  lemma {:induction false} RunsJoin(cfg: Config, s: State, a: seq<Move>, b: seq<Move>, t0: int, key: string)
    requires RegionInv(cfg, s, t0) && Possible(cfg, s, a, t0)
    requires Possible(cfg, Run(cfg, s, a, t0), b, LastMove(a, t0))
    ensures Possible(cfg, s, a + b, t0)
    ensures Run(cfg, s, a + b, t0) == Run(cfg, Run(cfg, s, a, t0), b, LastMove(a, t0))
    ensures LastMove(a + b, t0) == LastMove(b, LastMove(a, t0))
    ensures Got(cfg, s, a + b, t0, key) == Got(cfg, s, a, t0, key) + Got(cfg, Run(cfg, s, a, t0), b, LastMove(a, t0), key)
    decreases |a|
  {
    if a == [] {
      assert a + b == b;
    } else {
      var mv, rest := a[0], a[1..];
      Unfold(cfg, s, a, t0);
      var s' := Next(cfg, s, mv);
      assert a == [mv] + rest && a + b == [mv] + (rest + b);
      FirstMove(cfg, s, mv, rest, t0);
      GotFirst(cfg, s, mv, rest, t0, key);
      RunsJoin(cfg, s', rest, b, mv.now, key);
      FirstMove(cfg, s, mv, rest + b, t0);
      GotFirst(cfg, s, mv, rest + b, t0, key);
    }
  }

  lemma {:induction false} GoesBoth(cfg: Config, s: State, t0: int, from: int, a: seq<Move>, q: State, t: int, from': int, b: seq<Move>, r: State, t1: int,
                                    key: string, x: real, y: real, quiet: bool)
    requires Goes(cfg, s, t0, from, a, q, t, key, x, quiet) && Goes(cfg, q, t, from', b, r, t1, key, y, quiet)
    requires a == [] ==> from == from'
    ensures Goes(cfg, s, t0, from, a + b, r, t1, key, x + y, quiet)
  {
    RunsJoin(cfg, s, a, b, t0, key);
  }

  lemma {:induction false} QuietIsUndisturbed(cfg: Config, s: State, mvs: seq<Move>, t0: int)
    requires RegionInv(cfg, s, t0) && Possible(cfg, s, mvs, t0) && Quiet(mvs)
    ensures Undisturbed(cfg, s, mvs, t0)
    decreases |mvs|
  {
    if mvs != [] {
      Unfold(cfg, s, mvs, t0);
      QuietIsUndisturbed(cfg, Next(cfg, s, mvs[0]), mvs[1..], mvs[0].now);
    }
  }

  lemma RegionInvLater(cfg: Config, s: State, t: int, t': int)
    requires RegionInv(cfg, s, t) && t <= t'
    ensures RegionInv(cfg, s, t')
  {
    BucketsOkLater(cfg, s.heap, t, t');
  }

  // ---- The cleaner comes to an end ----

  lemma {:induction false} DeleteAll(cfg: Config, s: State, t: int, key: string) returns (mvs: seq<Move>, r: State)
    requires RegionInv(cfg, s, t) && s.cleaner.Cleaning?
    ensures Goes(cfg, s, t, t, mvs, r, t, key, 0.0, true)
    ensures r == s.(ptrs := s.ptrs - s.cleaner.condemned, cleaner := Cleaning(s.cleaner.reading, {}))
    decreases s.cleaner.condemned
  {
    if s.cleaner.condemned == {} {
      GoesNowhere(cfg, s, t, t, key);
      assert s.ptrs - {} == s.ptrs;
      mvs, r := [], s;
    } else {
      var k :| k in s.cleaner.condemned;
      var mv := Move(t, Delete(k));
      GoesOne(cfg, s, t, mv, key);
      var q := Next(cfg, s, mv);
      var rest;
      rest, r := DeleteAll(cfg, q, t, key);
      GoesBoth(cfg, s, t, t, [mv], q, t, t, rest, r, t, key, 0.0, 0.0, true);
      mvs := [mv] + rest;
      assert (s.ptrs - {k}) - (s.cleaner.condemned - {k}) == s.ptrs - s.cleaner.condemned;
    }
  }

  /** Wherever the cleaner is, it can end its round without testing another bucket. */
  lemma {:induction false} EndRound(cfg: Config, s: State, t: int, key: string) returns (mvs: seq<Move>, r: State)
    requires RegionInv(cfg, s, t)
    ensures Goes(cfg, s, t, t, mvs, r, t, key, 0.0, true)
    ensures r == s.(ptrs := s.ptrs - Condemned(s), cleaner := Idle)
  {
    if s.cleaner.Idle? {
      GoesNowhere(cfg, s, t, t, key);
      assert s.ptrs - {} == s.ptrs;
      mvs, r := [], s;
    } else {
      var a: seq<Move>, q, b, p := [], s, [], s;
      GoesNowhere(cfg, s, t, t, key);
      if s.cleaner.Waiting? {
        a := [Move(t, Lock)];
        GoesOne(cfg, s, t, a[0], key);
        q := Next(cfg, s, a[0]);
      }
      b, p := DeleteAll(cfg, q, t, key);
      var unlock := Move(t, Unlock);
      GoesOne(cfg, p, t, unlock, key);
      r := Next(cfg, p, unlock);
      GoesBoth(cfg, s, t, t, a, q, t, t, b, p, t, key, 0.0, 0.0, true);
      GoesBoth(cfg, s, t, t, a + b, p, t, t, [unlock], r, t, key, 0.0, 0.0, true);
      mvs := a + b + [unlock];
    }
  }

  // ---- A new caller asks and is answered ----

  lemma {:induction false} FreeCaller(taken: set<nat>) returns (t: nat)
    ensures t !in taken && forall k :: k in taken ==> k < t
  {
    if taken == {} {
      t := 0;
    } else {
      var k :| k in taken;
      var rest := taken - {k};
      var n := FreeCaller(rest);
      t := if n <= k then k + 1 else n;
      forall j | j in taken ensures j < t {
        assert j == k || j in rest;
      }
    }
  }

  /** The bucket that a caller gets for the key. */
  function BucketFor(cfg: Config, s: State, key: string, now: int): Bucket
    requires WellFormed(s)
  {
    if key in s.ptrs then s.heap[s.ptrs[key]].bucket else NewBucket(cfg(key), key, now)
  }

  /** The same callers, and the same buckets but for the key's own. */
  predicate OthersSame(s: State, r: State, key: string) {
    && r.callers == s.callers && |s.heap| <= |r.heap|
    && forall p :: 0 <= p < |s.heap| && !(key in s.ptrs && p == s.ptrs[key]) ==> r.heap[p] == s.heap[p]
  }

  /** The first half of a round: a new caller gets the key's bucket. */
  lemma {:induction false} GetRound(cfg: Config, s: State, t0: int, now: int, id: nat, op: Op) returns (q: State)
    requires RegionInv(cfg, s, t0) && t0 <= now && s.cleaner.Idle? && Uses(op) && OpOk(op) && LimitKey(op.key) && id !in s.callers
    ensures Goes(cfg, s, t0, now, [Move(now, Get(id, op))], q, now, op.key, 0.0, true)
    ensures RegionInv(cfg, q, now) && q.cleaner.Idle? && op.key in q.ptrs && q.callers == s.callers[id := Caller(op, q.ptrs[op.key])]
    ensures q.heap[q.ptrs[op.key]].bucket == BucketFor(cfg, s, op.key, now) && |s.heap| <= |q.heap|
    ensures forall p :: 0 <= p < |s.heap| ==> q.heap[p] == s.heap[p]
    ensures if op.key in s.ptrs then q.ptrs == s.ptrs else q.ptrs[op.key] == |s.heap|
  {
    var get := Move(now, Get(id, op));
    q := Next(cfg, s, get);
    GoesOne(cfg, s, t0, get, op.key);
  }

  /** The second half: it uses the bucket. */
  lemma {:induction false} UseRound(cfg: Config, q: State, t0: int, now: int, id: nat, op: Op) returns (r: State)
    requires RegionInv(cfg, q, t0) && t0 <= now && Uses(op) && OpOk(op) && LimitKey(op.key) && id in q.callers && q.callers[id].op == op
    requires var b := q.heap[q.callers[id].ptr].bucket;
      (IsReqKey(op.key) ==> b.windowSec > 0) && Claim(cfg(op.key), op) <= Room(cfg(op.key), op.key, b, now)
    ensures Goes(cfg, q, t0, now, [Move(now, Use(id))], r, now, op.key, Claim(cfg(op.key), op), true)
    ensures RegionInv(cfg, r, now) && r.cleaner == q.cleaner && r.ptrs == q.ptrs && r.callers == q.callers - {id} && |r.heap| == |q.heap|
    ensures var p := q.callers[id].ptr; var b := UseBucket(op, q.heap[p].bucket, now).0;
      && r.heap[p].bucket == b && r.heap[p].key == q.heap[p].key && (IsReqKey(op.key) ==> b.windowSec > 0)
      && Room(cfg(op.key), op.key, b, now) == Room(cfg(op.key), op.key, q.heap[p].bucket, now) - Claim(cfg(op.key), op)
    ensures forall p :: 0 <= p < |q.heap| && p != q.callers[id].ptr ==> r.heap[p] == q.heap[p]
  {
    var use := Move(now, Use(id));
    r := Next(cfg, q, use);
    RegionInvLater(cfg, q, t0, now);
    GoesOne(cfg, q, t0, use, op.key);
    var p := q.callers[id].ptr;
    assert CallerOk(q.callers[id], q.heap);
    assert BucketOk(cfg(q.heap[p].key), q.heap[p].key, q.heap[p].bucket, now);
    UseTakes(cfg(op.key), op, q.heap[p].bucket, now);
    WorthOfUse(cfg, q, id, op, now);
  }

  lemma {:induction false} Round(cfg: Config, s: State, t0: int, now: int, key: string, op: Op) returns (mvs: seq<Move>, r: State)
    requires RegionInv(cfg, s, t0) && t0 <= now && s.cleaner.Idle? && LimitKey(key)
    requires Uses(op) && OpOk(op) && op.key == key && (IsReqKey(key) ==> BucketFor(cfg, s, key, now).windowSec > 0)
    requires Claim(cfg(key), op) <= Room(cfg(key), key, BucketFor(cfg, s, key, now), now)
    ensures Goes(cfg, s, t0, now, mvs, r, now, key, Claim(cfg(key), op), true) && mvs != []
    ensures r.cleaner.Idle? && OthersSame(s, r, key) && key in r.ptrs && (key in s.ptrs ==> r.ptrs == s.ptrs)
    ensures key !in s.ptrs ==> r.ptrs[key] == |s.heap|
    ensures var b := UseBucket(op, BucketFor(cfg, s, key, now), now).0;
      && BucketFor(cfg, r, key, now) == b && (IsReqKey(key) ==> b.windowSec > 0)
      && Room(cfg(key), key, b, now) == Room(cfg(key), key, BucketFor(cfg, s, key, now), now) - Claim(cfg(key), op)
  {
    var id := FreeCaller(s.callers.Keys);
    var get, use := Move(now, Get(id, op)), Move(now, Use(id));
    var q := GetRound(cfg, s, t0, now, id, op);
    r := UseRound(cfg, q, now, now, id, op);
    GoesBoth(cfg, s, t0, now, [get], q, now, now, [use], r, now, key, 0.0, Claim(cfg(key), op), true);
    mvs := [get] + [use];
    CallersBack(s.callers, id, q.callers[id]);
  }

  lemma CallersBack(callers: map<nat, Caller>, id: nat, c: Caller)
    requires id !in callers
    ensures callers[id := c] - {id} == callers
  {
  }

  lemma WorthOfUse(cfg: Config, s: State, id: nat, op: Op, now: int)
    requires RegionInv(cfg, s, now) && id in s.callers && s.callers[id].op == op && LimitKey(op.key)
    requires var b := s.heap[s.callers[id].ptr].bucket; var claim := Claim(cfg(op.key), op);
      && CallerOk(s.callers[id], s.heap) && (IsReqKey(op.key) ==> b.windowSec > 0)
      && claim == (if op.Request? then 1.0 else Gain(Event(now, op), UseBucket(op, b, now).1, op.key))
      && (op.Request? ==> UseBucket(op, b, now).1)
    ensures Worth(s, Move(now, Use(id)), op.key) == Claim(cfg(op.key), op)
  {
    if IsQuotaKey(op.key) {
      QuotaKeysAreNotRequestKeys(op.key);
    }
  }

  lemma {:induction false} Rounds(cfg: Config, s: State, t0: int, now: int, key: string, n: nat) returns (mvs: seq<Move>, r: State)
    requires RegionInv(cfg, s, t0) && t0 <= now && s.cleaner.Idle? && IsReqKey(key)
    requires BucketFor(cfg, s, key, now).windowSec > 0 && n as real <= Room(cfg(key), key, BucketFor(cfg, s, key, now), now)
    ensures Goes(cfg, s, t0, now, mvs, r, if n == 0 then t0 else now, key, n as real, true) && r.cleaner.Idle?
    ensures (n > 0 ==> mvs != []) && (n > 0 || key in s.ptrs ==> key in r.ptrs)
    decreases n
  {
    if n == 0 {
      GoesNowhere(cfg, s, t0, now, key);
      mvs, r := [], s;
    } else {
      var a, q := Round(cfg, s, t0, now, key, Request(key));
      var b;
      b, r := Rounds(cfg, q, now, now, key, n - 1);
      GoesBoth(cfg, s, t0, now, a, q, now, now, b, r, now, key, 1.0, (n - 1) as real, true);
      mvs := a + b;
    }
  }

  // ---- Twice the allowance on the bucket that can be found ----

  /** The key's bucket has all its room, and if it is a quota, its period ends with this instant. */
  ghost predicate Ready(cfg: Config, s: State, key: string, t: int) {
    WellFormed(s) && s.cleaner.Idle?
    && if IsReqKey(key) then BucketFor(cfg, s, key, t).windowSec > 0 && Room(cfg(key), key, BucketFor(cfg, s, key, t), t) == Allowance(cfg(key), key)
       else key in s.ptrs && s.heap[s.ptrs[key]].bucket == NewBucket(cfg(key), key, t - Span(cfg(key), key))
  }

  function End(l: Limits, key: string, t: int): int { if IsReqKey(key) then t + Span(l, key) else t + 1 }

  lemma {:induction false} TwiceTheAllowance(cfg: Config, s: State, t0: int, t: int, key: string) returns (mvs: seq<Move>, r: State)
    requires RegionInv(cfg, s, t0) && t0 <= t && LimitKey(key) && Ready(cfg, s, key, t)
    ensures Goes(cfg, s, t0, t, mvs, r, End(cfg(key), key, t), key, 2.0 * Allowance(cfg(key), key), true) && mvs != []
  {
    if IsReqKey(key) {
      mvs, r := TwiceTheLimit(cfg, s, t0, t, key);
    } else {
      mvs, r := TwiceTheQuota(cfg, s, t0, t, key);
    }
  }

  lemma {:induction false} TwiceTheLimit(cfg: Config, s: State, t0: int, t: int, key: string) returns (mvs: seq<Move>, r: State)
    requires RegionInv(cfg, s, t0) && t0 <= t && IsReqKey(key) && Ready(cfg, s, key, t)
    ensures Goes(cfg, s, t0, t, mvs, r, t + Span(cfg(key), key), key, 2.0 * Allowance(cfg(key), key), true) && mvs != []
  {
    var l := cfg(key);
    WindowPositive(l);
    var a, q := Rounds(cfg, s, t0, t, key, l.maxReq);
    assert BucketOk(l, q.heap[q.ptrs[key]].key, q.heap[q.ptrs[key]].bucket, t);
    AllRoomLater(l, key, q.heap[q.ptrs[key]].bucket, t, t + Span(l, key));
    var b;
    b, r := Rounds(cfg, q, t, t + Span(l, key), key, l.maxReq);
    GoesBoth(cfg, s, t0, t, a, q, t, t + Span(l, key), b, r, t + Span(l, key), key, Allowance(l, key), Allowance(l, key), true);
    mvs := a + b;
  }

  lemma {:induction false} TwiceTheQuota(cfg: Config, s: State, t0: int, t: int, key: string) returns (mvs: seq<Move>, r: State)
    requires RegionInv(cfg, s, t0) && t0 <= t && IsQuotaKey(key) && Ready(cfg, s, key, t)
    ensures Goes(cfg, s, t0, t, mvs, r, t + 1, key, 2.0 * Allowance(cfg(key), key), true) && mvs != []
  {
    QuotaKeysAreNotRequestKeys(key);
    var op := Charge(key, cfg(key).quota);
    var a, q := Round(cfg, s, t0, t, key, op);
    var b;
    b, r := Round(cfg, q, t, t + 1, key, op);
    GoesBoth(cfg, s, t0, t, a, q, t, t + 1, b, r, t + 1, key, Allowance(cfg(key), key), Allowance(cfg(key), key), true);
    mvs := a + b;
  }

  // ---- Strays use the buckets they hold ----

  function Total(l: Limits, hs: seq<Caller>): (r: real)
    requires forall h :: h in hs ==> Answers(h.op)
  {
    if hs == [] then 0.0 else Claim(l, hs[0].op) + Total(l, hs[1..])
  }

  /** What these callers claim of one bucket. */
  function Owed(l: Limits, hs: seq<Caller>, p: nat): real
    requires forall h :: h in hs ==> Answers(h.op)
  {
    if hs == [] then 0.0 else (if hs[0].ptr == p then Claim(l, hs[0].op) else 0.0) + Owed(l, hs[1..], p)
  }

  predicate NoNegative(hs: seq<Caller>) { forall h :: h in hs ==> Answers(h.op) && (h.op.Charge? ==> h.op.amount >= 0.0) }

  lemma {:induction false} OwedIsNonNegative(l: Limits, hs: seq<Caller>, p: nat)
    requires NoNegative(hs)
    ensures Owed(l, hs, p) >= 0.0
  {
    if hs != [] {
      assert hs[0] in hs;
      OwedIsNonNegative(l, hs[1..], p);
    }
  }

  /** These callers are in the middle of using the key, and their buckets have room for them at this instant. */
  ghost predicate CanAll(cfg: Config, s: State, key: string, cs: seq<nat>, hs: seq<Caller>, now: int) {
    && WellFormed(s) && |cs| == |hs| && NoNegative(hs)
    && (forall i, j :: 0 <= i < j < |cs| ==> cs[i] != cs[j])
    && (forall i :: 0 <= i < |cs| ==> cs[i] in s.callers && s.callers[cs[i]] == hs[i] && hs[i].op.key == key && Uses(hs[i].op))
    && (forall i :: 0 <= i < |cs| ==>
          && hs[i].ptr < |s.heap| && (IsReqKey(key) ==> s.heap[hs[i].ptr].bucket.windowSec > 0)
          && Owed(cfg(key), hs, hs[i].ptr) <= Room(cfg(key), key, s.heap[hs[i].ptr].bucket, now))
  }

  /** One of them has used its bucket: what is owed and what there is room for, seen by another. */
  lemma {:induction false} RestHasRoom(cfg: Config, s: State, r: State, key: string, hs: seq<Caller>, h: Caller, now: int)
    requires hs != [] && NoNegative(hs) && |r.heap| == |s.heap| && h.ptr < |s.heap| && hs[0].ptr < |s.heap|
    requires IsReqKey(key) ==> s.heap[hs[0].ptr].bucket.windowSec > 0 && r.heap[hs[0].ptr].bucket.windowSec > 0
    requires IsReqKey(key) ==> s.heap[h.ptr].bucket.windowSec > 0
    requires Room(cfg(key), key, r.heap[hs[0].ptr].bucket, now) == Room(cfg(key), key, s.heap[hs[0].ptr].bucket, now) - Claim(cfg(key), hs[0].op)
    requires h.ptr != hs[0].ptr ==> r.heap[h.ptr] == s.heap[h.ptr]
    requires Owed(cfg(key), hs, h.ptr) <= Room(cfg(key), key, s.heap[h.ptr].bucket, now)
    ensures IsReqKey(key) ==> r.heap[h.ptr].bucket.windowSec > 0
    ensures Owed(cfg(key), hs[1..], h.ptr) <= Room(cfg(key), key, r.heap[h.ptr].bucket, now)
  {
  }

  lemma {:induction false} CanTheRest(cfg: Config, s: State, r: State, key: string, cs: seq<nat>, hs: seq<Caller>, now: int)
    requires cs != [] && CanAll(cfg, s, key, cs, hs, now) && WellFormed(r)
    requires r.callers == s.callers - {cs[0]} && |r.heap| == |s.heap|
    requires var b := r.heap[hs[0].ptr].bucket;
      (IsReqKey(key) ==> b.windowSec > 0) && Room(cfg(key), key, b, now) == Room(cfg(key), key, s.heap[hs[0].ptr].bucket, now) - Claim(cfg(key), hs[0].op)
    requires forall p :: 0 <= p < |s.heap| && p != hs[0].ptr ==> r.heap[p] == s.heap[p]
    ensures CanAll(cfg, r, key, cs[1..], hs[1..], now)
  {
    var ds, gs := cs[1..], hs[1..];
    forall i | 0 <= i < |ds|
      ensures ds[i] in r.callers && r.callers[ds[i]] == gs[i] && gs[i].ptr < |r.heap|
      ensures IsReqKey(key) ==> r.heap[gs[i].ptr].bucket.windowSec > 0
      ensures Owed(cfg(key), gs, gs[i].ptr) <= Room(cfg(key), key, r.heap[gs[i].ptr].bucket, now)
    {
      assert cs[i + 1] != cs[0] && hs[i + 1] == gs[i] && ds[i] == cs[i + 1];
      RestHasRoom(cfg, s, r, key, hs, gs[i], now);
    }
  }

  lemma {:induction false} AllUse(cfg: Config, s: State, t0: int, now: int, key: string, cs: seq<nat>, hs: seq<Caller>) returns (mvs: seq<Move>, r: State)
    requires RegionInv(cfg, s, t0) && t0 <= now && LimitKey(key) && CanAll(cfg, s, key, cs, hs, now)
    ensures NoNegative(hs) && Goes(cfg, s, t0, now, mvs, r, if cs == [] then t0 else now, key, Total(cfg(key), hs), true)
    ensures r.ptrs == s.ptrs && r.cleaner == s.cleaner && |r.heap| == |s.heap|
    ensures forall p :: 0 <= p < |s.heap| && (forall i :: 0 <= i < |hs| ==> hs[i].ptr != p) ==> r.heap[p] == s.heap[p]
    decreases |cs|
  {
    if cs == [] {
      GoesNowhere(cfg, s, t0, now, key);
      mvs, r := [], s;
    } else {
      assert hs[0] in hs && CallerOk(s.callers[cs[0]], s.heap);
      OwedIsNonNegative(cfg(key), hs[1..], hs[0].ptr);
      var use := Move(now, Use(cs[0]));
      var q := UseRound(cfg, s, t0, now, cs[0], hs[0].op);
      CanTheRest(cfg, s, q, key, cs, hs, now);
      var rest;
      rest, r := AllUse(cfg, q, now, now, key, cs[1..], hs[1..]);
      GoesBoth(cfg, s, t0, now, [use], q, now, now, rest, r, now, key, Claim(cfg(key), hs[0].op), Total(cfg(key), hs[1..]), true);
      mvs := [use] + rest;
    }
  }

  // ---- Strays exceed the bound ----

  /** Different callers holding forgotten buckets of the key, none of which they claim more of than it can give. */
  ghost predicate HoldForgotten(cfg: Config, s: State, key: string, cs: seq<nat>, hs: seq<Caller>) {
    && WellFormed(s) && |cs| == |hs| && NoNegative(hs)
    && (forall i, j :: 0 <= i < j < |cs| ==> cs[i] != cs[j])
    && (forall i :: 0 <= i < |cs| ==> cs[i] in Strays(s, key) && s.callers[cs[i]] == hs[i] && Uses(hs[i].op))
    && (forall i :: 0 <= i < |cs| ==> Owed(cfg(key), hs, hs[i].ptr) <= Allowance(cfg(key), key))
  }

  /** None of them holds the bucket that the key leads to. */
  predicate OffThePath(s: State, key: string, hs: seq<Caller>) {
    forall i :: 0 <= i < |hs| ==> hs[i].ptr < |s.heap| && (key in s.ptrs ==> s.ptrs[key] != hs[i].ptr)
  }

  /** When all of their buckets are full again, they can all use them. */
  lemma {:induction false} CanAllLater(cfg: Config, s: State, q: State, t0: int, key: string, cs: seq<nat>, hs: seq<Caller>, t: int)
    requires RegionInv(cfg, s, t0) && LimitKey(key) && HoldForgotten(cfg, s, key, cs, hs) && WellFormed(q)
    requires q.callers == s.callers && |s.heap| <= |q.heap| && forall i :: 0 <= i < |hs| ==> q.heap[hs[i].ptr] == s.heap[hs[i].ptr]
    requires if IsReqKey(key) then t0 + Span(cfg(key), key) <= t else t0 + Span(cfg(key), key) < t
    ensures CanAll(cfg, q, key, cs, hs, t)
  {
    forall i | 0 <= i < |cs|
      ensures hs[i].ptr < |q.heap| && (IsReqKey(key) ==> q.heap[hs[i].ptr].bucket.windowSec > 0)
      ensures Room(cfg(key), key, q.heap[hs[i].ptr].bucket, t) == Allowance(cfg(key), key)
    {
      assert CallerOk(s.callers[cs[i]], s.heap);
      assert BucketOk(cfg(s.heap[hs[i].ptr].key), s.heap[hs[i].ptr].key, s.heap[hs[i].ptr].bucket, t0);
      AllRoomLater(cfg(key), key, s.heap[hs[i].ptr].bucket, t0, t);
    }
  }

  lemma {:induction false} StraysOffThePath(cfg: Config, s: State, key: string, cs: seq<nat>, hs: seq<Caller>)
    requires HoldForgotten(cfg, s, key, cs, hs)
    ensures OffThePath(s.(ptrs := s.ptrs - Condemned(s), cleaner := Idle), key, hs)
  {
    forall i | 0 <= i < |hs| ensures hs[i].ptr < |s.heap| && (key in s.ptrs - Condemned(s) ==> s.ptrs[key] != hs[i].ptr) {
      assert cs[i] in Strays(s, key) && CallerOk(s.callers[cs[i]], s.heap);
    }
  }

  /** Everything is in place: the cleaner at rest, the key's bucket ready, the others' full. */
  lemma {:induction false} Prepare(cfg: Config, s: State, t0: int, key: string, cs: seq<nat>, hs: seq<Caller>)
      returns (pre: seq<Move>, q: State, t1: int, t: int)
    requires RegionInv(cfg, s, t0) && LimitKey(key) && HoldForgotten(cfg, s, key, cs, hs)
    ensures Goes(cfg, s, t0, if pre == [] then t0 else pre[0].now, pre, q, t1, key, 0.0, true) && t1 <= t
    ensures CanAll(cfg, q, key, cs, hs, t) && Ready(cfg, q, key, t) && OffThePath(q, key, hs)
  {
    WindowPositive(cfg(key));
    var p;
    pre, p := EndRound(cfg, s, t0, key);
    StraysOffThePath(cfg, s, key, cs, hs);
    if IsReqKey(key) {
      q, t1, t := p, t0, t0 + Span(cfg(key), key);
      CanAllLater(cfg, s, q, t0, key, cs, hs, t);
      RequestReady(cfg, q, t0, key, t);
    } else {
      var more;
      more, q, t1 := ResetPeriod(cfg, p, t0, key);
      GoesBoth(cfg, s, t0, if pre == [] then t1 else t0, pre, p, t0, t1, more, q, t1, key, 0.0, 0.0, true);
      pre := pre + more;
      t := t1 + Span(cfg(key), key);
      CanAllLater(cfg, s, q, t0, key, cs, hs, t);
    }
  }

  lemma RequestReady(cfg: Config, s: State, t0: int, key: string, t: int)
    requires RegionInv(cfg, s, t0) && IsReqKey(key) && s.cleaner.Idle? && t0 + Span(cfg(key), key) <= t
    ensures Ready(cfg, s, key, t)
  {
    NewHasRoom(cfg(key), key, t);
    if key in s.ptrs {
      var b := s.heap[s.ptrs[key]];
      assert BucketOk(cfg(b.key), b.key, b.bucket, t0);
      AllRoomLater(cfg(key), key, b.bucket, t0, t);
    }
  }

  /** A charge of nothing, past the current period, begins a new one. */
  lemma {:induction false} ResetPeriod(cfg: Config, s: State, t0: int, key: string) returns (mvs: seq<Move>, r: State, t1: int)
    requires RegionInv(cfg, s, t0) && IsQuotaKey(key) && s.cleaner.Idle?
    ensures t1 == t0 + Span(cfg(key), key) + 1 && Goes(cfg, s, t0, t1, mvs, r, t1, key, 0.0, true)
    ensures Ready(cfg, r, key, t1 + Span(cfg(key), key)) && OthersSame(s, r, key)
    ensures key in r.ptrs && (key in s.ptrs ==> r.ptrs == s.ptrs) && (key !in s.ptrs ==> r.ptrs[key] == |s.heap|)
  {
    var l := cfg(key);
    QuotaKeysAreNotRequestKeys(key);
    WindowPositive(l);
    t1 := t0 + Span(l, key) + 1;
    NewHasRoom(l, key, t1);
    if key in s.ptrs {
      var b := s.heap[s.ptrs[key]];
      assert BucketOk(cfg(b.key), b.key, b.bucket, t0);
    }
    mvs, r := Round(cfg, s, t0, t1, key, Charge(key, 0.0));
  }

  ghost predicate InAStretch(cfg: Config, s: State, t0: int, pre: seq<Move>, stretch: seq<Move>, key: string, got: real)
    requires RegionInv(cfg, s, t0)
  {
    && Possible(cfg, s, pre, t0) && Undisturbed(cfg, s, pre, t0)
    && var q, t := Run(cfg, s, pre, t0), LastMove(pre, t0);
       && Possible(cfg, q, stretch, t) && Undisturbed(cfg, q, stretch, t) && stretch != []
       && LastMove(stretch, t) - stretch[0].now <= Span(cfg(key), key) && Got(cfg, q, stretch, t, key) == got
  }

  /**
   Whatever the other callers and the cleaner are doing, the callers that hold forgotten buckets can all be served
   within one window or period together with twice the limit or the quota, and nobody else is overtaken for it.
   */
  lemma {:induction false} StraysComeOnTop(cfg: Config, s: State, t0: int, key: string, cs: seq<nat>, hs: seq<Caller>)
      returns (pre: seq<Move>, stretch: seq<Move>)
    requires RegionInv(cfg, s, t0) && LimitKey(key) && HoldForgotten(cfg, s, key, cs, hs)
    ensures InAStretch(cfg, s, t0, pre, stretch, key, Total(cfg(key), hs) + 2.0 * Allowance(cfg(key), key))
    ensures LastMove(stretch, LastMove(pre, t0)) - stretch[0].now == if IsReqKey(key) then Span(cfg(key), key) else 1
  {
    var l := cfg(key);
    WindowPositive(l);
    var q, t1, t;
    pre, q, t1, t := Prepare(cfg, s, t0, key, cs, hs);
    var late, p := AllUse(cfg, q, t1, t, key, cs, hs);
    assert Ready(cfg, p, key, t);
    var t2 := if cs == [] then t1 else t;
    var twice, r := TwiceTheAllowance(cfg, p, t2, t, key);
    GoesBoth(cfg, q, t1, t, late, p, t2, t, twice, r, End(l, key, t), key, Total(l, hs), 2.0 * Allowance(l, key), true);
    stretch := late + twice;
    QuietIsUndisturbed(cfg, s, pre, t0);
    QuietIsUndisturbed(cfg, q, stretch, t1);
  }

  // ---- Nobody else does ----

  /** Nobody holding a forgotten bucket of the key can get anything out of it. */
  ghost predicate NothingClaimed(cfg: Config, s: State, key: string) {
    WellFormed(s) && forall c :: c in Strays(s, key) ==> CallerOk(s.callers[c], s.heap) && Claim(cfg(key), s.callers[c].op) == 0.0
  }

  lemma NothingClaimedNext(cfg: Config, s: State, mv: Move, t0: int, key: string)
    requires RegionInv(cfg, s, t0) && Enabled(s, mv.act) && t0 <= mv.now && NothingClaimed(cfg, s, key)
    requires mv.act.Test? ==> Overtaken(s, mv, mv.act.key) == {}
    ensures WellFormed(Next(cfg, s, mv)) && NothingClaimed(cfg, Next(cfg, s, mv), key)
  {
    MoveKeepsInv(cfg, s, mv, t0);
    var s' := Next(cfg, s, mv);
    forall c | c in Strays(s', key) ensures CallerOk(s'.callers[c], s'.heap) && Claim(cfg(key), s'.callers[c].op) == 0.0 {
      BecomesStray(cfg, s, mv, key, c);
      assert c in Strays(s, key);
      SameCaller(cfg, s, mv, c);
    }
  }

  lemma SameCaller(cfg: Config, s: State, mv: Move, c: nat)
    requires WellFormed(s) && Enabled(s, mv.act) && c in s.callers && c in Next(cfg, s, mv).callers
    ensures Next(cfg, s, mv).callers[c] == s.callers[c]
  {
  }

  /** A late use that claims nothing gets nothing. */
  lemma LateUseOfNothing(cfg: Config, s: State, mv: Move, t0: int, key: string)
    requires RegionInv(cfg, s, t0) && Enabled(s, mv.act) && t0 <= mv.now && LimitKey(key) && NothingClaimed(cfg, s, key) && IsLate(s, mv)
    ensures !Passes(s, mv, key) && Pays(s, mv, key) == 0.0
  {
    var c := s.callers[mv.act.caller];
    assert CallerOk(c, s.heap);
    if c.op.key == key {
      assert mv.act.caller in Strays(s, key);
      if c.op.Charge? {
        QuotaKeysAreNotRequestKeys(key);
        assert BucketOk(cfg(key), key, s.heap[c.ptr].bucket, t0);
      }
    }
  }

  lemma {:induction false} NothingClaimedNothingLate(cfg: Config, s: State, mvs: seq<Move>, t0: int, key: string)
    requires RegionInv(cfg, s, t0) && Possible(cfg, s, mvs, t0) && Undisturbed(cfg, s, mvs, t0)
    requires LimitKey(key) && NothingClaimed(cfg, s, key)
    ensures Passed(cfg, s, mvs, t0, key, true) == 0 && Paid(cfg, s, mvs, t0, key, true) == 0.0
    ensures NothingClaimed(cfg, Run(cfg, s, mvs, t0), key)
    decreases |mvs|
  {
    if mvs != [] {
      var mv := mvs[0];
      Unfold(cfg, s, mvs, t0);
      NothingClaimedNext(cfg, s, mv, t0, key);
      if IsLate(s, mv) {
        LateUseOfNothing(cfg, s, mv, t0, key);
      }
      NothingClaimedNothingLate(cfg, Next(cfg, s, mv), mvs[1..], mv.now, key);
    }
  }

  /** What a stretch no longer than the window or the period gets, apart from what it gets late. */
  lemma {:induction false} StretchGets(cfg: Config, s: State, mvs: seq<Move>, t0: int, key: string)
    requires RegionInv(cfg, s, t0) && Possible(cfg, s, mvs, t0) && mvs != [] && LimitKey(key)
    requires LastMove(mvs, t0) - mvs[0].now <= Span(cfg(key), key)
    ensures Got(cfg, s, mvs, t0, key) <= 2.0 * Allowance(cfg(key), key)
      + if IsReqKey(key) then Passed(cfg, s, mvs, t0, key, true) as real else Paid(cfg, s, mvs, t0, key, true)
  {
    if IsReqKey(key) {
      StretchPasses(cfg, s, mvs, t0, key);
    } else {
      StretchPays(cfg, s, mvs, t0, key);
    }
  }

  lemma {:induction false} BoundHolds(cfg: Config, s: State, t0: int, pre: seq<Move>, stretch: seq<Move>, key: string, got: real)
    requires RegionInv(cfg, s, t0) && LimitKey(key) && NothingClaimed(cfg, s, key)
    requires InAStretch(cfg, s, t0, pre, stretch, key, got)
    ensures got <= 2.0 * Allowance(cfg(key), key)
  {
    NothingClaimedNothingLate(cfg, s, pre, t0, key);
    var q, t := Run(cfg, s, pre, t0), LastMove(pre, t0);
    NothingClaimedNothingLate(cfg, q, stretch, t, key);
    StretchGets(cfg, q, stretch, t, key);
  }

  lemma {:induction false} OneStray(cfg: Config, s: State, t0: int, key: string, c: nat)
    requires RegionInv(cfg, s, t0) && LimitKey(key) && c in Strays(s, key) && Answers(s.callers[c].op) && Claim(cfg(key), s.callers[c].op) > 0.0
    ensures HoldForgotten(cfg, s, key, [c], [s.callers[c]]) && Total(cfg(key), [s.callers[c]]) > 0.0
  {
    var h := s.callers[c];
    assert CallerOk(h, s.heap);
    assert [h][1..] == [];
    assert Owed(cfg(key), [h], h.ptr) == Claim(cfg(key), h.op) + Owed(cfg(key), [h][1..], h.ptr);
    if h.op.Charge? {
      QuotaKeysAreNotRequestKeys(key);
    }
  }

  /**
   From any state, with any callers and the cleaner anywhere: some continuation in which nobody is overtaken exceeds
   the key's bound within its window or period exactly if somebody already holds a forgotten bucket of the key and
   can get something out of it: has a request to make, or a charge of more than nothing and no more than the quota.
   */
  lemma {:induction false} BoundBreaksIff(cfg: Config, s: State, t0: int, key: string)
    requires RegionInv(cfg, s, t0) && LimitKey(key)
    ensures (exists pre, stretch, got :: InAStretch(cfg, s, t0, pre, stretch, key, got) && got > 2.0 * Allowance(cfg(key), key))
      <==> exists c :: c in Strays(s, key) && (s.callers[c].op.Request?
                       || (s.callers[c].op.Charge? && 0.0 < s.callers[c].op.amount <= cfg(key).quota))
  {
    forall c | c in Strays(s, key) ensures CallerOk(s.callers[c], s.heap) {
    }
    if c :| c in Strays(s, key) && Claim(cfg(key), s.callers[c].op) > 0.0 {
      OneStray(cfg, s, t0, key, c);
      var pre, stretch := StraysComeOnTop(cfg, s, t0, key, [c], [s.callers[c]]);
    } else {
      forall pre, stretch, got | InAStretch(cfg, s, t0, pre, stretch, key, got) ensures got <= 2.0 * Allowance(cfg(key), key) {
        BoundHolds(cfg, s, t0, pre, stretch, key, got);
      }
    }
  }

  /** And in no stretch do more requests pass than twice the limit and the callers overtaken, before it or in it. */
  lemma {:induction false} PassedWithOvertaken(cfg: Config, s: State, mvs: seq<Move>, t0: int, key: string)
    requires RegionInv(cfg, s, t0) && Possible(cfg, s, mvs, t0) && mvs != [] && IsReqKey(key)
    requires LastMove(mvs, t0) - mvs[0].now <= Span(cfg(key), key)
    ensures Passed(cfg, s, mvs, t0, key, false) <= 2 * cfg(key).maxReq + |Strays(s, key)| + OvertakenIn(cfg, s, mvs, t0, key)
  {
    StretchPasses(cfg, s, mvs, t0, key);
    LateWereOvertaken(cfg, s, mvs, t0, key);
  }

  /** Nor is more charged than twice the quota and one quota for each of them. */
  lemma {:induction false} PaidWithOvertaken(cfg: Config, s: State, mvs: seq<Move>, t0: int, key: string)
    requires RegionInv(cfg, s, t0) && Possible(cfg, s, mvs, t0) && mvs != [] && IsQuotaKey(key)
    requires LastMove(mvs, t0) - mvs[0].now <= Span(cfg(key), key)
    ensures Paid(cfg, s, mvs, t0, key, false)
      <= 2.0 * cfg(key).quota + Quotas(|Strays(s, key)| + OvertakenIn(cfg, s, mvs, t0, key), cfg(key).quota)
  {
    QuotaKeysAreNotRequestKeys(key);
    StretchPays(cfg, s, mvs, t0, key);
    LateChargesWereOvertaken(cfg, s, mvs, t0, key);
  }

  // ---- Any number of callers can be overtaken ----

  /** The most that one caller can ask for. */
  function Greedy(l: Limits, key: string): Op { if IsReqKey(key) then Request(key) else Charge(key, l.quota) }

  function GreedyClaim(l: Limits, key: string): real { if IsReqKey(key) then 1.0 else l.quota }

  /** The cleaner finds the key's bucket stale and deletes it, whoever holds it. */
  lemma {:induction false} CleanAway(cfg: Config, s: State, t0: int, now: int, key: string) returns (mvs: seq<Move>, r: State)
    requires RegionInv(cfg, s, t0) && t0 <= now && s.cleaner.Idle? && key in s.ptrs && Stale(s.heap[s.ptrs[key]].bucket, now)
    ensures Goes(cfg, s, t0, now, mvs, r, now, key, 0.0, false) && r == s.(ptrs := s.ptrs - {key}) && mvs != []
  {
    var clock, lock, test := Move(now, ReadClock), Move(now, Lock), Move(now, Test(key));
    GoesOne(cfg, s, t0, clock, key);
    var s1 := Next(cfg, s, clock);
    GoesOne(cfg, s1, now, lock, key);
    var s2 := Next(cfg, s1, lock);
    GoesOne(cfg, s2, now, test, key);
    var s3 := Next(cfg, s2, test);
    var rest;
    rest, r := EndRound(cfg, s3, now, key);
    GoesBoth(cfg, s, t0, now, [clock], s1, now, now, [lock], s2, now, key, 0.0, 0.0, false);
    GoesBoth(cfg, s, t0, now, [clock] + [lock], s2, now, now, [test], s3, now, key, 0.0, 0.0, false);
    GoesBoth(cfg, s, t0, now, [clock] + [lock] + [test], s3, now, now, rest, r, now, key, 0.0, 0.0, false);
    mvs := [clock] + [lock] + [test] + rest;
  }

  /** n callers, each holding a forgotten bucket of its own. */
  ghost predicate Forgotten(cfg: Config, s: State, key: string, n: nat) {
    && s.ptrs == map[] && s.cleaner.Idle? && |s.heap| == n
    && (forall c: nat :: c in s.callers <==> c < n) && (forall c: nat :: c < n ==> s.callers[c] == Caller(Greedy(cfg(key), key), c))
  }

  lemma {:induction false} OvertakeAnother(cfg: Config, s: State, t: int, key: string, n: nat) returns (mvs: seq<Move>, r: State)
    requires RegionInv(cfg, s, t) && LimitKey(key) && Forgotten(cfg, s, key, n)
    ensures Goes(cfg, s, t, t, mvs, r, t + IdleTime(cfg(key), key), key, 0.0, false) && Forgotten(cfg, r, key, n + 1)
  {
    var l := cfg(key);
    var op := Greedy(l, key);
    if IsQuotaKey(key) {
      QuotaKeysAreNotRequestKeys(key);
    }
    NewIsStaleLater(l, key, t);
    var q := GetRound(cfg, s, t, t, n, op);
    var get := [Move(t, Get(n, op))];
    var clean;
    clean, r := CleanAway(cfg, q, t, t + IdleTime(l, key), key);
    GoesBoth(cfg, s, t, t, get, q, t, t + IdleTime(l, key), clean, r, t + IdleTime(l, key), key, 0.0, 0.0, false);
    mvs := get + clean;
    assert r.ptrs == map[];
  }

  lemma NewIsStaleLater(l: Limits, key: string, t: int)
    requires LimitKey(key)
    ensures IdleTime(l, key) > 0 && Stale(NewBucket(l, key, t), t + IdleTime(l, key))
  {
    WindowPositive(l);
  }

  lemma {:induction false} OvertakeMany(cfg: Config, key: string, n: nat) returns (mvs: seq<Move>, s: State, t: int)
    requires LimitKey(key)
    ensures Goes(cfg, START, 0, 0, mvs, s, t, key, 0.0, false) && Forgotten(cfg, s, key, n)
  {
    StartInv(cfg, 0);
    if n == 0 {
      GoesNowhere(cfg, START, 0, 0, key);
      mvs, s, t := [], START, 0;
    } else {
      var before, q, t0 := OvertakeMany(cfg, key, n - 1);
      var more;
      more, s := OvertakeAnother(cfg, q, t0, key, n - 1);
      t := t0 + IdleTime(cfg(key), key);
      GoesBoth(cfg, START, 0, if before == [] then t0 else 0, before, q, t0, t0, more, s, t, key, 0.0, 0.0, false);
      mvs := before + more;
    }
  }

  function Callers(op: Op, from: nat, n: nat): (hs: seq<Caller>)
    ensures |hs| == n && forall i :: 0 <= i < n ==> hs[i] == Caller(op, from + i)
  {
    seq(n, i requires 0 <= i < n => Caller(op, from + i))
  }

  lemma {:induction false} CallersOwe(l: Limits, op: Op, from: nat, n: nat, p: nat)
    requires Answers(op)
    ensures Total(l, Callers(op, from, n)) == Quotas(n, Claim(l, op))
    ensures Owed(l, Callers(op, from, n), p) == if from <= p < from + n then Claim(l, op) else 0.0
    decreases n
  {
    if n > 0 {
      assert Callers(op, from, n)[1..] == Callers(op, from + 1, n - 1);
      CallersOwe(l, op, from + 1, n - 1, p);
    }
  }

  lemma {:induction false} ForgottenCount(cfg: Config, s: State, key: string, n: nat)
    requires WellFormed(s) && Forgotten(cfg, s, key, n) && Greedy(cfg(key), key).key == key
    ensures Strays(s, key) == UpTo(n) && |Strays(s, key)| == n
  {
    forall c: nat ensures c in Strays(s, key) <==> c in UpTo(n) {
      if c < n {
        assert CallerOk(s.callers[c], s.heap);
      }
    }
  }

  function Indices(n: nat): (r: seq<nat>)
    ensures |r| == n && forall i :: 0 <= i < n ==> r[i] == i
  {
    seq(n, i requires 0 <= i < n => i)
  }

  lemma ForgottenStray(cfg: Config, s: State, key: string, n: nat, i: nat)
    requires WellFormed(s) && Forgotten(cfg, s, key, n) && Greedy(cfg(key), key).key == key && i < n
    ensures i in Strays(s, key) && s.callers[i] == Caller(Greedy(cfg(key), key), i)
  {
    ForgottenCount(cfg, s, key, n);
  }

  lemma {:induction false} ForgottenAreStrays(cfg: Config, s: State, key: string, n: nat)
    requires WellFormed(s) && LimitKey(key) && Forgotten(cfg, s, key, n)
    ensures HoldForgotten(cfg, s, key, Indices(n), Callers(Greedy(cfg(key), key), 0, n))
  {
    var op := Greedy(cfg(key), key);
    var cs, hs := Indices(n), Callers(op, 0, n);
    forall i | 0 <= i < n
      ensures cs[i] in Strays(s, key) && s.callers[cs[i]] == hs[i] && Owed(cfg(key), hs, hs[i].ptr) <= Allowance(cfg(key), key)
    {
      ForgottenStray(cfg, s, key, n, i);
      CallersOwe(cfg(key), op, 0, n, i);
    }
  }

  function UpTo(n: nat): (r: set<nat>)
    ensures |r| == n && forall c: nat :: c in r <==> c < n
  {
    if n == 0 then {} else UpTo(n - 1) + {n - 1}
  }

  lemma {:induction false} QuotasOfOne(n: nat)
    ensures Quotas(n, 1.0) == n as real
  {
    if n > 0 {
      QuotasOfOne(n - 1);
    }
  }

  /** From n forgotten callers on, twice the allowance and n claims are got. */
  lemma {:induction false} ForgottenComeOnTop(cfg: Config, s: State, t: int, key: string, n: nat) returns (pre: seq<Move>, stretch: seq<Move>)
    requires RegionInv(cfg, s, t) && LimitKey(key) && Forgotten(cfg, s, key, n)
    ensures InAStretch(cfg, s, t, pre, stretch, key, Quotas(n, GreedyClaim(cfg(key), key)) + 2.0 * Allowance(cfg(key), key))
    ensures LastMove(stretch, LastMove(pre, t)) - stretch[0].now == if IsReqKey(key) then Span(cfg(key), key) else 1
  {
    ForgottenAreStrays(cfg, s, key, n);
    CallersOwe(cfg(key), Greedy(cfg(key), key), 0, n, 0);
    pre, stretch := StraysComeOnTop(cfg, s, t, key, Indices(n), Callers(Greedy(cfg(key), key), 0, n));
  }

  /**
   For every limit or quota and every n: an interleaving from the empty limiter with n callers overtaken, after which
   twice the limit and n more requests pass within one window, or twice the quota and n more quotas are charged
   within a nanosecond, while nobody is overtaken. So the bounds above are reached, and the excess has no limit.
   */
  lemma {:induction false} EveryExcessIsReached(cfg: Config, key: string, n: nat) returns (before: seq<Move>, stretch: seq<Move>)
    requires LimitKey(key)
    ensures RegionInv(cfg, START, 0) && Possible(cfg, START, before, 0)
    ensures var s := Run(cfg, START, before, 0); var t := LastMove(before, 0); var l := cfg(key);
      && stretch != [] && Possible(cfg, s, stretch, t) && Undisturbed(cfg, s, stretch, t)
      && LastMove(stretch, t) - stretch[0].now == (if IsReqKey(key) then Span(l, key) else 1)
      && (IsReqKey(key) ==> Passed(cfg, s, stretch, t, key, false) == 2 * l.maxReq + n)
      && (IsQuotaKey(key) ==> Paid(cfg, s, stretch, t, key, false) == 2.0 * l.quota + Quotas(n, l.quota))
  {
    if IsQuotaKey(key) {
      QuotaKeysAreNotRequestKeys(key);
    }
    var many, s, t := OvertakeMany(cfg, key, n);
    var pre;
    pre, stretch := ForgottenComeOnTop(cfg, s, t, key, n);
    RunsJoin(cfg, START, many, pre, 0, key);
    before := many + pre;
    QuotasOfOne(n);
  }
}
