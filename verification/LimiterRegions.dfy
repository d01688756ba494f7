/**
 The limiter as its goroutines run it (rules/ratelimiter.go): a caller gets its bucket from the map under the
 map's lock and uses it later under the bucket's own lock; the cleaner reads the clock, takes the map's lock,
 and for one bucket after another tests it under the bucket's lock and deletes it afterwards. Any number of
 callers interleave with it. Every interleaving is turned into a run of LimiterRuns, so its bounds carry over,
 except for callers whose bucket the cleaner takes away between their two regions.
 */
module LimiterRegions {
  import opened BucketKeys
  import opened RateLimiter
  import opened LimiterRuns
  import opened LimiterQuota
  import opened LimiterCleanup

  /** A bucket object and the key it was created for. It stays usable after the map has forgotten it. */
  datatype Cell = Cell(key: string, bucket: Bucket)

  /** A caller between its two regions: what it is about to do, and the bucket object it got. */
  datatype Caller = Caller(op: Op, ptr: nat)

  /** Where the cleaner is; `condemned` is a key found stale and not yet deleted. */
  datatype Cleaner = Idle | Waiting(reading: int) | Cleaning(reading: int, condemned: set<string>)

  datatype State = State(ptrs: map<string, nat>, heap: seq<Cell>, callers: map<nat, Caller>, cleaner: Cleaner)

  datatype Region =
    | Get(caller: nat, op: Op)
    | Use(caller: nat)
    | ReadClock
    | Lock
    | Test(key: string)
    | Delete(key: string)
    | Unlock

  datatype Move = Move(now: int, act: Region)

  const START := State(map[], [], map[], Idle)

  /** Keys found stale and about to be deleted; nobody can look them up, the map being locked. */
  function Condemned(s: State): set<string> { if s.cleaner.Cleaning? then s.cleaner.condemned else {} }

  predicate Linked(ptrs: map<string, nat>, heap: seq<Cell>) {
    forall k :: k in ptrs ==> ptrs[k] < |heap| && heap[ptrs[k]].key == k
  }

  predicate CallerOk(c: Caller, heap: seq<Cell>) {
    c.ptr < |heap| && Answers(c.op) && OpOk(c.op) && heap[c.ptr].key == c.op.key
  }

  predicate WellFormed(s: State) {
    && Linked(s.ptrs, s.heap)
    && (forall t :: t in s.callers ==> CallerOk(s.callers[t], s.heap))
    && (forall p :: 0 <= p < |s.heap| && IsReqKey(s.heap[p].key) ==> s.heap[p].bucket.windowSec > 0)
  }

  predicate Enabled(s: State, act: Region) {
    match act
    case Get(t, op) => t !in s.callers && !s.cleaner.Cleaning? && Answers(op) && OpOk(op)
    case Use(t) => t in s.callers
    case ReadClock => s.cleaner.Idle?
    case Lock => s.cleaner.Waiting?
    case Test(k) => s.cleaner.Cleaning? && s.cleaner.condemned == {} && k in s.ptrs
    case Delete(k) => k in Condemned(s)
    case Unlock => s.cleaner.Cleaning? && s.cleaner.condemned == {}
  }

  /** Using a bucket object: consume, charge or peek. */
  function UseBucket(op: Op, b: Bucket, now: int): (Bucket, bool)
    requires Answers(op) && (IsReqKey(op.key) ==> b.windowSec > 0) && OpOk(op)
  {
    match op
    case Request(_) => ConsumeOne(b, now)
    case Charge(_, amount) => ConsumeQuota(b, now, amount)
    case _ => (b, Min(b.maxTokens, b.tokens + Refill(b, now)) > 0)
  }

  function UseCell(c: Caller, heap: seq<Cell>, now: int): seq<Cell>
    requires c.ptr < |heap| && Answers(c.op) && OpOk(c.op)
    requires IsReqKey(c.op.key) ==> heap[c.ptr].bucket.windowSec > 0
  {
    heap[c.ptr := heap[c.ptr].(bucket := UseBucket(c.op, heap[c.ptr].bucket, now).0)]
  }

  function Next(cfg: Config, s: State, mv: Move): State
    requires WellFormed(s) && Enabled(s, mv.act)
  {
    match mv.act
    case Get(t, op) =>
      var k := op.key;
      if k in s.ptrs then s.(callers := s.callers[t := Caller(op, s.ptrs[k])])
      else if op.Peek? then s
      else
        s.(ptrs := s.ptrs[k := |s.heap|], heap := s.heap + [Cell(k, NewBucket(cfg(k), k, mv.now))],
           callers := s.callers[t := Caller(op, |s.heap|)])
    case Use(t) =>
      s.(heap := UseCell(s.callers[t], s.heap, mv.now), callers := s.callers - {t})
    case ReadClock => s.(cleaner := Waiting(mv.now))
    case Lock => s.(cleaner := Cleaning(s.cleaner.reading, {}))
    case Test(k) =>
      if Stale(s.heap[s.ptrs[k]].bucket, s.cleaner.reading) then s.(cleaner := s.cleaner.(condemned := {k})) else s
    case Delete(k) => s.(ptrs := s.ptrs - {k}, cleaner := s.cleaner.(condemned := s.cleaner.condemned - {k}))
    case Unlock => s.(cleaner := Idle)
  }

  /** What a caller is told: a peek without a bucket is answered by its first region. */
  function Told(s: State, mv: Move): seq<bool>
    requires WellFormed(s) && Enabled(s, mv.act)
  {
    match mv.act
    case Get(_, op) => if op.key !in s.ptrs && op.Peek? then [true] else []
    case Use(t) => [UseBucket(s.callers[t].op, s.heap[s.callers[t].ptr].bucket, mv.now).1]
    case _ => []
  }

  // ---- Every region is at most one operation on the buckets that can still be found ----

  function Seen(ptrs: map<string, nat>, heap: seq<Cell>, hidden: set<string>): Buckets
    requires Linked(ptrs, heap)
  {
    map k | k in ptrs && k !in hidden :: heap[ptrs[k]].bucket
  }

  /** The buckets as callers find them: one that is condemned will not be found again. */
  function Found(s: State): Buckets
    requires WellFormed(s)
  {
    Seen(s.ptrs, s.heap, Condemned(s))
  }

  /** The caller's bucket is still the one its key leads to. */
  predicate Live(s: State, c: Caller)
    requires CallerOk(c, s.heap)
  {
    c.op.key in s.ptrs && s.ptrs[c.op.key] == c.ptr && c.op.key !in Condemned(s)
  }

  function Atoms(s: State, mv: Move): seq<Event>
    requires WellFormed(s) && Enabled(s, mv.act)
  {
    match mv.act
    case Get(_, op) =>
      if op.key in s.ptrs then []
      else if op.Peek? then [Event(mv.now, op)]
      else [Event(mv.now, Create(op.key))]
    case Use(t) => if Live(s, s.callers[t]) then [Event(mv.now, s.callers[t].op)] else []
    case Test(k) => if Stale(s.heap[s.ptrs[k]].bucket, s.cleaner.reading) then [Event(mv.now, Evict(k))] else []
    case _ => []
  }

  lemma SeenWrite(ptrs: map<string, nat>, heap: seq<Cell>, hidden: set<string>, p: nat, b: Bucket)
    requires Linked(ptrs, heap) && p < |heap|
    ensures var k := heap[p].key; var heap' := heap[p := heap[p].(bucket := b)];
      && Linked(ptrs, heap')
      && Seen(ptrs, heap', hidden) ==
         if k in ptrs && ptrs[k] == p && k !in hidden then Seen(ptrs, heap, hidden)[k := b] else Seen(ptrs, heap, hidden)
  {
  }

  lemma SeenNew(ptrs: map<string, nat>, heap: seq<Cell>, hidden: set<string>, k: string, b: Bucket)
    requires Linked(ptrs, heap) && k !in ptrs && k !in hidden
    ensures var ptrs' := ptrs[k := |heap|]; var heap' := heap + [Cell(k, b)];
      Linked(ptrs', heap') && Seen(ptrs', heap', hidden) == Seen(ptrs, heap, hidden)[k := b]
  {
  }

  lemma SeenWithout(ptrs: map<string, nat>, heap: seq<Cell>, hidden: set<string>, k: string)
    requires Linked(ptrs, heap)
    ensures Seen(ptrs, heap, hidden + {k}) == Seen(ptrs, heap, hidden) - {k}
    ensures Linked(ptrs - {k}, heap) && Seen(ptrs - {k}, heap, hidden - {k}) == Seen(ptrs, heap, hidden + {k})
  {
  }

  ghost predicate BucketsOk(cfg: Config, heap: seq<Cell>, now: int) {
    forall p :: 0 <= p < |heap| ==> BucketOk(cfg(heap[p].key), heap[p].key, heap[p].bucket, now)
  }

  ghost predicate RegionInv(cfg: Config, s: State, now: int) {
    WellFormed(s) && BucketsOk(cfg, s.heap, now) && (s.cleaner.Idle? || s.cleaner.reading <= now)
  }

  lemma BucketsOkLater(cfg: Config, heap: seq<Cell>, t: int, t': int)
    requires BucketsOk(cfg, heap, t) && t <= t'
    ensures BucketsOk(cfg, heap, t')
  {
    forall p | 0 <= p < |heap| ensures BucketOk(cfg(heap[p].key), heap[p].key, heap[p].bucket, t') {
      BucketOkLater(cfg(heap[p].key), heap[p].key, heap[p].bucket, t, t');
    }
  }

  lemma FoundInv(cfg: Config, s: State, now: int)
    requires RegionInv(cfg, s, now)
    ensures Inv(cfg, Found(s), now) && KindsMatch(Found(s))
  {
  }

  lemma UseKeepsBucket(l: Limits, op: Op, b: Bucket, now: int)
    requires Answers(op) && OpOk(op) && BucketOk(l, op.key, b, now)
    ensures IsReqKey(op.key) ==> b.windowSec > 0
    ensures BucketOk(l, op.key, UseBucket(op, b, now).0, now)
  {
    if op.Request? {
      ConsumeKeepsBucket(l, op.key, b, now, now);
    } else if op.Charge? {
      QuotaKeysAreNotRequestKeys(op.key);
      ChargeKeepsBucket(l, op.key, b, now, now, op.amount);
    }
  }

  lemma WindowsOk(cfg: Config, heap: seq<Cell>, now: int)
    requires BucketsOk(cfg, heap, now)
    ensures forall p :: 0 <= p < |heap| && IsReqKey(heap[p].key) ==> heap[p].bucket.windowSec > 0
  {
  }

  lemma CallersStayOk(callers: map<nat, Caller>, heap: seq<Cell>, heap': seq<Cell>)
    requires forall t :: t in callers ==> CallerOk(callers[t], heap)
    requires |heap| <= |heap'| && forall p :: 0 <= p < |heap| ==> heap'[p].key == heap[p].key
    ensures forall t :: t in callers ==> CallerOk(callers[t], heap')
  {
    forall t | t in callers ensures CallerOk(callers[t], heap') {
      assert CallerOk(callers[t], heap);
    }
  }

  // ---- The moves one by one ----

  lemma GetRefines(cfg: Config, s: State, mv: Move)
    requires RegionInv(cfg, s, mv.now) && Enabled(s, mv.act) && mv.act.Get?
    ensures RegionInv(cfg, Next(cfg, s, mv), mv.now)
    ensures var k := mv.act.op.key;
      if k in s.ptrs then k in Found(s) && Found(Next(cfg, s, mv)) == Found(s)
      else k !in Found(s) && Found(Next(cfg, s, mv)) == if mv.act.op.Peek? then Found(s) else Found(s)[k := NewBucket(cfg(k), k, mv.now)]
  {
    var k := mv.act.op.key;
    if k !in s.ptrs && !mv.act.op.Peek? {
      var b := NewBucket(cfg(k), k, mv.now);
      NewBucketsOk(cfg(k), k, mv.now);
      SeenNew(s.ptrs, s.heap, {}, k, b);
      CallersStayOk(s.callers, s.heap, s.heap + [Cell(k, b)]);
      WindowsOk(cfg, s.heap + [Cell(k, b)], mv.now);
    }
  }

  lemma UseRefines(cfg: Config, s: State, mv: Move)
    requires RegionInv(cfg, s, mv.now) && Enabled(s, mv.act) && mv.act.Use?
    ensures RegionInv(cfg, Next(cfg, s, mv), mv.now)
    ensures var c := s.callers[mv.act.caller]; var b := UseBucket(c.op, s.heap[c.ptr].bucket, mv.now).0;
      if Live(s, c) then
        c.op.key in Found(s) && Found(s)[c.op.key] == s.heap[c.ptr].bucket
        && Found(Next(cfg, s, mv)) == Found(s)[c.op.key := b]
      else Found(Next(cfg, s, mv)) == Found(s)
  {
    var c := s.callers[mv.act.caller];
    var b := UseBucket(c.op, s.heap[c.ptr].bucket, mv.now).0;
    UseKeepsBucket(cfg(c.op.key), c.op, s.heap[c.ptr].bucket, mv.now);
    SeenWrite(s.ptrs, s.heap, Condemned(s), c.ptr, b);
    var heap' := s.heap[c.ptr := s.heap[c.ptr].(bucket := b)];
    CallersStayOk(s.callers, s.heap, heap');
    WindowsOk(cfg, heap', mv.now);
  }

  lemma CleanerRefines(cfg: Config, s: State, mv: Move)
    requires RegionInv(cfg, s, mv.now) && Enabled(s, mv.act) && !mv.act.Get? && !mv.act.Use?
    ensures RegionInv(cfg, Next(cfg, s, mv), mv.now)
    ensures if Atoms(s, mv) == [] then Found(Next(cfg, s, mv)) == Found(s)
      else mv.act.key in Found(s) && Stale(Found(s)[mv.act.key], mv.now) && Found(Next(cfg, s, mv)) == Found(s) - {mv.act.key}
  {
    match mv.act
    case Test(k) =>
      SeenWithout(s.ptrs, s.heap, {}, k);
      if Stale(s.heap[s.ptrs[k]].bucket, s.cleaner.reading) {
        StaysStale(s.heap[s.ptrs[k]].bucket, s.cleaner.reading, mv.now);
        assert {} + {k} == {k};
      }
    case Delete(k) =>
      SeenWithout(s.ptrs, s.heap, Condemned(s), k);
      assert Condemned(s) + {k} == Condemned(s);
    case _ =>
  }

  /** The move performs the operations it is taken for, at most one, and tells its caller what they answer. */
  ghost predicate Performs(cfg: Config, s: State, mv: Move)
    requires WellFormed(s) && Enabled(s, mv.act) && WellFormed(Next(cfg, s, mv)) && KindsMatch(Found(s))
  {
    var a := Atoms(s, mv);
    if a == [] then Found(Next(cfg, s, mv)) == Found(s)
    else
      && a == [a[0]] && a[0].now == mv.now && OpOk(a[0].op)
      && Step(cfg, Found(s), a[0]).0 == Found(Next(cfg, s, mv))
      && Told(s, mv) == if Answers(a[0].op) then [Step(cfg, Found(s), a[0]).1] else []
  }

  lemma GetPerforms(cfg: Config, s: State, mv: Move)
    requires RegionInv(cfg, s, mv.now) && Enabled(s, mv.act) && mv.act.Get? && KindsMatch(Found(s))
    ensures RegionInv(cfg, Next(cfg, s, mv), mv.now) && Performs(cfg, s, mv)
  {
    GetRefines(cfg, s, mv);
  }

  lemma UseIsStep(cfg: Config, m: Buckets, op: Op, now: int)
    requires KindsMatch(m) && Answers(op) && OpOk(op) && op.key in m
    ensures var used := UseBucket(op, m[op.key], now); var (m', ok) := Step(cfg, m, Event(now, op));
      ok == used.1 && m' == m[op.key := used.0]
  {
    assert m[op.key := m[op.key]] == m;
  }

  lemma UsePerforms(cfg: Config, s: State, mv: Move)
    requires RegionInv(cfg, s, mv.now) && Enabled(s, mv.act) && mv.act.Use? && KindsMatch(Found(s))
    ensures RegionInv(cfg, Next(cfg, s, mv), mv.now) && Performs(cfg, s, mv)
  {
    UseRefines(cfg, s, mv);
    var c := s.callers[mv.act.caller];
    if Live(s, c) {
      UseIsStep(cfg, Found(s), c.op, mv.now);
    }
  }

  lemma CleanerPerforms(cfg: Config, s: State, mv: Move)
    requires RegionInv(cfg, s, mv.now) && Enabled(s, mv.act) && !mv.act.Get? && !mv.act.Use? && KindsMatch(Found(s))
    ensures RegionInv(cfg, Next(cfg, s, mv), mv.now) && Performs(cfg, s, mv)
  {
    CleanerRefines(cfg, s, mv);
  }

  /** So every interleaving of regions is a run of operations on the buckets that can be found. */
  lemma MoveRefines(cfg: Config, s: State, mv: Move, t0: int)
    requires RegionInv(cfg, s, t0) && Enabled(s, mv.act) && t0 <= mv.now
    ensures RegionInv(cfg, Next(cfg, s, mv), mv.now)
    ensures Inv(cfg, Found(s), t0) && KindsMatch(Found(s)) && Performs(cfg, s, mv)
  {
    FoundInv(cfg, s, t0);
    BucketsOkLater(cfg, s.heap, t0, mv.now);
    if mv.act.Get? {
      GetPerforms(cfg, s, mv);
    } else if mv.act.Use? {
      UsePerforms(cfg, s, mv);
    } else {
      CleanerPerforms(cfg, s, mv);
    }
  }

  lemma MoveKeepsInv(cfg: Config, s: State, mv: Move, t0: int)
    requires RegionInv(cfg, s, t0) && Enabled(s, mv.act) && t0 <= mv.now
    ensures RegionInv(cfg, Next(cfg, s, mv), mv.now)
  {
    MoveRefines(cfg, s, mv, t0);
  }
}
