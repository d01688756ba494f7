/**
 The response cache: a map of entries, a recency list and a map from hashes into that list
 (cache/cache.go). Here it is a recency sequence plus a map, one function per lock region; CacheObject
 keeps the three structures of the source and refines this, CacheInterleaving runs the regions interleaved.
 Time is an integer clock reading handed to each call.
 */
module ResponseCache {
  import opened Wrappers
  import opened LruOrder

  datatype Entry = Entry(hash: string, provider: string, model: string, statusCode: int,
                         body: string, headers: string, inputTokens: int, outputTokens: int,
                         costPerHit: real, expiresAt: int)

  /** Keys by recency, most recent first, and their entries. */
  datatype Cache = Cache(order: seq<string>, vals: map<string, Entry>)

  ghost predicate Agrees(c: Cache) {
    NoDup(c.order) && forall k :: k in c.order <==> k in c.vals
  }

  /** A limit below one still leaves room for one entry: the eviction precedes the insertion. */
  function Capacity(maxEntries: int): nat { if maxEntries < 1 then 1 else maxEntries }

  ghost predicate Bounded(c: Cache, maxEntries: int) { |c.order| <= Capacity(maxEntries) }

  // ---- One function per lock region ----

  function Read(c: Cache, k: string): Option<Entry> { if k in c.vals then Some(c.vals[k]) else None }

  function Drop(c: Cache, k: string): Cache { Cache(RemoveFrom(c.order, k), c.vals - {k}) }

  function Promote(c: Cache, k: string): Cache { if k in c.order then c.(order := Touch(c.order, k)) else c }

  function EvictLast(c: Cache): Cache {
    if c.order == [] then c
    else Cache(c.order[..|c.order| - 1], c.vals - {c.order[|c.order| - 1]})
  }

  /** What an update in place keeps: hash, provider, model and status of the first store. */
  function Overwrite(previous: Entry, e: Entry): Entry {
    previous.(body := e.body, headers := e.headers, inputTokens := e.inputTokens,
          outputTokens := e.outputTokens, costPerHit := e.costPerHit, expiresAt := e.expiresAt)
  }

  function Store(c: Cache, maxEntries: int, k: string, e: Entry): Cache {
    if k in c.vals then Promote(c.(vals := c.vals[k := Overwrite(c.vals[k], e)]), k)
    else
      var room := if |c.vals| >= maxEntries then EvictLast(c) else c;
      Cache([k] + room.order, room.vals[k := e])
  }

  function Without<T(==)>(s: seq<T>, dead: set<T>): (r: seq<T>)
    ensures forall x :: x in r ==> x in s && x !in dead
    ensures forall x :: x in s && x !in dead ==> x in r
  {
    if s == [] then []
    else if s[0] in dead then Without(s[1..], dead)
    else [s[0]] + Without(s[1..], dead)
  }

  function ExpiredKeys(c: Cache, now: int): set<string> {
    set k | k in c.vals && now > c.vals[k].expiresAt
  }

  function EvictExpired(c: Cache, now: int): Cache {
    Cache(Without(c.order, ExpiredKeys(c, now)), c.vals - ExpiredKeys(c, now))
  }

  const EMPTY := Cache([], map[])

  /** A lookup with nothing running beside it. */
  function Lookup(c: Cache, k: string, now: int): (Cache, Option<Entry>) {
    match Read(c, k)
    case None => (c, None)
    case Some(e) => if now > e.expiresAt then (Drop(c, k), None) else (Promote(c, k), Some(e))
  }

  /** Rows pushed to the front one after the other. */
  function WarmLoad(rows: seq<Entry>): Cache {
    if rows == [] then EMPTY
    else
      var c := WarmLoad(rows[..|rows| - 1]);
      var e := rows[|rows| - 1];
      Cache([e.hash] + c.order, c.vals[e.hash := e])
  }

  /** Truncation toward zero of cost in millionths. */
  function Micros(cost: real): int {
    var x := cost * 1000000.0;
    if x >= 0.0 then x.Floor else -((-x).Floor)
  }

  // ---- Every region keeps the structures in agreement and within bounds ----

  lemma {:induction false} SizeIsLength(c: Cache)
    requires Agrees(c)
    ensures |c.vals| == |c.order|
  {
    DistinctCount(c.order);
    assert (set k | k in c.order) == c.vals.Keys;
  }

  lemma DropKeeps(c: Cache, k: string)
    requires Agrees(c)
    ensures Agrees(Drop(c, k)) && |Drop(c, k).order| <= |c.order|
  {
    RemoveKeepsNoDup(c.order, k);
  }

  lemma PromoteKeeps(c: Cache, k: string)
    requires Agrees(c)
    ensures Agrees(Promote(c, k)) && |Promote(c, k).order| == |c.order|
  {
    RemoveKeepsNoDup(c.order, k);
  }

  lemma EvictLastKeeps(c: Cache)
    requires Agrees(c)
    ensures Agrees(EvictLast(c))
  {
    var n := |c.order| - 1;
    if n >= 0 {
      var last := c.order[n];
      assert c.order == c.order[..n] + [last];
      assert last !in c.order[..n];
    }
  }

  lemma StoreKeeps(c: Cache, maxEntries: int, k: string, e: Entry)
    requires Agrees(c) && Bounded(c, maxEntries)
    ensures Agrees(Store(c, maxEntries, k, e)) && Bounded(Store(c, maxEntries, k, e), maxEntries)
  {
    SizeIsLength(c);
    if k in c.vals {
      PromoteKeeps(c.(vals := c.vals[k := Overwrite(c.vals[k], e)]), k);
    } else {
      EvictLastKeeps(c);
    }
  }

  lemma {:induction false} WithoutNoDup<T>(s: seq<T>, dead: set<T>)
    requires NoDup(s)
    ensures NoDup(Without(s, dead)) && |Without(s, dead)| <= |s|
  {
    if s != [] {
      WithoutNoDup(s[1..], dead);
      assert s[0] !in s[1..];
    }
  }

  lemma EvictExpiredKeeps(c: Cache, now: int)
    requires Agrees(c)
    ensures Agrees(EvictExpired(c, now)) && |EvictExpired(c, now).order| <= |c.order|
  {
    WithoutNoDup(c.order, ExpiredKeys(c, now));
  }

  lemma {:induction false} RemoveFromWithout<T>(s: seq<T>, dead: set<T>, x: T)
    requires NoDup(s)
    ensures RemoveFrom(Without(s, dead), x) == Without(s, dead + {x})
  {
    if s != [] {
      RemoveFromWithout(s[1..], dead, x);
      if s[0] == x && x !in dead {
        assert x !in s[1..];
        SameWithout(s[1..], dead, x);
      }
    }
  }

  lemma {:induction false} SameWithout<T>(s: seq<T>, dead: set<T>, x: T)
    requires x !in s
    ensures Without(s, dead + {x}) == Without(s, dead)
  {
    if s != [] {
      SameWithout(s[1..], dead, x);
    }
  }

  lemma {:induction false} WithoutNothing<T>(s: seq<T>)
    ensures Without(s, {}) == s
  {
    if s != [] {
      WithoutNothing(s[1..]);
    }
  }

  // ---- What a lookup serves ----

  /** The answer a client gets from it: body, headers, token counts and price, until the same time. */
  predicate ServesAs(got: Entry, stored: Entry) {
    && got.body == stored.body && got.headers == stored.headers
    && got.inputTokens == stored.inputTokens && got.outputTokens == stored.outputTokens
    && got.costPerHit == stored.costPerHit && got.expiresAt == stored.expiresAt
  }

  /**
   What was stored last under a key is what a lookup serves until it expires, and from then on nothing. An
   update in place keeps the hash, provider, model and status that the key was first stored with. The key
   stored, and the key found, is the most recent one.
   */
  lemma StoredIsServed(c: Cache, maxEntries: int, k: string, e: Entry, now: int)
    requires Agrees(c)
    ensures var (c', found) := Lookup(Store(c, maxEntries, k, e), k, now);
      && Store(c, maxEntries, k, e).order != [] && Store(c, maxEntries, k, e).order[0] == k
      && (found.Some? <==> now <= e.expiresAt)
      && (found.Some? ==> c'.order != [] && c'.order[0] == k)
      && (found.Some? ==> ServesAs(found.value, e))
      && (found.Some? && k !in c.vals ==> found.value == e)
      && (found.Some? && k in c.vals ==> var first := c.vals[k];
            && found.value.hash == first.hash && found.value.provider == first.provider
            && found.value.model == first.model && found.value.statusCode == first.statusCode)
  {
  }

  /** A store changes no other key's entry, and takes at most one out: the least recent, for a new key in a full cache. */
  lemma StoreLeavesOthers(c: Cache, maxEntries: int, k: string, e: Entry, j: string)
    requires Agrees(c) && j != k
    ensures var c' := Store(c, maxEntries, k, e);
      && (j in c'.vals ==> j in c.vals && c'.vals[j] == c.vals[j])
      && (j in c.vals && j !in c'.vals <==>
            k !in c.vals && |c.vals| >= maxEntries && c.order != [] && c.order[|c.order| - 1] == j)
  {
  }

  /** A lookup changes no entry, and takes out at most its own key, which has expired. */
  lemma LookupLeavesOthers(c: Cache, k: string, now: int, j: string)
    requires Agrees(c)
    ensures var c' := Lookup(c, k, now).0;
      && (j in c'.vals ==> j in c.vals && c'.vals[j] == c.vals[j])
      && (j in c.vals && j !in c'.vals <==> j == k && j in c.vals && now > c.vals[j].expiresAt)
      && (k in c'.vals ==> c'.order != [] && c'.order[0] == k)
  {
  }

  /** A sweep goes unnoticed: every later lookup answers as without it. Nothing expired is left. */
  lemma SweepGoesUnnoticed(c: Cache, now: int, k: string, later: int)
    requires now <= later
    ensures Lookup(EvictExpired(c, now), k, later).1 == Lookup(c, k, later).1
    ensures k in EvictExpired(c, now).vals <==> k in c.vals && now <= c.vals[k].expiresAt
  {
  }

  /** Millionths, cut off: never more than the cost, and less by under one. */
  lemma MicrosAreClose(cost: real)
    requires cost >= 0.0
    ensures Micros(cost) as real <= cost * 1000000.0 < (Micros(cost) + 1) as real
  {
  }

  predicate DistinctHashes(rows: seq<Entry>) {
    forall i, j :: 0 <= i < j < |rows| ==> rows[i].hash != rows[j].hash
  }

  function Reversed<T>(s: seq<T>): (r: seq<T>)
    ensures |r| == |s|
    ensures forall i :: 0 <= i < |s| ==> r[i] == s[|s| - 1 - i]
  {
    seq(|s|, i requires 0 <= i < |s| => s[|s| - 1 - i])
  }

  function Hashes(rows: seq<Entry>): (r: seq<string>)
    ensures |r| == |rows| && forall i :: 0 <= i < |rows| ==> r[i] == rows[i].hash
  {
    seq(|rows|, i requires 0 <= i < |rows| => rows[i].hash)
  }

  /** Rows arrive most recently accessed first, so after a restart the recency order is upside down. */
  lemma {:induction false} WarmLoadReverses(rows: seq<Entry>)
    ensures WarmLoad(rows).order == Reversed(Hashes(rows))
  {
    if rows != [] {
      WarmLoadReverses(rows[..|rows| - 1]);
    }
  }

  lemma {:induction false} WarmLoadHolds(rows: seq<Entry>)
    requires DistinctHashes(rows)
    ensures forall k :: k in WarmLoad(rows).vals <==> k in Hashes(rows)
    ensures forall i :: 0 <= i < |rows| ==> rows[i].hash in WarmLoad(rows).vals && WarmLoad(rows).vals[rows[i].hash] == rows[i]
  {
    if rows != [] {
      var init := rows[..|rows| - 1];
      WarmLoadHolds(init);
      assert Hashes(rows) == Hashes(init) + [rows[|rows| - 1].hash];
      forall i | 0 <= i < |init| ensures rows[i].hash in WarmLoad(init).vals && WarmLoad(init).vals[rows[i].hash] == rows[i] {
        assert init[i] == rows[i];
      }
    }
  }

  lemma {:induction false} WarmLoadKeeps(rows: seq<Entry>, maxEntries: int)
    requires DistinctHashes(rows) && |rows| <= Capacity(maxEntries)
    ensures Agrees(WarmLoad(rows)) && Bounded(WarmLoad(rows), maxEntries)
  {
    WarmLoadReverses(rows);
    WarmLoadHolds(rows);
    ReversedAgrees(WarmLoad(rows), Hashes(rows));
  }

  lemma ReversedAgrees(c: Cache, h: seq<string>)
    requires c.order == Reversed(h) && NoDup(h) && forall k :: k in c.vals <==> k in h
    ensures Agrees(c) && |c.order| == |h|
  {
    ReversedMembers(h);
  }

  lemma ReversedMembers(s: seq<string>)
    ensures forall k :: k in Reversed(s) <==> k in s
    ensures NoDup(s) ==> NoDup(Reversed(s))
  {
    var r := Reversed(s);
    forall k ensures k in r <==> k in s {
      if k in s {
        var i :| 0 <= i < |s| && s[i] == k;
        assert r[|s| - 1 - i] == k;
      }
    }
  }

  /** So at capacity the first store of a new key evicts the hottest row of all, and only that one. */
  lemma {:induction false} WarmLoadedCacheEvictsTheHottest(rows: seq<Entry>, maxEntries: int, k: string, e: Entry)
    requires DistinctHashes(rows) && |rows| == maxEntries >= 1 && k !in Hashes(rows)
    ensures var w := WarmLoad(rows);
      rows[0].hash in w.vals && Store(w, maxEntries, k, e).vals == (w.vals - {rows[0].hash})[k := e]
  {
    var w := WarmLoad(rows);
    WarmLoadReverses(rows);
    WarmLoadHolds(rows);
    WarmLoadKeeps(rows, maxEntries);
    SizeIsLength(w);
    assert w.order[maxEntries - 1] == rows[0].hash;
    StoreWhenFull(w, maxEntries, k, e);
  }

  lemma StoreWhenFull(c: Cache, maxEntries: int, k: string, e: Entry)
    requires k !in c.vals && |c.vals| >= maxEntries && c.order != []
    ensures Store(c, maxEntries, k, e).vals == (c.vals - {c.order[|c.order| - 1]})[k := e]
  {
  }

  // ---- Get-or-fill accesses follow the recency order ----

  ghost predicate NothingExpired(c: Cache, now: int) {
    forall k :: k in c.vals ==> c.vals[k].expiresAt >= now
  }

  /** What the proxy does with one request: look up, and store the response on a miss. */
  function GetOrFill(c: Cache, maxEntries: int, k: string, e: Entry, now: int): (Cache, Option<Entry>) {
    var (c', found) := Lookup(c, k, now);
    if found.Some? then (c', found) else (Store(c', maxEntries, k, e), None)
  }

  lemma GetOrFillIsAccess(c: Cache, maxEntries: int, k: string, e: Entry, now: int)
    requires Agrees(c) && NothingExpired(c, now)
    ensures var (c', found) := GetOrFill(c, maxEntries, k, e, now);
      && Agrees(c') && c'.order == Access(c.order, k, Capacity(maxEntries))
      && (found.Some? <==> k in c.order)
      && (found.Some? ==> found.value == c.vals[k])
  {
    SizeIsLength(c);
    PromoteKeeps(c, k);
    if k !in c.vals {
      EvictLastKeeps(c);
    }
  }

  datatype Fill = Fill(key: string, entry: Entry, now: int)

  function KeysOf(fills: seq<Fill>): (r: seq<string>)
    ensures |r| == |fills| && forall i :: 0 <= i < |fills| ==> r[i] == fills[i].key
  {
    seq(|fills|, i requires 0 <= i < |fills| => fills[i].key)
  }

  /** No access sees an expired entry: everything stored lives until `horizon`, all accesses are before it. */
  predicate LongLived(fills: seq<Fill>, horizon: int) {
    forall i :: 0 <= i < |fills| ==> fills[i].now <= horizon <= fills[i].entry.expiresAt
  }

  function RunFills(fills: seq<Fill>, maxEntries: int): Cache {
    if fills == [] then EMPTY
    else
      var f := fills[|fills| - 1];
      GetOrFill(RunFills(fills[..|fills| - 1], maxEntries), maxEntries, f.key, f.entry, f.now).0
  }

  lemma {:induction false} FillsFollowRecency(fills: seq<Fill>, maxEntries: int, horizon: int)
    requires LongLived(fills, horizon)
    ensures var c := RunFills(fills, maxEntries);
      Agrees(c) && NothingExpired(c, horizon) && c.order == Accesses(KeysOf(fills), Capacity(maxEntries))
  {
    if fills != [] {
      var init, f := fills[..|fills| - 1], fills[|fills| - 1];
      FillsFollowRecency(init, maxEntries, horizon);
      var c := RunFills(init, maxEntries);
      GetOrFillIsAccess(c, maxEntries, f.key, f.entry, f.now);
      assert KeysOf(fills)[..|fills| - 1] == KeysOf(init);
    }
  }

  /** How many of the requests were answered from the cache. */
  function FillHits(fills: seq<Fill>, maxEntries: int): nat {
    if fills == [] then 0
    else
      var init, f := fills[..|fills| - 1], fills[|fills| - 1];
      FillHits(init, maxEntries)
      + if GetOrFill(RunFills(init, maxEntries), maxEntries, f.key, f.entry, f.now).1.Some? then 1 else 0
  }

  lemma {:induction false} FillHitsAreHits(fills: seq<Fill>, maxEntries: int, horizon: int)
    requires LongLived(fills, horizon)
    ensures FillHits(fills, maxEntries) == Hits(KeysOf(fills), Capacity(maxEntries))
  {
    if fills != [] {
      var init, f := fills[..|fills| - 1], fills[|fills| - 1];
      FillHitsAreHits(init, maxEntries, horizon);
      FillsFollowRecency(init, maxEntries, horizon);
      GetOrFillIsAccess(RunFills(init, maxEntries), maxEntries, f.key, f.entry, f.now);
      assert KeysOf(fills)[..|fills| - 1] == KeysOf(init);
    }
  }

  /** A larger cache never answers fewer of the same requests. */
  lemma LargerCacheHitsMore(fills: seq<Fill>, small: int, large: int, horizon: int)
    requires LongLived(fills, horizon) && small <= large
    ensures FillHits(fills, small) <= FillHits(fills, large)
  {
    FillHitsAreHits(fills, small, horizon);
    FillHitsAreHits(fills, large, horizon);
    HitsGrowWithCapacity(KeysOf(fills), Capacity(small), Capacity(large));
  }

  lemma KeysAround(pre: seq<Fill>, f: Fill, post: seq<Fill>)
    ensures KeysOf(pre + [f] + post) == KeysOf(pre) + [f.key] + KeysOf(post)
  {
  }

  /**
   Over any sequence of get-or-fill requests with nothing expired, a key hits exactly when fewer
   than the capacity of distinct other keys were requested since its own last request.
   */
  lemma {:induction false} HitIffFewOthersSince(pre: seq<Fill>, f: Fill, post: seq<Fill>, maxEntries: int, horizon: int, e: Entry, now: int)
    requires LongLived(pre + [f] + post, horizon) && now <= horizon
    requires forall i :: 0 <= i < |post| ==> post[i].key != f.key
    ensures var c := RunFills(pre + [f] + post, maxEntries);
      GetOrFill(c, maxEntries, f.key, e, now).1.Some? <==> |Keys(KeysOf(post))| < Capacity(maxEntries)
  {
    var fills := pre + [f] + post;
    FillsFollowRecency(fills, maxEntries, horizon);
    var c := RunFills(fills, maxEntries);
    GetOrFillIsAccess(c, maxEntries, f.key, e, now);
    KeysAround(pre, f, post);
    KeptIffFewOthersSince(KeysOf(pre), f.key, KeysOf(post), Capacity(maxEntries));
  }
}
