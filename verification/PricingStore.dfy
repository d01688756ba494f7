/**
 The pricing store object: the price cache, its sorted list, and the record of unknown models,
 replaced or updated in place.
 */
module PricingStore {
  import opened Wrappers
  import opened Pricing

  class Store {
    var cache: Table
    var sorted: seq<Row>
    var unknown: Unknowns
    const defaults: Table

    /** The sorted list is the cache, longest prefixes first. */
    ghost predicate Valid()
      reads this`cache, this`sorted
    {
      LongestFirst(sorted) && Lists(sorted, cache)
    }

    constructor (defaults: Table)
      ensures Valid() && this.defaults == defaults && cache == map[] && unknown == map[]
    {
      this.defaults := defaults;
      cache, sorted, unknown := map[], [], map[];
    }

    /** Rebuild both structures from the database rows, whose prefixes are unique. */
    method ReloadCache(rows: seq<Row>)
      requires DistinctPrefixes(rows)
      modifies this`cache, this`sorted
      ensures Valid() && Lists(rows, cache)
    {
      var newCache: Table := map[];
      for i := 0 to |rows|
        invariant Lists(rows[..i], newCache)
      {
        ListOneMore(rows, i, newCache);
        newCache := newCache[rows[i].prefix := rows[i].price];
      }
      assert rows[..|rows|] == rows;
      cache := newCache;
      sorted := SortRows(rows);
      SortIsLongestFirst(rows);
      SameMembersList(rows, sorted, cache);
    }

    /** Sorted scan: the first prefix that fits. */
    method FirstFit(model: string) returns (found: Option<Row>)
      requires Valid()
      ensures found.Some? ==> IsLongest(cache, model, found.value.prefix) && cache[found.value.prefix] == found.value.price
      ensures found == None ==> !HasMatch(cache, model)
    {
      for i := 0 to |sorted|
        invariant forall j :: 0 <= j < i ==> !IsPrefix(sorted[j].prefix, model)
      {
        if IsPrefix(sorted[i].prefix, model) {
          FirstMatchIsLongest(sorted, cache, model, i);
          return Some(sorted[i]);
        }
      }
      return None;
    }

    method LookupPricing(model: string, now: int) returns (price: Price, ghost tier: Tier)
      requires Valid()
      modifies this`unknown
      ensures PricedBy(cache, defaults, model, tier)
      ensures price == PriceAt(cache, defaults, tier)
      ensures !tier.Unpriced? ==> unknown == old(unknown)
      ensures tier.Unpriced? ==> Tracked(old(unknown), unknown, model, now)
    {
      if model in cache {
        ExactIsLongest(cache, model);
        return cache[model], FromDB(model);
      }
      var row := FirstFit(model);
      if row.Some? {
        return row.value.price, FromDB(row.value.prefix);
      }
      if model in defaults {
        ExactIsLongest(Usable(defaults, model), model);
        return defaults[model], FromDefaults(model);
      }
      var best := BestDefault(defaults, model);
      if best != "" {
        return defaults[best], FromDefaults(best);
      }
      TrackUnknownModel(model, now);
      return FALLBACK, Unpriced;
    }

    method IsKnownModel(model: string) returns (known: bool)
      requires Valid()
      ensures known <==> Known(cache, defaults, model)
    {
      if model in cache {
        assert IsPrefix(model, model);
        return true;
      }
      var row := FirstFit(model);
      if row.Some? {
        return true;
      }
      if model in defaults {
        assert IsPrefix(model, model);
        return true;
      }
      var pending := defaults.Keys;
      while pending != {}
        invariant pending <= defaults.Keys
        invariant forall k :: k in defaults && k !in pending ==> !IsPrefix(k, model)
        decreases pending
      {
        var key :| key in pending;
        if IsPrefix(key, model) {
          return true;
        }
        pending := pending - {key};
      }
      return false;
    }

    method TrackUnknownModel(model: string, now: int)
      modifies this`unknown
      ensures Tracked(old(unknown), unknown, model, now)
    {
      if model in unknown {
        var e := unknown[model];
        unknown := unknown[model := Seen(e.hitCount + 1, e.firstSeen, now)];
      } else {
        if |unknown| >= MAX_UNKNOWN {
          var oldestKey, oldestTime := "", 0;
          var pending := unknown.Keys;
          ghost var order: seq<string> := [];
          while pending != {}
            invariant pending <= unknown.Keys && unknown == old(unknown)
            invariant forall i, j :: 0 <= i < j < |order| ==> order[i] != order[j]
            invariant forall k :: k in order <==> k in unknown && k !in pending
            invariant (oldestKey, oldestTime) == Scan(unknown, order)
            decreases pending
          {
            var k :| k in pending;
            if oldestKey == "" || unknown[k].lastSeen < oldestTime {
              oldestKey, oldestTime := k, unknown[k].lastSeen;
            }
            assert (order + [k])[..|order|] == order;
            order := order + [k];
            pending := pending - {k};
          }
          assert Visits(order, unknown);
          if oldestKey != "" {
            unknown := unknown - {oldestKey};
          }
          assert unknown == AfterEviction(old(unknown), Scan(old(unknown), order).0);
        }
        unknown := unknown[model := Seen(1, now, now)];
      }
    }
  }

  /** The built-in table's longest non-empty prefix of the model, or "" (also the form used without a store). */
  method BestDefault(defaults: Table, model: string) returns (best: string)
    requires model !in defaults
    ensures best != "" ==> IsLongest(Usable(defaults, model), model, best)
    ensures best == "" ==> !HasMatch(Usable(defaults, model), model)
  {
    best := "";
    var pending := defaults.Keys;
    while pending != {}
      invariant pending <= defaults.Keys
      invariant best != "" ==> best in defaults && IsPrefix(best, model)
      invariant forall k :: k in defaults && k !in pending && IsPrefix(k, model) ==> |k| <= |best|
      decreases pending
    {
      var key :| key in pending;
      if IsPrefix(key, model) && |key| > |best| {
        best := key;
      }
      pending := pending - {key};
    }
    var u := Usable(defaults, model);
    if model == "" && best == "" {
      forall k | k in u ensures !IsPrefix(k, model) {}
    }
  }

  /** The change of the record when a model without a price is seen. */
  ghost predicate Tracked(m: Unknowns, m': Unknowns, model: string, now: int) {
    if model in m then
      m' == m[model := Seen(m[model].hitCount + 1, m[model].firstSeen, now)]
    else if |m| < MAX_UNKNOWN then
      m' == m[model := Seen(1, now, now)]
    else
      exists order :: Visits(order, m) && m' == AfterEviction(m, Scan(m, order).0)[model := Seen(1, now, now)]
  }

  lemma ListOneMore(rows: seq<Row>, i: nat, t: Table)
    requires DistinctPrefixes(rows) && i < |rows| && Lists(rows[..i], t)
    ensures Lists(rows[..i + 1], t[rows[i].prefix := rows[i].price])
  {
    var s, t' := rows[..i + 1], t[rows[i].prefix := rows[i].price];
    forall j | 0 <= j < |s| ensures s[j].prefix in t' && t'[s[j].prefix] == s[j].price {
      if j < i { assert rows[..i][j] == s[j]; }
    }
    forall k | k in t' ensures exists j :: 0 <= j < |s| && s[j].prefix == k {
      if k == rows[i].prefix {
        assert s[i].prefix == k;
      } else {
        var j :| 0 <= j < |rows[..i]| && rows[..i][j].prefix == k;
        assert s[j].prefix == k;
      }
    }
  }

  lemma SameMembersList(rows: seq<Row>, s: seq<Row>, t: Table)
    requires Lists(rows, t) && forall x :: x in s <==> x in rows
    ensures Lists(s, t)
  {
    forall i | 0 <= i < |s| ensures s[i].prefix in t && t[s[i].prefix] == s[i].price {
      assert s[i] in rows;
    }
    forall k | k in t ensures exists i :: 0 <= i < |s| && s[i].prefix == k {
      var j :| 0 <= j < |rows| && rows[j].prefix == k;
      assert rows[j] in s;
      var i :| 0 <= i < |s| && s[i] == rows[j];
    }
  }

  // ---- The record over whole runs ----

  /** A run of lookups of models without a price, at clock readings. */
  ghost predicate RunOf(ms: seq<Unknowns>, models: seq<string>, times: seq<int>) {
    && |ms| == |models| + 1 == |times| + 1
    && ms[0] == map[]
    && forall i :: 0 <= i < |models| ==> Tracked(ms[i], ms[i + 1], models[i], times[i])
  }

  lemma TrackedStaysBounded(m: Unknowns, m': Unknowns, model: string, now: int)
    requires Tracked(m, m', model, now) && "" !in m && model != "" && |m| <= MAX_UNKNOWN
    ensures "" !in m' && |m'| <= MAX_UNKNOWN
  {
    if model in m {
      assert m'.Keys == m.Keys;
    } else if |m| < MAX_UNKNOWN {
      assert m'.Keys == m.Keys + {model};
    } else {
      var order :| Visits(order, m) && m' == AfterEviction(m, Scan(m, order).0)[model := Seen(1, now, now)];
      EvictionTrims(m, order, model, Seen(1, now, now));
    }
  }

  /** In every run that never looks up the empty model name, at most 500 models are recorded. */
  lemma {:induction false} RecordIsBounded(ms: seq<Unknowns>, models: seq<string>, times: seq<int>, i: nat)
    requires RunOf(ms, models, times) && "" !in models && i < |ms|
    ensures "" !in ms[i] && |ms[i]| <= 500
    decreases i
  {
    if i > 0 {
      RecordIsBounded(ms, models, times, i - 1);
      assert models[i - 1] in models;
      TrackedStaysBounded(ms[i - 1], ms[i], models[i - 1], times[i - 1]);
    }
  }

  // ---- What the record says ----

  /** How often a model was looked up from step a on and before step b. */
  function Lookups(models: seq<string>, a: nat, b: nat, model: string): nat
    requires a <= b <= |models|
  {
    if a == b then 0 else Lookups(models, a, b - 1, model) + if models[b - 1] == model then 1 else 0
  }

  /** The model was put on record at step a, and since then looked up as often, and last, as the record says. */
  ghost predicate RecordedSince(models: seq<string>, times: seq<int>, a: nat, i: nat, model: string, seen: Seen)
    requires i <= |models| == |times|
  {
    && a < i && models[a] == model && seen.firstSeen == times[a] && seen.hitCount == Lookups(models, a, i, model)
    && exists last :: a <= last < i && models[last] == model && seen.lastSeen == times[last]
         && forall k :: last < k < i ==> models[k] != model
  }

  lemma TrackedKeeps(m: Unknowns, m': Unknowns, model: string, now: int, other: string)
    requires Tracked(m, m', model, now) && other in m' && other != model
    ensures other in m && m'[other] == m[other]
  {
    if model !in m && |m| >= MAX_UNKNOWN {
      var order :| Visits(order, m) && m' == AfterEviction(m, Scan(m, order).0)[model := Seen(1, now, now)];
    }
  }

  /** A lookup puts the model on record, or counts it once more and notes the time. */
  lemma TrackedRecords(m: Unknowns, m': Unknowns, model: string, now: int)
    requires Tracked(m, m', model, now)
    ensures model in m' && m'[model].lastSeen == now
    ensures model in m ==> m'[model].hitCount == m[model].hitCount + 1 && m'[model].firstSeen == m[model].firstSeen
    ensures model !in m ==> m'[model].hitCount == 1 && m'[model].firstSeen == now
  {
    if model !in m && |m| >= MAX_UNKNOWN {
      var order :| Visits(order, m) && m' == AfterEviction(m, Scan(m, order).0)[model := Seen(1, now, now)];
    }
  }

  /**
   In every run, each model on record has been looked up, since it was put there, as often as its count says,
   for the first time and for the last time when the record says.
   */
  lemma {:induction false} RecordCountsLookups(ms: seq<Unknowns>, models: seq<string>, times: seq<int>, i: nat, model: string) returns (a: nat)
    requires RunOf(ms, models, times) && i < |ms| && model in ms[i]
    ensures RecordedSince(models, times, a, i, model, ms[i][model])
    decreases i
  {
    var n := i - 1;
    RecordAfterStep(ms[n], ms[n + 1], models[n], times[n], model);
    if model in ms[n] {
      a := RecordCountsLookups(ms, models, times, n, model);
      CountedOnce(models, times, a, n, model, ms[n][model], ms[i][model]);
    } else {
      a := n;
      FirstLookup(models, times, n, model);
    }
  }

  /** What the record says of a model after one lookup, of it or of another. */
  lemma RecordAfterStep(m: Unknowns, m': Unknowns, looked: string, now: int, model: string)
    requires Tracked(m, m', looked, now) && model in m'
    ensures looked == model ==> m'[model] == if model in m then Seen(m[model].hitCount + 1, m[model].firstSeen, now) else Seen(1, now, now)
    ensures looked != model ==> model in m && m'[model] == m[model]
  {
    if looked == model {
      TrackedRecords(m, m', model, now);
    } else {
      TrackedKeeps(m, m', looked, now, model);
    }
  }

  lemma FirstLookup(models: seq<string>, times: seq<int>, n: nat, model: string)
    requires n < |models| == |times| && models[n] == model
    ensures RecordedSince(models, times, n, n + 1, model, Seen(1, times[n], times[n]))
  {
    assert Lookups(models, n, n, model) == 0;
  }

  lemma CountedOnce(models: seq<string>, times: seq<int>, a: nat, n: nat, model: string, seen: Seen, seen': Seen)
    requires n < |models| == |times| && RecordedSince(models, times, a, n, model, seen)
    requires seen' == if models[n] == model then Seen(seen.hitCount + 1, seen.firstSeen, times[n]) else seen
    ensures RecordedSince(models, times, a, n + 1, model, seen')
  {
    var last := if models[n] == model then n else LastLookup(models, times, a, n, model, seen);
    assert forall k :: last < k < n + 1 ==> models[k] != model;
  }

  ghost function LastLookup(models: seq<string>, times: seq<int>, a: nat, i: nat, model: string, seen: Seen): (last: nat)
    requires i <= |models| == |times| && RecordedSince(models, times, a, i, model, seen)
    ensures a <= last < i && models[last] == model && seen.lastSeen == times[last] && forall k :: last < k < i ==> models[k] != model
  {
    var last: nat :| a <= last < i && models[last] == model && seen.lastSeen == times[last] && forall k :: last < k < i ==> models[k] != model;
    last
  }

  lemma {:induction false} ScanStaysInside(m: Unknowns, order: seq<string>)
    requires forall k :: k in order ==> k in m
    ensures Scan(m, order).0 == "" || Scan(m, order).0 in m
  {
    if order != [] {
      ScanStaysInside(m, order[..|order| - 1]);
    }
  }

  lemma ExchangeKeepsSize(m: Unknowns, victim: string, model: string, seen: Seen)
    requires victim in m && model !in m
    ensures |(m - {victim})[model := seen]| == |m|
  {
    var rest := m - {victim};
    assert rest.Keys == m.Keys - {victim};
    assert rest[model := seen].Keys == rest.Keys + {model};
  }

  ghost predicate CanGrow(m: Unknowns, model: string, now: int) {
    exists m' :: Tracked(m, m', model, now) && |m'| > |m|
  }

  lemma GrowsOnlyWithoutVictim(m: Unknowns, model: string, now: int)
    requires CanGrow(m, model, now) && |m| >= MAX_UNKNOWN && model !in m
    ensures EvictionCanFail(m)
  {
    var m' :| Tracked(m, m', model, now) && |m'| > |m|;
    var order :| Visits(order, m) && m' == AfterEviction(m, Scan(m, order).0)[model := Seen(1, now, now)];
    ScanStaysInside(m, order);
    if Scan(m, order).0 != "" {
      ExchangeKeepsSize(m, Scan(m, order).0, model, Seen(1, now, now));
    }
  }

  lemma GrowsWithoutVictim(m: Unknowns, model: string, now: int)
    requires EvictionCanFail(m) && |m| >= MAX_UNKNOWN && model !in m
    ensures Tracked(m, m[model := Seen(1, now, now)], model, now) && |m[model := Seen(1, now, now)]| == |m| + 1
  {
    var order :| Visits(order, m) && Scan(m, order).0 == "";
    assert m[model := Seen(1, now, now)] == AfterEviction(m, Scan(m, order).0)[model := Seen(1, now, now)];
    assert m[model := Seen(1, now, now)].Keys == m.Keys + {model};
  }

  /** A full record can grow past the limit exactly when the empty name is its strictly oldest entry. */
  lemma FullRecordCanGrowIff(m: Unknowns, model: string, now: int)
    requires |m| >= MAX_UNKNOWN && model !in m
    ensures CanGrow(m, model, now) <==> EmptyIsOldest(m)
  {
    EvictionCanFailIff(m);
    if CanGrow(m, model, now) {
      GrowsOnlyWithoutVictim(m, model, now);
    }
    if EmptyIsOldest(m) {
      GrowsWithoutVictim(m, model, now);
    }
  }

  // ---- A run that passes the limit ----

  function Name(i: nat): string { seq(i, _ => 'x') }

  /** The record after looking up n names, the empty one first. */
  function Recorded(n: nat): Unknowns {
    if n == 0 then map[] else Recorded(n - 1)[Name(n - 1) := Seen(1, n - 1, n - 1)]
  }

  lemma {:induction false} RecordedFacts(n: nat)
    ensures |Recorded(n)| == n
    ensures forall k :: k in Recorded(n) ==> |k| < n && k == Name(|k|) && Recorded(n)[k] == Seen(1, |k|, |k|)
    ensures n > 0 ==> "" in Recorded(n)
  {
    if n > 0 {
      RecordedFacts(n - 1);
      assert |Name(n - 1)| == n - 1;
      assert Recorded(n).Keys == Recorded(n - 1).Keys + {Name(n - 1)};
      assert Name(0) == "";
    }
  }

  lemma RecordedStep(i: nat)
    requires i <= MAX_UNKNOWN
    ensures Tracked(Recorded(i), Recorded(i + 1), Name(i), i)
  {
    RecordedFacts(i);
    assert |Name(i)| == i;
    assert Name(i) !in Recorded(i);
    if i == MAX_UNKNOWN {
      EvictionCanFailIff(Recorded(i));
      GrowsWithoutVictim(Recorded(i), Name(i), i);
    }
  }

  function Records(n: nat): (ms: seq<Unknowns>)
    ensures |ms| == n + 1 && forall i :: 0 <= i <= n ==> ms[i] == Recorded(i)
  {
    seq(n + 1, i requires 0 <= i => Recorded(i))
  }

  function Names(n: nat): (models: seq<string>)
    ensures |models| == n && forall i :: 0 <= i < n ==> models[i] == Name(i)
  {
    seq(n, i requires 0 <= i => Name(i))
  }

  /** Looking up the empty name and then 500 others can leave 501 models on record. */
  lemma SomeRunPassesTheLimit()
    ensures MAX_UNKNOWN + 1 == 501
    ensures var n := MAX_UNKNOWN + 1;
      RunOf(Records(n), Names(n), seq(n, i => i)) && |Records(n)[n]| == n
  {
    var n := MAX_UNKNOWN + 1;
    forall i | 0 <= i < n ensures Tracked(Records(n)[i], Records(n)[i + 1], Names(n)[i], seq(n, i => i)[i]) {
      RecordedStep(i);
    }
    RecordedFacts(n);
  }
}
