/**
 Model pricing by longest matching prefix, and the bounded record of models without a price
 (tracker/pricing_store.go, tracker/cost_calculator.go). The built-in price table is a parameter.
 */
module Pricing {
  import opened Wrappers

  datatype Price = Price(input: real, cachedInput: real, output: real)

  datatype Row = Row(prefix: string, price: Price)

  type Table = map<string, Price>

  const FALLBACK := Price(3.0, 0.0, 15.0)

  // ---- What a lookup should find ----

  predicate IsPrefix(k: string, model: string) { k <= model }

  predicate HasMatch(t: Table, model: string) { exists k :: k in t && IsPrefix(k, model) }

  /** k is the longest key of the table that the model starts with. */
  ghost predicate IsLongest(t: Table, model: string, k: string) {
    && k in t && IsPrefix(k, model)
    && forall j :: j in t && IsPrefix(j, model) ==> |j| <= |k|
  }

  lemma PrefixesOfOneLength(model: string, j: string, k: string)
    requires IsPrefix(j, model) && IsPrefix(k, model) && |j| == |k|
    ensures j == k
  {
    assert j == model[..|j|] == k;
  }

  lemma LongestIsUnique(t: Table, model: string, j: string, k: string)
    requires IsLongest(t, model, j) && IsLongest(t, model, k)
    ensures j == k
  {
    PrefixesOfOneLength(model, j, k);
  }

  lemma ExactIsLongest(t: Table, model: string)
    requires model in t
    ensures IsLongest(t, model, model)
  {
  }

  /** Keys the built-in table is searched for: an exact key, or any but the empty prefix. */
  function Usable(defaults: Table, model: string): Table {
    map k | k in defaults && (k != "" || model == "") :: defaults[k]
  }

  datatype Tier = FromDB(key: string) | FromDefaults(key: string) | Unpriced

  /** The tier a model is priced from: the database first, then the built-in table. */
  ghost predicate PricedBy(db: Table, defaults: Table, model: string, tier: Tier) {
    match tier
    case FromDB(k) => IsLongest(db, model, k)
    case FromDefaults(k) => !HasMatch(db, model) && IsLongest(Usable(defaults, model), model, k)
    case Unpriced => !HasMatch(db, model) && !HasMatch(Usable(defaults, model), model)
  }

  function PriceAt(db: Table, defaults: Table, tier: Tier): Price
    requires tier.FromDB? ==> tier.key in db
    requires tier.FromDefaults? ==> tier.key in defaults
  {
    match tier
    case FromDB(k) => db[k]
    case FromDefaults(k) => defaults[k]
    case Unpriced => FALLBACK
  }

  /** The result is determined: no tie order, sorting algorithm or iteration order can change it. */
  lemma TierIsUnique(db: Table, defaults: Table, model: string, a: Tier, b: Tier)
    requires PricedBy(db, defaults, model, a) && PricedBy(db, defaults, model, b)
    ensures a == b
  {
    match (a, b)
    case (FromDB(j), FromDB(k)) => LongestIsUnique(db, model, j, k);
    case (FromDefaults(j), FromDefaults(k)) => LongestIsUnique(Usable(defaults, model), model, j, k);
    case _ =>
  }

  /** Whatever the built-in table says, a database row for a model or any prefix of it decides; no row, and the table does. */
  lemma DatabaseComesFirst(db: Table, defaults: Table, model: string, tier: Tier)
    requires PricedBy(db, defaults, model, tier)
    ensures (exists k :: k in db && k <= model) <==> tier.FromDB?
    ensures tier.FromDB? ==> tier.key in db && PriceAt(db, defaults, tier) == db[tier.key]
    ensures tier.FromDefaults? ==> tier.key in defaults && PriceAt(db, defaults, tier) == defaults[tier.key]
    ensures tier.Unpriced? ==> PriceAt(db, defaults, tier) == Price(3.0, 0.0, 15.0)
    ensures model in db ==> PriceAt(db, defaults, tier) == db[model]
    ensures model in defaults && !tier.FromDB? ==> PriceAt(db, defaults, tier) == defaults[model]
  {
    if tier.FromDB? {
      assert IsPrefix(tier.key, model);
      if model in db {
        PrefixesOfOneLength(model, tier.key, model);
      }
    }
    if exists k :: k in db && k <= model {
      var k :| k in db && k <= model;
      assert IsPrefix(k, model);
    }
    if tier.FromDefaults? && model in defaults {
      assert model in Usable(defaults, model) && IsPrefix(model, model);
      PrefixesOfOneLength(model, tier.key, model);
    }
    if tier.Unpriced? && model in defaults {
      assert IsPrefix(model, model) && model in Usable(defaults, model);
    }
  }

  /** A new database row prices exactly the models that begin with it and with no longer row; the others are priced as before. */
  lemma NewRowPricesIff(db: Table, defaults: Table, k: string, p: Price, model: string, before: Tier, after: Tier)
    requires k !in db && PricedBy(db, defaults, model, before) && PricedBy(db[k := p], defaults, model, after)
    ensures after == if k <= model && (forall j :: j in db && j <= model ==> |j| <= |k|) then FromDB(k) else before
    ensures after == before ==> PriceAt(db[k := p], defaults, after) == PriceAt(db, defaults, before)
  {
    var db' := db[k := p];
    if k <= model && forall j :: j in db && j <= model ==> |j| <= |k| {
      assert IsPrefix(k, model);
      forall j | j in db' && IsPrefix(j, model) ensures |j| <= |k| {
        assert j == k || j <= model;
      }
      TierIsUnique(db', defaults, model, after, FromDB(k));
    } else {
      StaysPriced(db, defaults, k, p, model, before);
      TierIsUnique(db', defaults, model, after, before);
    }
  }

  lemma StaysPriced(db: Table, defaults: Table, k: string, p: Price, model: string, tier: Tier)
    requires k !in db && PricedBy(db, defaults, model, tier)
    requires !(k <= model) || exists j :: j in db && j <= model && |j| > |k|
    ensures PricedBy(db[k := p], defaults, model, tier)
  {
    var db' := db[k := p];
    if k <= model {
      var j :| j in db && j <= model && |j| > |k|;
      assert IsPrefix(j, model);
    } else {
      assert !IsPrefix(k, model);
      assert HasMatch(db', model) ==> HasMatch(db, model);
    }
  }

  ghost predicate Known(db: Table, defaults: Table, model: string) {
    HasMatch(db, model) || HasMatch(defaults, model)
  }

  /**
   The existence check and the lookup agree on every model exactly as long as the built-in table
   has no empty prefix.
   */
  lemma KnownIffPriced(db: Table, defaults: Table, model: string, tier: Tier)
    requires PricedBy(db, defaults, model, tier) && "" !in defaults
    ensures Known(db, defaults, model) <==> !tier.Unpriced?
  {
    assert Usable(defaults, model) == defaults;
  }

  /** With one, exactly these models are called known although they get the fallback price. */
  lemma KnownButUnpricedIff(db: Table, defaults: Table, model: string, tier: Tier)
    requires PricedBy(db, defaults, model, tier)
    ensures (Known(db, defaults, model) && tier.Unpriced?)
      <==> ("" in defaults && model != "" && !HasMatch(db, model) && forall k :: k in defaults && k != "" ==> !IsPrefix(k, model))
  {
    var u := Usable(defaults, model);
    if "" in defaults && model != "" {
      assert IsPrefix("", model);
      assert forall k :: k in u <==> k in defaults && k != "";
      if forall k :: k in defaults && k != "" ==> !IsPrefix(k, model) {
        assert !HasMatch(u, model);
      }
    } else {
      assert u == defaults;
    }
  }

  // ---- The sorted list ----

  predicate LongestFirst(s: seq<Row>) {
    forall i, j :: 0 <= i < j < |s| ==> |s[i].prefix| >= |s[j].prefix|
  }

  predicate DistinctPrefixes(rows: seq<Row>) {
    forall i, j :: 0 <= i < j < |rows| ==> rows[i].prefix != rows[j].prefix
  }

  /** `s` lists the entries of `t`, in whatever order. */
  ghost predicate Lists(s: seq<Row>, t: Table) {
    && (forall i :: 0 <= i < |s| ==> s[i].prefix in t && t[s[i].prefix] == s[i].price)
    && (forall k :: k in t ==> exists i :: 0 <= i < |s| && s[i].prefix == k)
  }

  function InsertRow(r: Row, s: seq<Row>): (t: seq<Row>)
    ensures forall x :: x in t <==> x == r || x in s
  {
    if s == [] then [r]
    else if |r.prefix| > |s[0].prefix| then [r] + s
    else [s[0]] + InsertRow(r, s[1..])
  }

  /** Stands for the library sort; only LongestFirst and the members matter. */
  function SortRows(s: seq<Row>): (t: seq<Row>)
    ensures forall x :: x in t <==> x in s
  {
    if s == [] then [] else InsertRow(s[0], SortRows(s[1..]))
  }

  lemma {:induction false} InsertKeepsOrder(r: Row, s: seq<Row>)
    requires LongestFirst(s)
    ensures LongestFirst(InsertRow(r, s))
  {
    if s != [] && |r.prefix| <= |s[0].prefix| {
      InsertKeepsOrder(r, s[1..]);
      var t := InsertRow(r, s[1..]);
      forall i | 0 <= i < |t| ensures |s[0].prefix| >= |t[i].prefix| {
        assert t[i] in t;
      }
    }
  }

  lemma {:induction false} SortIsLongestFirst(s: seq<Row>)
    ensures LongestFirst(SortRows(s))
  {
    if s != [] {
      SortIsLongestFirst(s[1..]);
      InsertKeepsOrder(s[0], SortRows(s[1..]));
    }
  }

  /** The first match of any longest-first list is the longest match of the table. */
  lemma FirstMatchIsLongest(s: seq<Row>, t: Table, model: string, i: nat)
    requires LongestFirst(s) && Lists(s, t) && i < |s|
    requires IsPrefix(s[i].prefix, model) && forall j :: 0 <= j < i ==> !IsPrefix(s[j].prefix, model)
    ensures IsLongest(t, model, s[i].prefix) && t[s[i].prefix] == s[i].price
  {
    forall k | k in t && IsPrefix(k, model) ensures |k| <= |s[i].prefix| {
      var j :| 0 <= j < |s| && s[j].prefix == k;
      assert j >= i;
    }
  }

  // ---- Models without a price ----

  const MAX_UNKNOWN: nat := 500

  datatype Seen = Seen(hitCount: nat, firstSeen: int, lastSeen: int)

  type Unknowns = map<string, Seen>

  ghost predicate Visits(order: seq<string>, m: Unknowns) {
    && (forall i, j :: 0 <= i < j < |order| ==> order[i] != order[j])
    && (forall k :: k in order <==> k in m)
  }

  /** The scan for the oldest entry; the empty string stands for "none yet". */
  function Scan(m: Unknowns, order: seq<string>): (r: (string, int))
    requires forall k :: k in order ==> k in m
  {
    if order == [] then ("", 0)
    else
      var (k, t) := Scan(m, order[..|order| - 1]);
      var next := order[|order| - 1];
      if k == "" || m[next].lastSeen < t then (next, m[next].lastSeen) else (k, t)
  }

  /** The scan's victim is one of the visited names, with its own time. */
  lemma {:induction false} ScanFindsOne(m: Unknowns, order: seq<string>) returns (i: nat)
    requires (forall j :: 0 <= j < |order| ==> order[j] in m && order[j] != "") && order != []
    ensures i < |order| && Scan(m, order) == (order[i], m[order[i]].lastSeen)
  {
    var n := |order| - 1;
    i := n;
    if n > 0 {
      var before := ScanFindsOne(m, order[..n]);
      if m[order[n]].lastSeen >= m[order[before]].lastSeen {
        i := before;
      }
    }
  }

  lemma {:induction false} ScanIsBelow(m: Unknowns, order: seq<string>, j: nat)
    requires (forall j :: 0 <= j < |order| ==> order[j] in m && order[j] != "") && j < |order|
    ensures Scan(m, order).1 <= m[order[j]].lastSeen
  {
    var n := |order| - 1;
    if n > 0 {
      var before := ScanFindsOne(m, order[..n]);
      if j < n {
        ScanIsBelow(m, order[..n], j);
      }
    }
  }

  lemma {:induction false} ScanFindsOldest(m: Unknowns, order: seq<string>)
    requires (forall k :: k in order ==> k in m) && "" !in order && order != []
    ensures var (k, t) := Scan(m, order);
      k in order && t == m[k].lastSeen && forall j :: j in order ==> m[k].lastSeen <= m[j].lastSeen
  {
    assert forall j :: 0 <= j < |order| ==> order[j] in order;
    var i := ScanFindsOne(m, order);
    forall k | k in order ensures Scan(m, order).1 <= m[k].lastSeen {
      var j :| 0 <= j < |order| && order[j] == k;
      ScanIsBelow(m, order, j);
    }
  }

  /** What recording a new model leaves: the scan's victim goes, unless it is the empty string. */
  function AfterEviction(m: Unknowns, victim: string): Unknowns {
    if victim == "" then m else m - {victim}
  }

  lemma NonEmptyOrder(m: Unknowns, order: seq<string>)
    requires Visits(order, m) && |m| > 0
    ensures order != []
  {
    var k :| k in m.Keys;
    assert k in order;
  }

  /** Without an empty model name, the record is trimmed to the limit whatever the iteration order. */
  lemma {:induction false} EvictionTrims(m: Unknowns, order: seq<string>, model: string, seen: Seen)
    requires Visits(order, m) && "" !in m && model != "" && model !in m && |m| == MAX_UNKNOWN
    ensures var victim := Scan(m, order).0; var m' := AfterEviction(m, victim)[model := seen];
      && victim in m && (forall k :: k in m ==> m[victim].lastSeen <= m[k].lastSeen)
      && |m'| == MAX_UNKNOWN && "" !in m'
  {
    NonEmptyOrder(m, order);
    ScanFindsOldest(m, order);
    var victim := Scan(m, order).0;
    assert (m - {victim}).Keys == m.Keys - {victim};
    var rest := m - {victim};
    assert rest[model := seen].Keys == rest.Keys + {model};
  }

  lemma {:induction false} ScanEndsEmptyOnlyAtEmpty(m: Unknowns, order: seq<string>)
    requires (forall k :: k in order ==> k in m) && order != [] && Scan(m, order).0 == ""
    ensures order[|order| - 1] == ""
  {
  }

  lemma Enumerate(keys: set<string>) returns (order: seq<string>)
    ensures (forall i, j :: 0 <= i < j < |order| ==> order[i] != order[j]) && forall k :: k in order <==> k in keys
  {
    order := [];
    var rest := keys;
    while rest != {}
      invariant rest <= keys
      invariant forall i, j :: 0 <= i < j < |order| ==> order[i] != order[j]
      invariant forall k :: k in order <==> k in keys && k !in rest
    {
      var k :| k in rest;
      order := order + [k];
      rest := rest - {k};
    }
  }

  /** Some iteration order makes the scan come back without a victim. */
  ghost predicate EvictionCanFail(m: Unknowns) {
    exists order :: Visits(order, m) && Scan(m, order).0 == ""
  }

  /** The empty name is recorded and was last seen strictly before every other. */
  predicate EmptyIsOldest(m: Unknowns) {
    "" in m && forall k :: k in m && k != "" ==> m[""].lastSeen < m[k].lastSeen
  }

  /**
   The scan can come back empty-handed, so that nothing is evicted and the limit is passed, exactly
   when the empty string is recorded as a model and is older than everything else (or there is nothing
   to evict).
   */
  lemma EvictionCanFailIff(m: Unknowns)
    ensures EvictionCanFail(m) <==> |m| == 0 || EmptyIsOldest(m)
  {
    if EvictionCanFail(m) {
      var order :| Visits(order, m) && Scan(m, order).0 == "";
      if |m| > 0 {
        EmptyWinsLast(m, order);
      }
    }
    if |m| == 0 {
      assert Visits([], m) && Scan(m, []).0 == "";
    } else if EmptyIsOldest(m) {
      OldestEmptyCanWin(m);
    }
  }

  lemma OldestEmptyCanWin(m: Unknowns)
    requires EmptyIsOldest(m)
    ensures EvictionCanFail(m)
  {
    var init := Enumerate(m.Keys - {""});
    var order := init + [""];
    assert order[..|order| - 1] == init;
    VisitsWithEmptyLast(m, init);
    if init != [] {
      ScanFindsOldest(m, init);
    }
    assert Scan(m, order).0 == "";
  }

  lemma VisitsWithEmptyLast(m: Unknowns, init: seq<string>)
    requires "" in m && (forall i, j :: 0 <= i < j < |init| ==> init[i] != init[j])
    requires forall k :: k in init <==> k in m.Keys - {""}
    ensures Visits(init + [""], m)
  {
    var order := init + [""];
    forall i, j | 0 <= i < j < |order| ensures order[i] != order[j] {
      if j == |init| { assert init[i] in init; }
    }
  }

  lemma {:induction false} EmptyWinsLast(m: Unknowns, order: seq<string>)
    requires Visits(order, m) && |m| > 0 && Scan(m, order).0 == ""
    ensures EmptyIsOldest(m)
  {
    NonEmptyOrder(m, order);
    ScanEndsEmptyOnlyAtEmpty(m, order);
    var init := order[..|order| - 1];
    assert order == init + [""];
    NotAmongEarlier(order);
    if init != [] {
      ScanFindsOldest(m, init);
    }
    assert order[|order| - 1] in order;
  }

  lemma NotAmongEarlier(order: seq<string>)
    requires order != [] && forall i, j :: 0 <= i < j < |order| ==> order[i] != order[j]
    ensures order[|order| - 1] !in order[..|order| - 1]
  {
  }
}
