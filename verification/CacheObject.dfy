/**
 The cache object: entries, recency list and the map into the list, all updated in place. Each
 method body is one lock region of the source or, for Lookup, their composition.
 */
module CacheObject {
  import opened Wrappers
  import opened LruOrder
  import opened ResponseCache

  /** A list element; the list itself is a sequence of these. */
  class Element {
    const value: string

    constructor (value: string)
      ensures this.value == value
    {
      this.value := value;
    }
  }

  class CacheEntry {
    const hash: string
    const provider: string
    const model: string
    const statusCode: int
    var body: string
    var headers: string
    var inputTokens: int
    var outputTokens: int
    var costPerHit: real
    var expiresAt: int

    function View(): Entry
      reads this
    {
      Entry(hash, provider, model, statusCode, body, headers, inputTokens, outputTokens, costPerHit, expiresAt)
    }

    constructor (e: Entry)
      ensures View() == e
    {
      hash, provider, model, statusCode := e.hash, e.provider, e.model, e.statusCode;
      body, headers, inputTokens, outputTokens := e.body, e.headers, e.inputTokens, e.outputTokens;
      costPerHit, expiresAt := e.costPerHit, e.expiresAt;
    }

    method OverwriteWith(e: CacheEntry)
      modifies this
      ensures View() == Overwrite(old(View()), old(e.View()))
    {
      body, headers, inputTokens, outputTokens := e.body, e.headers, e.inputTokens, e.outputTokens;
      costPerHit, expiresAt := e.costPerHit, e.expiresAt;
    }
  }

  function Values(s: seq<Element>): (r: seq<string>)
    ensures |r| == |s| && forall i :: 0 <= i < |s| ==> r[i] == s[i].value
  {
    seq(|s|, i requires 0 <= i < |s| => s[i].value)
  }

  // ---- The list and the map into it ----

  /** `order` lists the keys once each, and `index` leads from every key to its element. */
  ghost predicate Linked(keys: set<string>, order: seq<Element>, index: map<string, Element>) {
    && NoDup(Values(order))
    && keys == index.Keys
    && (forall k :: k in index ==> index[k] in order && index[k].value == k)
    && (forall e :: e in order ==> e.value in index && index[e.value] == e)
  }

  lemma ValuesMember(s: seq<Element>, e: Element)
    requires e in s
    ensures e.value in Values(s)
  {
    var i :| 0 <= i < |s| && s[i] == e;
    assert Values(s)[i] == e.value;
  }

  lemma MemberOfValues(s: seq<Element>, k: string) returns (e: Element)
    requires k in Values(s)
    ensures e in s && e.value == k
  {
    var i :| 0 <= i < |s| && Values(s)[i] == k;
    e := s[i];
  }

  lemma LinkedKeys(keys: set<string>, order: seq<Element>, index: map<string, Element>)
    requires Linked(keys, order, index)
    ensures forall k :: k in Values(order) <==> k in keys
    ensures |order| == |keys|
  {
    forall k ensures k in Values(order) <==> k in keys {
      if k in keys { ValuesMember(order, index[k]); }
      if k in Values(order) { var e := MemberOfValues(order, k); }
    }
    DistinctCount(Values(order));
    assert (set k | k in Values(order)) == keys;
  }

  lemma {:induction false} RemoveElement(s: seq<Element>, e: Element)
    requires e in s && NoDup(Values(s))
    ensures Values(RemoveFrom(s, e)) == RemoveFrom(Values(s), e.value)
    ensures e !in RemoveFrom(s, e)
  {
    assert Values(s)[1..] == Values(s[1..]);
    if s[0] == e {
      if e in s[1..] { ValuesMember(s[1..], e); }
    } else {
      ValuesMember(s[1..], e);
      RemoveElement(s[1..], e);
    }
  }

  lemma {:induction false} LinkedDrop(keys: set<string>, order: seq<Element>, index: map<string, Element>, k: string)
    requires Linked(keys, order, index) && k in index
    ensures Linked(keys - {k}, RemoveFrom(order, index[k]), index - {k})
    ensures Values(RemoveFrom(order, index[k])) == RemoveFrom(Values(order), k)
  {
    RemoveElement(order, index[k]);
    RemoveKeepsNoDup(Values(order), k);
  }

  lemma {:induction false} LinkedFront(keys: set<string>, order: seq<Element>, index: map<string, Element>, k: string)
    requires Linked(keys, order, index) && k in index
    ensures Linked(keys, [index[k]] + RemoveFrom(order, index[k]), index)
    ensures Values([index[k]] + RemoveFrom(order, index[k])) == Touch(Values(order), k)
  {
    var moved := [index[k]] + RemoveFrom(order, index[k]);
    RemoveElement(order, index[k]);
    RemoveKeepsNoDup(Values(order), k);
    assert Values(moved) == [k] + Values(RemoveFrom(order, index[k]));
  }

  lemma ValuesPush(e: Element, order: seq<Element>)
    ensures Values([e] + order) == [e.value] + Values(order)
  {
  }

  lemma ValuesInit(order: seq<Element>)
    requires order != []
    ensures var n := |order| - 1; Values(order[..n]) == Values(order)[..n] && Values(order)[n] == order[n].value
  {
  }

  lemma LinkedLast(keys: set<string>, order: seq<Element>, index: map<string, Element>)
    requires Linked(keys, order, index) && order != []
    ensures var n := |order| - 1; var k := order[n].value;
      && Linked(keys - {k}, order[..n], index - {k})
      && Values(order[..n]) == Values(order)[..n] && k == Values(order)[n]
  {
    var n := |order| - 1;
    ValuesInit(order);
    NoDupInit(Values(order));
    assert order[n] in order;
    forall e | e in order[..n] ensures e in order && e.value != order[n].value {
      ValuesMember(order[..n], e);
    }
    LinkedWithout(keys, order, index, order[..n], order[n].value);
  }

  /** Taking the key's element out of a linked list, whatever its place. */
  lemma LinkedWithout(keys: set<string>, order: seq<Element>, index: map<string, Element>, rest: seq<Element>, k: string)
    requires Linked(keys, order, index) && NoDup(Values(rest))
    requires forall e :: e in rest ==> e in order && e.value != k
    requires forall e :: e in order && e.value != k ==> e in rest
    ensures Linked(keys - {k}, rest, index - {k})
  {
  }

  lemma LinkedPush(keys: set<string>, order: seq<Element>, index: map<string, Element>, e: Element)
    requires Linked(keys, order, index) && e.value !in keys
    ensures Linked(keys + {e.value}, [e] + order, index[e.value := e])
    ensures Values([e] + order) == [e.value] + Values(order)
  {
    LinkedKeys(keys, order, index);
    ValuesPush(e, order);
    NoDupCons(e.value, Values(order));
    forall x | x in order ensures x.value != e.value {
      ValuesMember(order, x);
    }
    LinkedWith(keys, order, index, e);
  }

  lemma LinkedWith(keys: set<string>, order: seq<Element>, index: map<string, Element>, e: Element)
    requires Linked(keys, order, index) && NoDup(Values([e] + order))
    requires e.value !in keys && forall x :: x in order ==> x.value != e.value
    ensures Linked(keys + {e.value}, [e] + order, index[e.value := e])
  {
  }

  lemma {:induction false} AbsentKey(keys: set<string>, order: seq<Element>, index: map<string, Element>, k: string)
    requires Linked(keys, order, index) && k !in index
    ensures k !in Values(order) && RemoveFrom(Values(order), k) == Values(order)
  {
    LinkedKeys(keys, order, index);
    RemoveAbsent(Values(order), k);
  }

  lemma PresentKey(keys: set<string>, order: seq<Element>, index: map<string, Element>, k: string)
    requires Linked(keys, order, index) && k in index
    ensures k in Values(order)
  {
    LinkedKeys(keys, order, index);
  }

  // ---- The entries ----

  ghost predicate Separate(entries: map<string, CacheEntry>) {
    forall j, k :: j in entries && k in entries && j != k ==> entries[j] != entries[k]
  }

  ghost function Vals(entries: map<string, CacheEntry>): map<string, Entry>
    reads entries.Values
  {
    map k | k in entries :: entries[k].View()
  }

  lemma SeparateWithout(entries: map<string, CacheEntry>, k: string)
    ensures Separate(entries) ==> Separate(entries - {k})
    ensures (entries - {k}).Keys == entries.Keys - {k}
  {
  }

  lemma SeparateWith(entries: map<string, CacheEntry>, k: string, entry: CacheEntry)
    ensures Separate(entries) && entry !in entries.Values ==> Separate(entries[k := entry])
    ensures entries[k := entry].Keys == entries.Keys + {k}
  {
  }

  lemma NothingGone(c: Cache)
    ensures Cache(Without(c.order, {}), c.vals - {}) == c
  {
    WithoutNothing(c.order);
  }

  lemma {:induction false} AllGone(c: Cache, gone: set<string>, now: int)
    requires forall k :: k in gone <==> k in c.vals && now > c.vals[k].expiresAt
    ensures Cache(Without(c.order, gone), c.vals - gone) == EvictExpired(c, now)
  {
    assert gone == ExpiredKeys(c, now);
  }

  lemma NextRow(views: seq<Entry>, i: nat)
    requires i < |views|
    ensures var c := WarmLoad(views[..i]);
      WarmLoad(views[..i + 1]) == Cache([views[i].hash] + c.order, c.vals[views[i].hash := views[i]])
  {
    assert views[..i + 1][..i] == views[..i];
  }

  class LruCache {
    var entries: map<string, CacheEntry>
    var lruOrder: seq<Element>
    var lruMap: map<string, Element>
    const maxEntries: int
    var hits: nat
    var misses: nat
    var costSaved: int

    /** The three structures describe the same duplicate-free set of keys. */
    ghost predicate Valid()
      reads this`entries, this`lruOrder, this`lruMap
    {
      Linked(entries.Keys, lruOrder, lruMap) && Separate(entries) && |lruOrder| <= Capacity(maxEntries)
    }

    ghost function View(): Cache
      reads this`entries, this`lruOrder, entries.Values
    {
      Cache(Values(lruOrder), Vals(entries))
    }

    lemma ValidView()
      requires Valid()
      ensures Agrees(View()) && Bounded(View(), maxEntries)
      ensures forall k :: k in View().order <==> k in entries
      ensures |entries| == |lruOrder|
    {
      LinkedKeys(entries.Keys, lruOrder, lruMap);
    }

    constructor (maxEntries: int)
      ensures Valid() && View() == EMPTY && this.maxEntries == maxEntries
      ensures hits == misses == 0 && costSaved == 0
    {
      entries, lruOrder, lruMap := map[], [], map[];
      this.maxEntries := maxEntries;
      hits, misses, costSaved := 0, 0, 0;
    }

    // ---- Lock regions ----

    method ReadEntry(hash: string) returns (entry: CacheEntry?)
      ensures entry == null <==> hash !in entries
      ensures entry != null ==> entry == entries[hash]
    {
      entry := if hash in entries then entries[hash] else null;
    }

    /** Take one key out of all three fields. */
    method Unlink(hash: string, order: seq<Element>)
      modifies this`entries, this`lruOrder, this`lruMap
      ensures entries == old(entries) - {hash} && lruMap == old(lruMap) - {hash} && lruOrder == order
      ensures Vals(entries) == old(Vals(entries)) - {hash}
    {
      entries := entries - {hash};
      lruOrder := order;
      lruMap := lruMap - {hash};
    }

    /** Put one key into all three fields. */
    method Link(hash: string, entry: CacheEntry, elem: Element)
      modifies this`entries, this`lruOrder, this`lruMap
      ensures entries == old(entries)[hash := entry] && lruMap == old(lruMap)[hash := elem] && lruOrder == [elem] + old(lruOrder)
      ensures Vals(entries) == old(Vals(entries))[hash := entry.View()] && entry.View() == old(entry.View())
    {
      entries := entries[hash := entry];
      lruOrder := [elem] + lruOrder;
      lruMap := lruMap[hash := elem];
    }

    /** Delete the hash from all three structures, if it is there. */
    method DropEntry(hash: string)
      requires Valid()
      modifies this`entries, this`lruOrder, this`lruMap
      ensures Valid() && View() == Drop(old(View()), hash)
      ensures entries == old(entries) - {hash}
    {
      SeparateWithout(entries, hash);
      if hash in lruMap {
        LinkedDrop(entries.Keys, lruOrder, lruMap, hash);
        Unlink(hash, RemoveFrom(lruOrder, lruMap[hash]));
      } else {
        AbsentKey(entries.Keys, lruOrder, lruMap, hash);
        assert lruMap - {hash} == lruMap && entries.Keys - {hash} == entries.Keys;
        Unlink(hash, lruOrder);
      }
    }

    method PromoteEntry(hash: string)
      requires Valid()
      modifies this`lruOrder
      ensures Valid() && View() == Promote(old(View()), hash)
    {
      if hash in lruMap {
        var elem := lruMap[hash];
        PresentKey(entries.Keys, lruOrder, lruMap, hash);
        LinkedFront(entries.Keys, lruOrder, lruMap, hash);
        lruOrder := [elem] + RemoveFrom(lruOrder, elem);
      } else {
        AbsentKey(entries.Keys, lruOrder, lruMap, hash);
      }
    }

    method EvictLRU()
      requires Valid()
      modifies this`entries, this`lruOrder, this`lruMap
      ensures Valid() && View() == EvictLast(old(View()))
      ensures |lruOrder| == if old(|lruOrder|) == 0 then 0 else old(|lruOrder|) - 1
      ensures old(|lruOrder|) == 0 ==> entries == old(entries)
      ensures old(|lruOrder|) > 0 ==> entries == old(entries) - {old(lruOrder)[old(|lruOrder|) - 1].value}
    {
      if |lruOrder| == 0 {
        return;
      }
      LinkedLast(entries.Keys, lruOrder, lruMap);
      var back := lruOrder[|lruOrder| - 1];
      SeparateWithout(entries, back.value);
      Unlink(back.value, lruOrder[..|lruOrder| - 1]);
    }

    method StoreEntry(hash: string, entry: CacheEntry)
      requires Valid() && entry !in entries.Values
      modifies this`entries, this`lruOrder, this`lruMap, entries.Values
      ensures Valid() && View() == Store(old(View()), maxEntries, hash, old(entry.View()))
    {
      if hash in entries {
        UpdateEntry(hash, entry);
        PromoteEntry(hash);
      } else {
        SizesAgree();
        if |entries| >= maxEntries {
          EvictLRU();
        }
        InsertEntry(hash, entry);
      }
    }

    lemma SizesAgree()
      requires Valid()
      ensures |entries| == |lruOrder| == |View().vals|
    {
      LinkedKeys(entries.Keys, lruOrder, lruMap);
      assert Vals(entries).Keys == entries.Keys;
    }

    method UpdateEntry(hash: string, entry: CacheEntry)
      requires Valid() && hash in entries && entry !in entries.Values
      modifies entries.Values
      ensures Valid()
      ensures View() == old(View()).(vals := old(View()).vals[hash := Overwrite(old(View()).vals[hash], old(entry.View()))])
    {
      entries[hash].OverwriteWith(entry);
    }

    method InsertEntry(hash: string, entry: CacheEntry)
      requires Valid() && hash !in entries && entry !in entries.Values && |lruOrder| < Capacity(maxEntries)
      modifies this`entries, this`lruOrder, this`lruMap
      ensures Valid()
      ensures View() == Cache([hash] + old(View()).order, old(View()).vals[hash := entry.View()])
      ensures entries == old(entries)[hash := entry]
      ensures |lruOrder| == old(|lruOrder|) + 1
    {
      var elem := new Element(hash);
      LinkedPush(entries.Keys, lruOrder, lruMap, elem);
      SeparateWith(entries, hash, entry);
      Link(hash, entry, elem);
    }

    /** One step of the cleanup: `c` is the state it started from, `gone` what it has removed so far. */
    method ExpireOne(hash: string, now: int, ghost c: Cache, ghost gone: set<string>) returns (ghost gone': set<string>)
      requires Valid() && hash in entries && NoDup(c.order)
      requires View() == Cache(Without(c.order, gone), c.vals - gone)
      modifies this`entries, this`lruOrder, this`lruMap
      ensures Valid() && View() == Cache(Without(c.order, gone'), c.vals - gone')
      ensures hash in c.vals && gone' == if now > c.vals[hash].expiresAt then gone + {hash} else gone
      ensures old(entries.Keys) - {hash} <= entries.Keys
    {
      gone' := gone;
      ViewHas(hash);
      if now > entries[hash].expiresAt {
        RemoveFromWithout(c.order, gone, hash);
        gone' := gone + {hash};
        assert c.vals - gone' == (c.vals - gone) - {hash};
        DropEntry(hash);
      }
    }

    lemma ViewHas(hash: string)
      requires hash in entries
      ensures hash in View().vals && View().vals[hash] == entries[hash].View()
    {
    }

    /** Remove every expired entry, visiting the map in any order. */
    method RemoveExpired(now: int)
      requires Valid()
      modifies this`entries, this`lruOrder, this`lruMap
      ensures Valid() && View() == EvictExpired(old(View()), now)
    {
      ghost var c := View();
      ghost var gone: set<string> := {};
      NothingGone(c);
      var pending := entries.Keys;
      while pending != {}
        invariant Valid() && pending <= entries.Keys
        invariant View() == Cache(Without(c.order, gone), c.vals - gone)
        invariant forall k :: k in gone <==> k in c.vals && k !in pending && now > c.vals[k].expiresAt
        decreases pending
      {
        var hash :| hash in pending;
        gone := ExpireOne(hash, now, c, gone);
        pending := pending - {hash};
      }
      AllGone(c, gone, now);
    }

    method Flush()
      modifies this
      ensures Valid() && View() == EMPTY && hits == misses == 0 && costSaved == 0
    {
      entries, lruOrder, lruMap := map[], [], map[];
      hits, misses, costSaved := 0, 0, 0;
    }

    // ---- Lookup run on its own ----

    method LookupEntry(hash: string, now: int) returns (entry: CacheEntry?, ok: bool)
      requires Valid()
      modifies this
      ensures Valid() && ok == (entry != null)
      ensures var (c, found) := Lookup(old(View()), hash, now);
        View() == c && (ok <==> found.Some?) && (ok ==> entry.View() == found.value && entry == old(entries)[hash])
      ensures hits == old(hits) + (if ok then 1 else 0) && misses == old(misses) + (if ok then 0 else 1)
      ensures costSaved == old(costSaved) + (if ok then Micros(entry.costPerHit) else 0)
    {
      entry := ReadEntry(hash);
      if entry == null {
        CountMiss();
        return null, false;
      }
      ViewHas(hash);
      if now > entry.expiresAt {
        TakeMiss(hash);
        return null, false;
      }
      TakeHit(hash, entry);
      return entry, true;
    }

    method TakeMiss(hash: string)
      requires Valid()
      modifies this`entries, this`lruOrder, this`lruMap, this`misses
      ensures Valid() && View() == Drop(old(View()), hash) && misses == old(misses) + 1
    {
      DropEntry(hash);
      CountMiss();
    }

    method TakeHit(hash: string, entry: CacheEntry)
      requires Valid() && hash in entries && entries[hash] == entry
      modifies this`lruOrder, this`hits, this`costSaved
      ensures Valid() && View() == Promote(old(View()), hash)
      ensures hits == old(hits) + 1 && costSaved == old(costSaved) + Micros(entry.costPerHit)
    {
      PromoteEntry(hash);
      CountHit(entry.costPerHit);
    }

    method CountHit(costPerHit: real)
      modifies this`hits, this`costSaved
      ensures hits == old(hits) + 1 && costSaved == old(costSaved) + Micros(costPerHit)
    {
      hits := hits + 1;
      costSaved := costSaved + Micros(costPerHit);
    }

    method CountMiss()
      modifies this`misses
      ensures misses == old(misses) + 1
    {
      misses := misses + 1;
    }

    /** Nothing of these rows is in the cache yet. */
    ghost predicate NotLoaded(rows: seq<CacheEntry>)
      reads this`entries, rows
    {
      forall row :: row in rows ==> row.hash !in entries && row !in entries.Values
    }

    method LoadRow(row: CacheEntry, ghost rest: seq<CacheEntry>)
      requires Valid() && NotLoaded([row] + rest) && |lruOrder| < Capacity(maxEntries)
      requires forall later :: later in rest ==> later != row && later.hash != row.hash
      modifies this`entries, this`lruOrder, this`lruMap
      ensures Valid() && NotLoaded(rest) && |lruOrder| == old(|lruOrder|) + 1
      ensures View() == Cache([row.hash] + old(View()).order, old(View()).vals[row.hash := row.View()])
    {
      assert row in [row] + rest;
      forall later | later in rest ensures later in [row] + rest {}
      InsertEntry(row.hash, row);
    }

    /** Fill an empty cache from the database rows, most recently accessed first. */
    method LoadRows(rows: seq<CacheEntry>)
      requires Valid() && entries == map[] && lruOrder == []
      requires forall i, j :: 0 <= i < j < |rows| ==> rows[i] != rows[j] && rows[i].hash != rows[j].hash
      requires |rows| <= Capacity(maxEntries)
      modifies this`entries, this`lruOrder, this`lruMap
      ensures Valid() && View() == WarmLoad(RowViews(rows))
    {
      ghost var views := RowViews(rows);
      assert View() == EMPTY;
      for i := 0 to |rows|
        invariant Valid() && |lruOrder| == i && NotLoaded(rows[i..])
        invariant View() == WarmLoad(views[..i]) && views == RowViews(rows)
      {
        NextRow(views, i);
        LoadRow(rows[i], rows[i + 1..]);
      }
      assert views[..|rows|] == views;
    }
  }

  ghost function RowViews(rows: seq<CacheEntry>): (r: seq<Entry>)
    reads rows
    ensures |r| == |rows| && forall i :: 0 <= i < |rows| ==> r[i] == rows[i].View()
  {
    seq(|rows|, i requires 0 <= i < |rows| reads rows => rows[i].View())
  }
}
