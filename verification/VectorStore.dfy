/**
 The semantic cache's vector store in memory (vectorstore/vectorstore.go): best-match search over a map
 in any iteration order, and eviction of the oldest vector. Hashes are opaque, non-empty strings.
 */
module VectorStore {
  import opened Wrappers
  import opened Similarity

  datatype Vector = Vector(dense: Dense, sparse: Sparse, provider: string, model: string, createdAt: int)

  datatype Hit = Hit(hash: string, similarity: real)

  datatype Query = Query(sqrt: real -> real, dense: Dense, sparse: Sparse, provider: string, model: string, weight: real)

  function Clamp(w: real): real { if w < 0.0 then 0.0 else if w > 1.0 then 1.0 else w }

  predicate InScope(q: Query, v: Vector) { v.provider == q.provider && v.model == q.model }

  ghost function Sim(q: Query, v: Vector): real {
    Hybrid(q.sqrt, Clamp(q.weight), q.dense, q.sparse, v.dense, v.sparse)
  }

  /** Some vector in scope points in a similar direction at all. */
  ghost predicate AnyPositive(q: Query, m: map<string, Vector>) {
    exists k :: k in m && InScope(q, m[k]) && Sim(q, m[k]) > 0.0
  }

  ghost predicate IsBest(q: Query, m: map<string, Vector>, h: Hit) {
    && h.hash in m && InScope(q, m[h.hash]) && Sim(q, m[h.hash]) == h.similarity > 0.0
    && forall k :: k in m && InScope(q, m[k]) ==> Sim(q, m[k]) <= h.similarity
  }

  /** What a search may answer: a best match that reaches the threshold, or nothing ... */
  ghost predicate Answers(q: Query, m: map<string, Vector>, threshold: real, r: Option<Hit>) {
    if AnyPositive(q, m) then
      exists h :: IsBest(q, m, h) && r == if h.similarity >= threshold then Some(h) else None
    else
      // ... but with nothing similar, a threshold of zero or less is met by no entry at all.
      r == if 0.0 >= threshold then Some(Hit("", 0.0)) else None
  }

  /** Whichever best match the iteration order turns up, its similarity is the same. */
  lemma BestSimilarityIsUnique(q: Query, m: map<string, Vector>, g: Hit, h: Hit)
    requires IsBest(q, m, g) && IsBest(q, m, h)
    ensures g.similarity == h.similarity
  {
  }

  /** A search names a vector that is not stored exactly when nothing is similar and the threshold is not positive. */
  lemma PhantomHitIff(q: Query, m: map<string, Vector>, threshold: real, r: Option<Hit>)
    requires Answers(q, m, threshold, r) && "" !in m
    ensures (r.Some? && r.value.hash !in m) <==> (!AnyPositive(q, m) && threshold <= 0.0)
  {
    if AnyPositive(q, m) {
      var h :| IsBest(q, m, h) && r == if h.similarity >= threshold then Some(h) else None;
    }
  }

  /** Similarities never exceed 1, so with a positive threshold every hit lies between it and 1. */
  lemma HitsAreInRange(q: Query, m: map<string, Vector>, threshold: real, h: Hit)
    requires Answers(q, m, threshold, Some(h)) && IsSqrt(q.sqrt) && threshold > 0.0
    ensures h.hash in m && InScope(q, m[h.hash]) && threshold <= h.similarity <= 1.0
  {
    if AnyPositive(q, m) {
      assert IsBest(q, m, h);
      var v := m[h.hash];
      HybridIsBounded(q.sqrt, Clamp(q.weight), q.dense, q.sparse, v.dense, v.sparse);
    }
  }

  /** How similar a stored vector is, the weight kept between 0 and 1. */
  ghost function Likeness(q: Query, v: Vector): real {
    Hybrid(q.sqrt, if q.weight < 0.0 then 0.0 else if q.weight > 1.0 then 1.0 else q.weight, q.dense, q.sparse, v.dense, v.sparse)
  }

  /**
   With a positive threshold, a search finds something exactly if a vector of that provider and model reaches
   the threshold; what it finds is stored for that provider and model, and no such vector is more similar.
   */
  lemma FoundIsTheMostSimilar(q: Query, m: map<string, Vector>, threshold: real, r: Option<Hit>)
    requires Answers(q, m, threshold, r) && threshold > 0.0
    ensures r.Some? <==> exists k :: k in m && m[k].provider == q.provider && m[k].model == q.model && Likeness(q, m[k]) >= threshold
    ensures r.Some? ==> var h := r.value;
      && h.hash in m && m[h.hash].provider == q.provider && m[h.hash].model == q.model
      && h.similarity == Likeness(q, m[h.hash])
      && forall k :: k in m && m[k].provider == q.provider && m[k].model == q.model ==> Likeness(q, m[k]) <= h.similarity
  {
    forall v: Vector ensures Likeness(q, v) == Sim(q, v) {
    }
    if AnyPositive(q, m) {
      var h :| IsBest(q, m, h) && r == if h.similarity >= threshold then Some(h) else None;
    }
  }

  /** A store keeps all others, but for one in a full map that gets a new key: that one was created first. */
  lemma StoreKeepsTheYounger(m: map<string, Vector>, maxEntries: int, k: string, v: Vector, m': map<string, Vector>)
    requires Stored(m, maxEntries, k, v, m')
    ensures k in m' && m'[k] == v
    ensures forall j :: j in m' && j != k ==> j in m && m'[j] == m[j]
    ensures forall i, j :: i in m && i !in m' && j in m ==> m[i].createdAt <= m[j].createdAt
    ensures forall i, j :: i in m && i !in m' && j in m && j !in m' ==> i == j
    ensures (exists i :: i in m && i !in m') <==> k !in m && |m| >= maxEntries && |m| > 0
  {
    if |m| >= maxEntries && k !in m && |m| > 0 {
      var victim :| IsOldest(m, victim) && m' == (m - {victim})[k := v];
      assert victim in m && victim !in m';
    }
  }

  predicate IsOldest(m: map<string, Vector>, k: string) {
    k in m && forall j :: j in m ==> m[k].createdAt <= m[j].createdAt
  }

  /** The map after storing one vector. */
  ghost predicate Stored(m: map<string, Vector>, maxEntries: int, k: string, v: Vector, m': map<string, Vector>) {
    if |m| >= maxEntries && k !in m && |m| > 0 then
      exists victim :: IsOldest(m, victim) && m' == (m - {victim})[k := v]
    else m' == m[k := v]
  }

  function Limit(maxEntries: int): nat { if maxEntries < 1 then 1 else maxEntries }

  lemma SizeWith(m: map<string, Vector>, k: string, v: Vector)
    ensures |m[k := v]| == if k in m then |m| else |m| + 1
  {
    assert m[k := v].Keys == m.Keys + {k};
    if k in m {
      assert m.Keys + {k} == m.Keys;
    }
  }

  lemma SizeWithout(m: map<string, Vector>, k: string)
    requires k in m
    ensures |m - {k}| == |m| - 1
  {
    assert (m - {k}).Keys == m.Keys - {k};
  }

  lemma StoredStaysBounded(m: map<string, Vector>, maxEntries: int, k: string, v: Vector, m': map<string, Vector>)
    requires Stored(m, maxEntries, k, v, m') && |m| <= Limit(maxEntries)
    ensures |m'| <= Limit(maxEntries) && k in m' && m'[k] == v
  {
    if |m| >= maxEntries && k !in m && |m| > 0 {
      var victim :| IsOldest(m, victim) && m' == (m - {victim})[k := v];
      SizeWithout(m, victim);
      SizeWith(m - {victim}, k, v);
    } else {
      SizeWith(m, k, v);
    }
  }

  class Store {
    var entries: map<string, Vector>
    const maxEntries: int

    ghost predicate Valid()
      reads this`entries
    {
      "" !in entries && |entries| <= Limit(maxEntries)
    }

    constructor (maxEntries: int)
      ensures Valid() && entries == map[] && this.maxEntries == maxEntries
    {
      entries := map[];
      this.maxEntries := maxEntries;
    }

    method SearchHybrid(q: Query, threshold: real) returns (r: Option<Hit>)
      requires IsSqrt(q.sqrt)
      ensures Answers(q, entries, threshold, r)
    {
      var weight := q.weight;
      if weight < 0.0 {
        weight := 0.0;
      }
      if weight > 1.0 {
        weight := 1.0;
      }
      var bestHash, bestSim := "", 0.0;
      var pending := entries.Keys;
      while pending != {}
        invariant pending <= entries.Keys
        invariant bestSim >= 0.0
        invariant bestSim == 0.0 ==> bestHash == ""
        invariant bestSim > 0.0 ==> bestHash in entries && InScope(q, entries[bestHash]) && Sim(q, entries[bestHash]) == bestSim
        invariant forall k :: k in entries && k !in pending && InScope(q, entries[k]) ==> Sim(q, entries[k]) <= bestSim
        decreases pending
      {
        var hash :| hash in pending;
        var entry := entries[hash];
        pending := pending - {hash};
        if entry.provider != q.provider || entry.model != q.model {
          continue;
        }
        var sim := Score(q.sqrt, weight, q.dense, q.sparse, entry.dense, entry.sparse);
        if sim > bestSim {
          bestHash, bestSim := hash, sim;
        }
      }
      ghost var h := Hit(bestHash, bestSim);
      assert bestSim > 0.0 ==> IsBest(q, entries, h);
      if bestSim >= threshold {
        return Some(Hit(bestHash, bestSim));
      }
      return None;
    }

    method StoreHybrid(hash: string, v: Vector)
      requires Valid() && hash != ""
      modifies this`entries
      ensures Valid() && Stored(old(entries), maxEntries, hash, v, entries)
    {
      ghost var m := entries;
      if |entries| >= maxEntries && hash !in entries {
        EvictOldest();
      }
      entries := entries[hash := v];
      StoredStaysBounded(m, maxEntries, hash, v, entries);
    }

    method EvictOldest()
      requires Valid()
      modifies this`entries
      ensures if |old(entries)| == 0 then entries == old(entries)
              else exists victim :: IsOldest(old(entries), victim) && entries == old(entries) - {victim}
    {
      var oldestHash, oldestTime := "", 0;
      var pending := entries.Keys;
      while pending != {}
        invariant pending <= entries.Keys
        invariant oldestHash == "" <==> pending == entries.Keys
        invariant oldestHash != "" ==> oldestHash in entries && oldestTime == entries[oldestHash].createdAt
        invariant oldestHash != "" ==> forall k :: k in entries && k !in pending ==> oldestTime <= entries[k].createdAt
        decreases pending
      {
        var hash :| hash in pending;
        if oldestHash == "" || entries[hash].createdAt < oldestTime {
          oldestHash, oldestTime := hash, entries[hash].createdAt;
        }
        pending := pending - {hash};
      }
      if oldestHash != "" {
        entries := entries - {oldestHash};
      } else {
        assert |entries.Keys| == 0;
      }
    }
  }

  /** The similarity of a query to one vector. */
  method Score(sqrt: real -> real, w: real, a: Dense, sa: Sparse, b: Dense, sb: Sparse) returns (sim: real)
    requires IsSqrt(sqrt)
    ensures sim == Hybrid(sqrt, w, a, sa, b, sb)
  {
    sim := CosineSimilarity(sqrt, a, b);
    if w > 0.0 && |sa| > 0 && |sb| > 0 {
      var lexical := SparseCosineEarlyZero(sqrt, sa, sb);
      sim := Blend(w, sim, lexical);
    }
  }
}
