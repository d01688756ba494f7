/**
 Conflict resolution when a fact is stored (memory/memory.go): the first similar entry of the same
 agent decides whether the fact is skipped, replaces that entry, or is stored as new.
 */
module MemoryConflicts {
  import opened Similarity
  import opened MemoryModel
  import opened MemoryRanking

  /** A fact to be stored, with its vectors in `query`; `supersedes` stands for the wording heuristics. */
  datatype Fact = Fact(query: Query, text: string, conflictThresh: real, supersedes: (string, string) -> bool)

  const IDENTICAL: real := 0.95

  ghost predicate Similar(f: Fact, e: Entry) {
    e.agentID == f.query.agent && (Sim(f.query, e) > IDENTICAL || Sim(f.query, e) > f.conflictThresh)
  }

  datatype Decision = StoreNew | Skip | Replace(index: nat)

  ghost function DecideAt(f: Fact, s: seq<Entry>, i: nat): Decision
    requires i < |s|
  {
    if Sim(f.query, s[i]) > IDENTICAL then Skip
    else if f.supersedes(f.text, s[i].fact) then Replace(i)
    else Skip
  }

  ghost predicate Decides(f: Fact, s: seq<Entry>, d: Decision) {
    || (d == StoreNew && forall j :: 0 <= j < |s| ==> !Similar(f, s[j]))
    || (exists i: nat :: IsFirstSimilar(f, s, i) && d == DecideAt(f, s, i))
  }

  ghost predicate IsFirstSimilar(f: Fact, s: seq<Entry>, i: nat) {
    i < |s| && Similar(f, s[i]) && forall j :: 0 <= j < i ==> !Similar(f, s[j])
  }

  lemma FirstSimilarDecides(f: Fact, s: seq<Entry>, i: nat, d: Decision)
    requires IsFirstSimilar(f, s, i) && Decides(f, s, d)
    ensures d == DecideAt(f, s, i)
  {
    if j: nat :| IsFirstSimilar(f, s, j) && d == DecideAt(f, s, j) {
      assert !(i < j) && !(j < i);
    }
  }

  lemma DecisionIsUnique(f: Fact, s: seq<Entry>, c: Decision, d: Decision)
    requires Decides(f, s, c) && Decides(f, s, d)
    ensures c == d
  {
    if i: nat :| IsFirstSimilar(f, s, i) {
      FirstSimilarDecides(f, s, i, c);
      FirstSimilarDecides(f, s, i, d);
    }
  }

  /** The decision in terms of the entries: `Of` is the similarity that searches use too. */
  ghost function Of(f: Fact, e: Entry): real {
    Hybrid(f.query.sqrt, f.query.weight, f.query.dense, f.query.sparse, e.vector, e.sparse)
  }

  /** Stored as new exactly if no entry of the agent is more similar than the conflict threshold, or than 0.95 if that is lower. */
  lemma StoredAsNewIff(f: Fact, s: seq<Entry>)
    ensures Decides(f, s, StoreNew) <==>
      forall j :: 0 <= j < |s| && s[j].agentID == f.query.agent ==> Of(f, s[j]) <= 0.95 && Of(f, s[j]) <= f.conflictThresh
  {
    forall j | 0 <= j < |s| ensures Similar(f, s[j]) <==> s[j].agentID == f.query.agent && (Of(f, s[j]) > 0.95 || Of(f, s[j]) > f.conflictThresh) {
    }
    if i: nat :| IsFirstSimilar(f, s, i) && StoreNew == DecideAt(f, s, i) {
      assert false;
    }
  }

  /** It replaces the entry of the agent that conflicts first, if that is not the same fact and the wording says so. */
  lemma ReplacesIff(f: Fact, s: seq<Entry>, i: nat)
    requires i < |s|
    ensures Decides(f, s, Replace(i)) <==>
      && s[i].agentID == f.query.agent && f.conflictThresh < Of(f, s[i]) <= 0.95 && f.supersedes(f.text, s[i].fact)
      && forall j :: 0 <= j < i && s[j].agentID == f.query.agent ==> Of(f, s[j]) <= 0.95 && Of(f, s[j]) <= f.conflictThresh
  {
    forall j | 0 <= j < |s| ensures Similar(f, s[j]) <==> s[j].agentID == f.query.agent && (Of(f, s[j]) > 0.95 || Of(f, s[j]) > f.conflictThresh) {
    }
    if IsFirstSimilar(f, s, i) {
      assert DecideAt(f, s, i) == Replace(i) ==> Decides(f, s, Replace(i));
    }
    if k: nat :| IsFirstSimilar(f, s, k) && Replace(i) == DecideAt(f, s, k) {
      assert k == i;
    }
  }

  // ---- A stored fact is not stored again ----

  lemma SelfQuotient(sqrt: real -> real, n: real)
    requires IsSqrt(sqrt) && n > 0.0
    ensures Quotient(sqrt, n, n, n) == 1.0
  {
    assert sqrt(n) * sqrt(n) == n;
    assert n / n == 1.0;
  }

  lemma {:induction false} SelfSimilarity(sqrt: real -> real, w: real, v: Dense, s: Sparse)
    requires IsSqrt(sqrt) && |v| > 0 && Dot(v, v) > 0.0
    requires w > 0.0 && |s| > 0 ==> SparseNorm(s) > 0.0
    ensures Hybrid(sqrt, w, v, s, v, s) == 1.0
  {
    SelfQuotient(sqrt, Dot(v, v));
    assert Cosine(sqrt, v, v) == 1.0;
    if w > 0.0 && |s| > 0 {
      assert s.Keys + s.Keys == s.Keys;
      SelfQuotient(sqrt, SparseNorm(s));
      assert SparseCosine(sqrt, s, s) == 1.0;
    }
  }

  lemma RemovedMembers(s: seq<Entry>, i: nat)
    requires i < |s|
    ensures forall e :: e in RemoveAt(s, i) ==> e in s
  {
  }

  lemma EvictedMembers(p: Eviction, s: seq<Entry>, scope: string, room: seq<Entry>)
    requires Evicted(p, s, scope, room)
    ensures forall e :: e in room ==> e in s
  {
    if s != [] {
      if HasCandidate(s, scope) {
        var i: nat :| IsVictim(p, s, scope, i) && room == RemoveAt(s, i);
        RemovedMembers(s, i);
      } else {
        var i: nat :| IsOldest(s, i) && room == RemoveAt(s, i);
        RemovedMembers(s, i);
      }
    }
  }

  lemma MembersAfterAppend(p: Eviction, s: seq<Entry>, maxEntries: nat, e: Entry, s': seq<Entry>)
    requires Appended(p, s, maxEntries, e, s')
    ensures |s'| > 0 && s'[|s'| - 1] == e
    ensures forall j :: 0 <= j < |s'| - 1 ==> s'[j] in s
  {
    if |s| >= maxEntries {
      var scope := EvictionScope(s, maxEntries, e.agentID);
      var room :| Evicted(p, s, scope, room) && s' == room + [e];
      EvictedMembers(p, s, scope, room);
    }
  }

  /** The entry a fact becomes. */
  function EntryOf(f: Fact, id: int, now: int): Entry {
    Entry(id, f.query.agent, f.text, f.query.dense, f.query.sparse, now, now, 0, now)
  }

  /**
   Storing the same fact twice in a row stores it once: right after it was stored as new, the same
   vectors are recognised, whatever had to be evicted.
   */
  lemma StoredFactIsRecognised(f: Fact, p: Eviction, s: seq<Entry>, maxEntries: nat, id: int, now: int, s': seq<Entry>)
    requires Decides(f, s, StoreNew) && Appended(p, s, maxEntries, EntryOf(f, id, now), s')
    requires IsSqrt(f.query.sqrt) && |f.query.dense| > 0 && Dot(f.query.dense, f.query.dense) > 0.0
    requires f.query.weight > 0.0 && |f.query.sparse| > 0 ==> SparseNorm(f.query.sparse) > 0.0
    ensures Decides(f, s', Skip) && !Decides(f, s', StoreNew)
  {
    MembersAfterAppend(p, s, maxEntries, EntryOf(f, id, now), s');
    SelfSimilarity(f.query.sqrt, f.query.weight, f.query.dense, f.query.sparse);
    var i := |s'| - 1;
    assert Sim(f.query, s'[i]) == 1.0;
    forall j | 0 <= j < i ensures !Similar(f, s'[j]) {
      var k :| 0 <= k < |s| && s[k] == s'[j];
      NothingSimilar(f, s, k);
    }
    assert IsFirstSimilar(f, s', i) && Skip == DecideAt(f, s', i);
    assert Similar(f, s'[i]);
    DecisionIsSkip(f, s', i);
  }

  /**
   A stored fact is found: any search by its agent, or by nobody in particular, with its vectors and a
   threshold of at most 1 matches its entry fully, with nothing faded yet at the time it was stored. It
   starts unused, accessed when it was created, and becomes stale ttlDays after that.
   */
  lemma StoredFactIsFound(f: Fact, q: Query, id: int, now: int)
    requires IsSqrt(q.sqrt) && |f.query.dense| > 0 && Dot(f.query.dense, f.query.dense) > 0.0
    requires q.weight > 0.0 && |f.query.sparse| > 0 ==> SparseNorm(f.query.sparse) > 0.0
    requires q.dense == f.query.dense && q.sparse == f.query.sparse && q.agent in {"", f.query.agent} && q.threshold <= 1.0
    ensures Matches(q, EntryOf(f, id, now)) && FadedSim(q, EntryOf(f, id, now)) == q.fade(if q.now < now then 0 else q.now - now)
    ensures EntryOf(f, id, now).id == id && EntryOf(f, id, now).fact == f.text
  {
    SelfSimilarity(q.sqrt, q.weight, q.dense, q.sparse);
  }

  lemma NewEntryIsUnused(f: Fact, p: Eviction, id: int, now: int)
    requires now != -62135596800 * 1_000_000_000 && !(0 <= now < 1_000_000_000)
    ensures Stale(p, EntryOf(f, id, now)) <==> now < p.now - p.ttlDays * (24 * 3_600_000_000_000)
    ensures !Stale(p, EntryOf(f, id, now)) ==> Score(p, EntryOf(f, id, now)) == p.decay(p.now - now)
    ensures var e := EntryOf(f, id, now); e.createdAt == e.lastAccessed == e.updatedAt == now && e.accessCount == 0
  {
  }

  lemma NothingSimilar(f: Fact, s: seq<Entry>, k: nat)
    requires Decides(f, s, StoreNew) && k < |s|
    ensures !Similar(f, s[k])
  {
  }

  lemma DecisionIsSkip(f: Fact, s: seq<Entry>, i: nat)
    requires IsFirstSimilar(f, s, i) && DecideAt(f, s, i) == Skip
    ensures !Decides(f, s, StoreNew)
  {
    if Decides(f, s, StoreNew) {
      NothingSimilar(f, s, i);
    }
  }
}
