/**
 Storing facts lock region by lock region (memory/memory.go): a request scans the store under the
 read lock and appends or overwrites under the write lock later, with anything in between. The regions
 of all requests, deletions and searches interleave in any way.
 */
module MemoryInterleaving {
  import opened MemoryModel
  import opened MemoryConflicts
  import opened MemoryStore
  import opened Similarity
  import MemoryRanking

  /** What a request carries from its scan to its write: an entry to overwrite is remembered by reference. */
  datatype Pending = ToAppend(f: Fact) | ToOverwrite(f: Fact, id: int)

  /** `issued` are the ids the database has handed out. */
  datatype State = State(entries: seq<Entry>, issued: set<int>, waiting: map<nat, Pending>)

  datatype Move =
    | Scan(t: nat, f: Fact)
    | Write(t: nat, p: Eviction, id: int, now: int)
    | Delete(target: int)
    | Search(ids: seq<int>, at: int)

  function Overwritten(s: seq<Entry>, id: int, f: Fact, now: int): (r: seq<Entry>)
    ensures |r| == |s|
  {
    seq(|s|, i requires 0 <= i < |s| => if s[i].id == id then Rewritten(s[i], f, now) else s[i])
  }

  function TouchedBy(s: seq<Entry>, ids: seq<int>, now: int): (r: seq<Entry>)
    ensures |r| == |s|
  {
    seq(|s|, i requires 0 <= i < |s| => if s[i].id in ids then Touched(s[i], now) else s[i])
  }

  /** The entries without the first one of that id. */
  function Without(s: seq<Entry>, id: int): seq<Entry> {
    if s == [] then [] else if s[0].id == id then s[1..] else [s[0]] + Without(s[1..], id)
  }

  function Carried(d: Decision, f: Fact, s: seq<Entry>): Pending
    requires d.StoreNew? || (d.Replace? && d.index < |s|)
  {
    if d.StoreNew? then ToAppend(f) else ToOverwrite(f, s[d.index].id)
  }

  ghost predicate Scanned(s: State, t: nat, f: Fact, s': State) {
    && t !in s.waiting
    && exists d :: Decides(f, s.entries, d)
         && s' == if d.Skip? then s else s.(waiting := s.waiting[t := Carried(d, f, s.entries)])
  }

  /** A new id is one the database has never handed out; an overwritten entry that is gone leaves no trace. */
  ghost predicate Written(max: nat, s: State, m: Move, s': State)
    requires m.Write?
  {
    && m.t in s.waiting
    && s'.waiting == s.waiting - {m.t}
    && match s.waiting[m.t]
       case ToAppend(f) =>
         && m.id !in s.issued && s'.issued == s.issued + {m.id}
         && Appended(m.p, s.entries, max, EntryOf(f, m.id, m.now), s'.entries)
       case ToOverwrite(f, id) =>
         && s'.issued == s.issued
         && s'.entries == Overwritten(s.entries, id, f, m.now)
  }

  ghost predicate Next(max: nat, s: State, m: Move, s': State) {
    match m
    case Scan(t, f) => Scanned(s, t, f, s')
    case Write(_, _, _, _) => Written(max, s, m, s')
    case Delete(id) => s' == s.(entries := Without(s.entries, id))
    case Search(ids, at) => s' == s.(entries := TouchedBy(s.entries, ids, at))
  }

  ghost predicate IsRun(max: nat, states: seq<State>, moves: seq<Move>) {
    && |states| == |moves| + 1
    && forall k :: 0 <= k < |moves| ==> Next(max, states[k], moves[k], states[k + 1])
  }

  // ---- Entries keep their ids ----

  ghost predicate Inv(s: State) { DistinctIDs(s.entries, s.issued) }

  ghost predicate DistinctIDs(s: seq<Entry>, issued: set<int>) {
    && (forall i :: 0 <= i < |s| ==> s[i].id in issued)
    && (forall i, j :: 0 <= i < j < |s| ==> s[i].id != s[j].id)
  }

  /** r is part of s, in the same order. */
  ghost predicate Part(r: seq<Entry>, s: seq<Entry>) {
    exists at: seq<nat> :: Picks(r, s, at)
  }

  ghost predicate Picks(r: seq<Entry>, s: seq<Entry>, at: seq<nat>) {
    && |at| == |r|
    && (forall i :: 0 <= i < |r| ==> at[i] < |s| && r[i] == s[at[i]])
    && (forall i, j :: 0 <= i < j < |r| ==> at[i] < at[j])
  }

  lemma RemovedIsPart(s: seq<Entry>, i: nat)
    requires i < |s|
    ensures Part(RemoveAt(s, i), s)
  {
    assert Picks(RemoveAt(s, i), s, seq(|s| - 1, k requires 0 <= k < |s| - 1 => if k < i then k else k + 1));
  }

  lemma WholeIsPart(s: seq<Entry>)
    ensures Part(s, s)
  {
    assert Picks(s, s, seq(|s|, k requires 0 <= k < |s| => k));
  }

  lemma {:induction false} WithoutIsPart(s: seq<Entry>, id: int)
    ensures Part(Without(s, id), s)
    ensures (exists e :: e in s && e.id == id) ==> |Without(s, id)| < |s|
  {
    if s == [] {
      WholeIsPart(s);
    } else if s[0].id == id {
      RemovedIsPart(s, 0);
      assert RemoveAt(s, 0) == s[1..];
    } else {
      WithoutIsPart(s[1..], id);
      PartOfMore(s, Without(s[1..], id));
    }
  }

  lemma PartOfMore(s: seq<Entry>, rest: seq<Entry>)
    requires s != [] && Part(rest, s[1..])
    ensures Part([s[0]] + rest, s)
  {
    var at :| Picks(rest, s[1..], at);
    var at' := [0] + seq(|at|, k requires 0 <= k < |at| => at[k] + 1);
    forall i | 0 <= i < |at'| ensures at'[i] < |s| && ([s[0]] + rest)[i] == s[at'[i]] {
      if i > 0 {
        assert at'[i] == at[i - 1] + 1;
      }
    }
    assert Picks([s[0]] + rest, s, at');
  }

  lemma EvictedIsPart(p: Eviction, s: seq<Entry>, agent: string, room: seq<Entry>)
    requires Evicted(p, s, agent, room)
    ensures Part(room, s)
  {
    if s == [] {
      WholeIsPart(s);
    } else if HasCandidate(s, agent) {
      var i: nat :| IsVictim(p, s, agent, i) && room == RemoveAt(s, i);
      RemovedIsPart(s, i);
    } else {
      var i: nat :| IsOldest(s, i) && room == RemoveAt(s, i);
      RemovedIsPart(s, i);
    }
  }

  lemma AppendedIsPart(p: Eviction, s: seq<Entry>, max: nat, e: Entry, s': seq<Entry>)
    requires Appended(p, s, max, e, s')
    ensures |s'| > 0 && s'[|s'| - 1] == e && Part(s'[..|s'| - 1], s)
  {
    if |s| >= max {
      var room :| Evicted(p, s, EvictionScope(s, max, e.agentID), room) && s' == room + [e];
      EvictedIsPart(p, s, EvictionScope(s, max, e.agentID), room);
      assert s'[..|s'| - 1] == room;
    } else {
      WholeIsPart(s);
      assert s'[..|s'| - 1] == s;
    }
  }

  lemma PartKeepsIDs(r: seq<Entry>, s: seq<Entry>, issued: set<int>)
    requires Part(r, s) && DistinctIDs(s, issued)
    ensures DistinctIDs(r, issued)
  {
    var at :| Picks(r, s, at);
  }

  lemma AppendedKeepsIDs(p: Eviction, s: seq<Entry>, max: nat, e: Entry, s': seq<Entry>, issued: set<int>)
    requires Appended(p, s, max, e, s') && DistinctIDs(s, issued) && e.id !in issued
    ensures DistinctIDs(s', issued + {e.id})
  {
    AppendedIsPart(p, s, max, e, s');
    var kept := s'[..|s'| - 1];
    PartKeepsIDs(kept, s, issued);
    assert s' == kept + [e];
    OneMoreID(kept, e, issued);
  }

  lemma OneMoreID(s: seq<Entry>, e: Entry, issued: set<int>)
    requires DistinctIDs(s, issued) && e.id !in issued
    ensures DistinctIDs(s + [e], issued + {e.id})
  {
    var s' := s + [e];
    forall i, j | 0 <= i < j < |s'| ensures s'[i].id != s'[j].id {
      assert s'[i] == s[i];
      if j < |s| {
        assert s'[j] == s[j];
      }
    }
  }

  lemma StepKeepsInv(max: nat, s: State, m: Move, s': State)
    requires Inv(s) && Next(max, s, m, s')
    ensures Inv(s')
  {
    if m.Delete? {
      WithoutIsPart(s.entries, m.target);
      PartKeepsIDs(s'.entries, s.entries, s.issued);
    } else if m.Write? && s.waiting[m.t].ToAppend? {
      AppendedKeepsIDs(m.p, s.entries, max, EntryOf(s.waiting[m.t].f, m.id, m.now), s'.entries, s.issued);
    }
  }

  // ---- When a duplicate is stored ----

  /** The entry of that id is there and similar to the fact. */
  ghost predicate HasSimilar(f: Fact, s: seq<Entry>, id: int) {
    exists e :: e in s && e.id == id && Similar(f, e)
  }

  ghost predicate HasAnySimilar(f: Fact, s: seq<Entry>) {
    exists e :: e in s && Similar(f, e)
  }

  /** The id a write puts its fact under. */
  function Target(s: State, m: Move): int
    requires m.Write? && m.t in s.waiting
  {
    match s.waiting[m.t]
    case ToAppend(_) => m.id
    case ToOverwrite(_, id) => id
  }

  lemma SimilarEntryWasThere(f: Fact, r: seq<Entry>, s: seq<Entry>, id: int)
    requires Part(r, s) && HasSimilar(f, r, id)
    ensures HasSimilar(f, s, id)
  {
    var at :| Picks(r, s, at);
    var i :| 0 <= i < |r| && r[i].id == id && Similar(f, r[i]);
    assert s[at[i]] in s;
  }

  lemma SimilarAfterAppend(p: Eviction, s: seq<Entry>, max: nat, e: Entry, s': seq<Entry>, f: Fact, id: int)
    requires Appended(p, s, max, e, s') && HasSimilar(f, s', id)
    ensures HasSimilar(f, s, id) || e.id == id
  {
    AppendedIsPart(p, s, max, e, s');
    var kept := s'[..|s'| - 1];
    var i :| 0 <= i < |s'| && s'[i].id == id && Similar(f, s'[i]);
    if i < |kept| {
      assert kept[i] in kept;
      SimilarEntryWasThere(f, kept, s, id);
    }
  }

  /** Only a write makes an entry similar to a fact, and only the entry it writes. */
  lemma SimilarComesFromAWrite(max: nat, s: State, m: Move, s': State, f: Fact, id: int)
    requires Next(max, s, m, s') && HasSimilar(f, s'.entries, id)
    ensures HasSimilar(f, s.entries, id) || (m.Write? && Target(s, m) == id)
  {
    match m
    case Scan(_, _) =>
    case Delete(x) =>
      WithoutIsPart(s.entries, x);
      SimilarEntryWasThere(f, s'.entries, s.entries, id);
    case Search(ids, at) =>
      var i :| 0 <= i < |s'.entries| && s'.entries[i].id == id && Similar(f, s'.entries[i]);
      assert s.entries[i] in s.entries && Similar(f, s.entries[i]);
    case Write(_, p, x, now) =>
      if s.waiting[m.t].ToAppend? {
        SimilarAfterAppend(p, s.entries, max, EntryOf(s.waiting[m.t].f, x, now), s'.entries, f, id);
      } else {
        var i :| 0 <= i < |s'.entries| && s'.entries[i].id == id && Similar(f, s'.entries[i]);
        assert s.entries[i] in s.entries;
      }
  }

  /** Move k of the run writes an entry that is similar to the fact from then on, up to state b. */
  ghost predicate WroteSimilar(f: Fact, states: seq<State>, moves: seq<Move>, k: nat, b: nat)
    requires |states| == |moves| + 1
  {
    && k < b <= |moves| && moves[k].Write? && moves[k].t in states[k].waiting
    && forall j :: k < j <= b ==> HasSimilar(f, states[j].entries, Target(states[k], moves[k]))
  }

  lemma StillSimilar(f: Fact, states: seq<State>, moves: seq<Move>, k: nat, b: nat)
    requires |states| == |moves| + 1 && b < |moves| && WroteSimilar(f, states, moves, k, b)
    requires HasSimilar(f, states[b + 1].entries, Target(states[k], moves[k]))
    ensures WroteSimilar(f, states, moves, k, b + 1)
  {
  }

  lemma {:induction false} SimilarSinceAWrite(max: nat, states: seq<State>, moves: seq<Move>, a: nat, b: nat, f: Fact, id: int)
    returns (k: nat)
    requires IsRun(max, states, moves) && a <= b <= |moves|
    requires !HasSimilar(f, states[a].entries, id) && HasSimilar(f, states[b].entries, id)
    ensures a <= k && WroteSimilar(f, states, moves, k, b)
    ensures Target(states[k], moves[k]) == id
    decreases b
  {
    var last := b - 1;
    assert Next(max, states[last], moves[last], states[last + 1]);
    if HasSimilar(f, states[last].entries, id) {
      k := SimilarSinceAWrite(max, states, moves, a, last, f, id);
      StillSimilar(f, states, moves, k, last);
    } else {
      SimilarComesFromAWrite(max, states[last], moves[last], states[b], f, id);
      k := last;
    }
  }

  /**
   A request that found nothing similar when it scanned, in state a, finds a similar entry in the store
   it writes to, in state b, exactly when a write in between put one there that is there still. The
   request does not look again: it then stores a duplicate.
   */
  lemma {:induction false} DuplicateIff(max: nat, states: seq<State>, moves: seq<Move>, a: nat, b: nat, f: Fact)
    requires IsRun(max, states, moves) && a <= b <= |moves| && Decides(f, states[a].entries, StoreNew)
    ensures HasAnySimilar(f, states[b].entries) <==> exists k: nat :: a <= k && WroteSimilar(f, states, moves, k, b)
  {
    if HasAnySimilar(f, states[b].entries) {
      var e :| e in states[b].entries && Similar(f, e);
      NoneSimilar(f, states[a].entries, e.id);
      var k := SimilarSinceAWrite(max, states, moves, a, b, f, e.id);
    }
    if k: nat :| a <= k && WroteSimilar(f, states, moves, k, b) {
      var e :| e in states[b].entries && e.id == Target(states[k], moves[k]) && Similar(f, e);
    }
  }

  lemma NoneSimilar(f: Fact, s: seq<Entry>, id: int)
    requires Decides(f, s, StoreNew)
    ensures !HasSimilar(f, s, id)
  {
    if HasSimilar(f, s, id) {
      var i :| 0 <= i < |s| && s[i].id == id && Similar(f, s[i]);
      NothingSimilar(f, s, i);
    }
  }

  /** With no write by another request between its regions, a request never stores a duplicate. */
  lemma {:induction false} NoWriteNoDuplicate(max: nat, states: seq<State>, moves: seq<Move>, a: nat, b: nat, f: Fact)
    requires IsRun(max, states, moves) && a <= b <= |moves| && Decides(f, states[a].entries, StoreNew)
    requires forall k :: a <= k < b ==> !moves[k].Write?
    ensures !HasAnySimilar(f, states[b].entries)
  {
    DuplicateIff(max, states, moves, a, b, f);
  }

  // ---- Copies of one fact ----

  function Copies(f: Fact, first: int, now: int, n: nat): (r: seq<Entry>)
    ensures |r| == n && forall i :: 0 <= i < n ==> r[i] == EntryOf(f, first + i, now)
  {
    seq(n, i requires 0 <= i < n => EntryOf(f, first + i, now))
  }

  function IDs(s: seq<Entry>): set<int> { set e | e in s :: e.id }

  /** The requests lo to hi - 1 are about to append the fact. */
  function Waiters(f: Fact, lo: nat, hi: nat): (r: map<nat, Pending>)
    ensures forall t :: t in r <==> lo <= t < hi
    ensures forall t :: t in r ==> r[t] == ToAppend(f)
  {
    if lo >= hi then map[] else Waiters(f, lo, hi - 1)[hi - 1 := ToAppend(f)]
  }

  /** n requests for one fact: all scan, then all write. This is the state after k of the 2 * n regions. */
  function Racing(s: State, f: Fact, first: int, now: int, n: nat, k: nat): State
    requires k <= 2 * n
  {
    var written := if k <= n then 0 else k - n;
    State(s.entries + Copies(f, first, now, written),
          s.issued + IDs(Copies(f, first, now, written)),
          Waiters(f, written, if k <= n then k else n))
  }

  function Race(f: Fact, p: Eviction, first: int, now: int, n: nat, k: nat): Move
    requires k < 2 * n
  {
    if k < n then Scan(k, f) else Write(k - n, p, first + (k - n), now)
  }

  lemma RacingScans(max: nat, s: State, f: Fact, p: Eviction, first: int, now: int, n: nat, k: nat)
    requires k < n && Decides(f, s.entries, StoreNew)
    ensures Next(max, Racing(s, f, first, now, n, k), Race(f, p, first, now, n, k), Racing(s, f, first, now, n, k + 1))
  {
    var r, r' := Racing(s, f, first, now, n, k), Racing(s, f, first, now, n, k + 1);
    assert r.entries == s.entries == r'.entries;
    assert r'.waiting == r.waiting[k := ToAppend(f)];
    assert Decides(f, r.entries, StoreNew) && r' == r.(waiting := r.waiting[k := Carried(StoreNew, f, r.entries)]);
  }

  lemma RacingWrites(max: nat, s: State, f: Fact, p: Eviction, first: int, now: int, n: nat, k: nat)
    requires n <= k < 2 * n && |s.entries| + n <= max && forall i :: i in s.issued ==> i < first
    ensures Next(max, Racing(s, f, first, now, n, k), Race(f, p, first, now, n, k), Racing(s, f, first, now, n, k + 1))
  {
    var r, r' := Racing(s, f, first, now, n, k), Racing(s, f, first, now, n, k + 1);
    var few, more := Copies(f, first, now, k - n), Copies(f, first, now, k - n + 1);
    assert more == few + [EntryOf(f, first + (k - n), now)];
    assert r'.entries == r.entries + [EntryOf(f, first + (k - n), now)];
    assert IDs(more) == IDs(few) + {first + (k - n)};
    assert forall e :: e in few ==> e.id < first + (k - n);
    assert first + (k - n) !in r.issued;
    assert r'.issued == r.issued + {first + (k - n)};
    assert r'.waiting == r.waiting - {k - n};
  }

  /**
   Any number of requests for one fact that all scan before the first of them writes store as many
   copies, while there is room: each of them is similar to the fact.
   */
  lemma {:induction false} EveryCopyIsStored(max: nat, s: State, f: Fact, p: Eviction, first: int, now: int, n: nat)
    returns (states: seq<State>, moves: seq<Move>)
    requires Decides(f, s.entries, StoreNew) && s.waiting == map[] && |s.entries| + n <= max
    requires forall i :: i in s.issued ==> i < first
    requires IsSqrt(f.query.sqrt) && |f.query.dense| > 0 && Dot(f.query.dense, f.query.dense) > 0.0
    requires f.query.weight > 0.0 && |f.query.sparse| > 0 ==> SparseNorm(f.query.sparse) > 0.0
    ensures IsRun(max, states, moves) && states[0] == s
    ensures states[|moves|].entries == s.entries + Copies(f, first, now, n)
    ensures forall e :: e in Copies(f, first, now, n) ==> Similar(f, e)
  {
    states := seq(2 * n + 1, k requires 0 <= k <= 2 * n => Racing(s, f, first, now, n, k));
    moves := seq(2 * n, k requires 0 <= k < 2 * n => Race(f, p, first, now, n, k));
    RacingStarts(s, f, first, now, n);
    forall k | 0 <= k < |moves| ensures Next(max, states[k], moves[k], states[k + 1]) {
      if k < n {
        RacingScans(max, s, f, p, first, now, n, k);
      } else {
        RacingWrites(max, s, f, p, first, now, n, k);
      }
    }
    forall e | e in Copies(f, first, now, n) ensures Similar(f, e) {
      var i :| 0 <= i < n && Copies(f, first, now, n)[i] == e;
      CopyIsSimilar(f, first + i, now);
    }
  }

  lemma CopyIsSimilar(f: Fact, id: int, now: int)
    requires IsSqrt(f.query.sqrt) && |f.query.dense| > 0 && Dot(f.query.dense, f.query.dense) > 0.0
    requires f.query.weight > 0.0 && |f.query.sparse| > 0 ==> SparseNorm(f.query.sparse) > 0.0
    ensures Similar(f, EntryOf(f, id, now))
  {
    SelfSimilarity(f.query.sqrt, f.query.weight, f.query.dense, f.query.sparse);
    assert MemoryRanking.Sim(f.query, EntryOf(f, id, now)) == 1.0;
  }

  lemma RacingStarts(s: State, f: Fact, first: int, now: int, n: nat)
    requires s.waiting == map[]
    ensures Racing(s, f, first, now, n, 0) == s
  {
    var r := Racing(s, f, first, now, n, 0);
    assert r.waiting == map[];
    assert r.issued == s.issued;
    assert r.entries == s.entries;
  }

  // ---- What a search changes ----

  /** A search notes the access of the entries it returned, once each, and changes nothing else. */
  lemma SearchNotesAccesses(max: nat, s: State, m: Move, s': State)
    requires m.Search? && Next(max, s, m, s')
    ensures |s'.entries| == |s.entries| && s'.issued == s.issued && s'.waiting == s.waiting
    ensures forall i :: 0 <= i < |s.entries| ==>
      s'.entries[i] == if s.entries[i].id in m.ids
        then s.entries[i].(lastAccessed := m.at, accessCount := s.entries[i].accessCount + 1) else s.entries[i]
  {
  }

  // ---- A fact that replaces an entry ----

  ghost predicate HoldsID(s: seq<Entry>, id: int) {
    exists e :: e in s && e.id == id
  }

  /**
   An overwrite leaves its fact in the store exactly when the entry it replaces is still there; if that
   entry was deleted or evicted since the scan, the store does not change and the fact is lost to searches.
   */
  lemma {:induction false} OverwriteTakesEffectIff(max: nat, s: State, m: Move, s': State)
    requires m.Write? && Next(max, s, m, s') && s.waiting[m.t].ToOverwrite?
    ensures var w := s.waiting[m.t];
      (exists e :: e in s'.entries && e.id == w.id && e.fact == w.f.text && e.vector == w.f.query.dense && e.sparse == w.f.query.sparse
        && e.updatedAt == m.now)
      <==> HoldsID(s.entries, w.id)
    ensures |s'.entries| == |s.entries| && forall i :: 0 <= i < |s.entries| ==>
      && s'.entries[i].id == s.entries[i].id && s'.entries[i].agentID == s.entries[i].agentID
      && s'.entries[i].createdAt == s.entries[i].createdAt && s'.entries[i].lastAccessed == s.entries[i].lastAccessed
      && s'.entries[i].accessCount == s.entries[i].accessCount
      && (s.entries[i].id != s.waiting[m.t].id ==> s'.entries[i] == s.entries[i])
    ensures !HoldsID(s.entries, s.waiting[m.t].id) ==> s'.entries == s.entries
  {
    var w := s.waiting[m.t];
    if e :| e in s.entries && e.id == w.id {
      var i :| 0 <= i < |s.entries| && s.entries[i] == e;
      assert s'.entries[i] in s'.entries && s'.entries[i] == Rewritten(e, w.f, m.now);
    }
    if e :| e in s'.entries && e.id == w.id {
      var i :| 0 <= i < |s'.entries| && s'.entries[i] == e;
      assert s.entries[i] in s.entries && s.entries[i].id == w.id;
    }
    if !HoldsID(s.entries, w.id) {
      assert forall i :: 0 <= i < |s.entries| ==> s.entries[i] in s.entries;
      assert s'.entries == s.entries;
    }
  }

  // ---- Undisturbed regions ----

  /**
   A scan and its write with nothing in between are one call of `Store.StoreFact`: the decision taken on
   the store as it is, carried out on that store.
   */
  lemma UndisturbedStore(max: nat, s: State, f: Fact, m: Move, mid: State, s': State, d: Decision)
    requires Inv(s) && m.Write? && Next(max, s, Scan(m.t, f), mid) && Decides(f, s.entries, d)
    requires if d.Skip? then s' == mid else Next(max, mid, m, s')
    ensures d.Skip? ==> s'.entries == s.entries
    ensures d.StoreNew? ==> Appended(m.p, s.entries, max, EntryOf(f, m.id, m.now), s'.entries)
    ensures d.Replace? ==> d.index < |s.entries|
    ensures d.Replace? ==> s'.entries == s.entries[d.index := Rewritten(s.entries[d.index], f, m.now)]
  {
    var c :| Decides(f, s.entries, c) && mid == if c.Skip? then s else s.(waiting := s.waiting[m.t := Carried(c, f, s.entries)]);
    DecisionIsUnique(f, s.entries, c, d);
  }
}
