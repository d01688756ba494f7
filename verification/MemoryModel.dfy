/**
 The memory store on values (memory/memory.go): which entry is evicted when the store is full, and
 what a store changes for each agent. Time is in nanoseconds, scores are reals; the decay factor
 exp(-0.05 d) is a parameter.
 */
module MemoryModel {
  import opened Similarity

  datatype Entry = Entry(id: int, agentID: string, fact: string, vector: Dense, sparse: Sparse,
                         createdAt: int, lastAccessed: int, accessCount: nat, updatedAt: int)

  const HOUR: int := 3_600_000_000_000
  const DAY: int := 24 * HOUR
  const SECOND: int := 1_000_000_000
  /** Go's zero time, January 1 of year 1, as Unix nanoseconds. */
  const ZERO_TIME: int := -62135596800 * SECOND

  function RemoveAt<T>(s: seq<T>, i: nat): (r: seq<T>)
    requires i < |s|
    ensures |r| == |s| - 1
  {
    s[..i] + s[i + 1..]
  }

  // ---- Counting ----

  function Count(s: seq<Entry>, agent: string): nat {
    if s == [] then 0
    else Count(s[..|s| - 1], agent) + if s[|s| - 1].agentID == agent then 1 else 0
  }

  function Agents(s: seq<Entry>): set<string> { set e | e in s :: e.agentID }

  function Max(a: int, b: int): int { if a < b then b else a }

  const MIN_QUOTA: int := 100

  function Quota(s: seq<Entry>, maxEntries: nat): int {
    Max(maxEntries / Max(|Agents(s)|, 1), MIN_QUOTA)
  }

  lemma {:induction false} CountConcat(a: seq<Entry>, b: seq<Entry>, agent: string)
    ensures Count(a + b, agent) == Count(a, agent) + Count(b, agent)
    decreases |b|
  {
    if b == [] {
      assert a + b == a;
    } else {
      assert (a + b)[..|a + b| - 1] == a + b[..|b| - 1];
      CountConcat(a, b[..|b| - 1], agent);
    }
  }

  lemma {:induction false} CountRemoved(s: seq<Entry>, i: nat, agent: string)
    requires i < |s|
    ensures Count(RemoveAt(s, i), agent) == Count(s, agent) - if s[i].agentID == agent then 1 else 0
  {
    CountConcat(s[..i], [s[i]], agent);
    CountConcat(s[..i] + [s[i]], s[i + 1..], agent);
    CountConcat(s[..i], s[i + 1..], agent);
    assert s == s[..i] + [s[i]] + s[i + 1..];
    assert [s[i]][..0] == [];
  }

  lemma {:induction false} CountPositive(s: seq<Entry>, agent: string)
    ensures Count(s, agent) > 0 <==> exists i :: 0 <= i < |s| && s[i].agentID == agent
    ensures Count(s, agent) <= |s|
  {
    if s != [] {
      CountPositive(s[..|s| - 1], agent);
      if s[|s| - 1].agentID != agent && exists i :: 0 <= i < |s| && s[i].agentID == agent {
        var i :| 0 <= i < |s| && s[i].agentID == agent;
        assert s[..|s| - 1][i].agentID == agent;
      }
    }
  }

  // ---- The eviction score ----

  /** The decay of an idle time: positive, and smaller the longer the idle time. */
  ghost predicate IsDecay(decay: int -> real) {
    && (forall t :: decay(t) > 0.0)
    && (forall s, t :: s <= t ==> decay(t) <= decay(s))
  }

  datatype Eviction = Eviction(decay: int -> real, ttlDays: nat, now: int)

  function LastAccess(e: Entry): int {
    if e.lastAccessed == ZERO_TIME || 0 <= e.lastAccessed < SECOND then e.createdAt else e.lastAccessed
  }

  predicate Stale(p: Eviction, e: Entry) { LastAccess(e) < p.now - p.ttlDays * DAY }

  /** Stale entries score minus their idle hours, the others their uses weighted by recency. */
  function Score(p: Eviction, e: Entry): real {
    var idle := p.now - LastAccess(e);
    if Stale(p, e) then -(idle as real / HOUR as real)
    else (1 + e.accessCount) as real * p.decay(idle)
  }

  predicate Candidate(e: Entry, agent: string) { agent == "" || e.agentID == agent }

  /** The first entry of minimal score among the candidates. */
  ghost predicate IsVictim(p: Eviction, s: seq<Entry>, agent: string, i: nat) {
    && i < |s| && Candidate(s[i], agent)
    && (forall j :: 0 <= j < |s| && Candidate(s[j], agent) ==> Score(p, s[i]) <= Score(p, s[j]))
    && (forall j :: 0 <= j < i && Candidate(s[j], agent) ==> Score(p, s[i]) < Score(p, s[j]))
  }

  /** The first entry of minimal creation time. */
  predicate IsOldest(s: seq<Entry>, i: nat) {
    && i < |s|
    && (forall j :: 0 <= j < |s| ==> s[i].createdAt <= s[j].createdAt)
    && (forall j :: 0 <= j < i ==> s[i].createdAt < s[j].createdAt)
  }

  predicate HasCandidate(s: seq<Entry>, agent: string) { exists j :: 0 <= j < |s| && Candidate(s[j], agent) }

  /** s' is s after one eviction for the agent ("" for all agents). */
  ghost predicate Evicted(p: Eviction, s: seq<Entry>, agent: string, s': seq<Entry>) {
    if s == [] then s' == s
    else if HasCandidate(s, agent) then exists i: nat :: IsVictim(p, s, agent, i) && s' == RemoveAt(s, i)
    else exists i: nat :: IsOldest(s, i) && s' == RemoveAt(s, i)
  }

  lemma StaleScoresBelowActive(p: Eviction, e: Entry, f: Entry)
    requires IsDecay(p.decay) && Stale(p, e) && !Stale(p, f)
    ensures Score(p, e) < 0.0 < Score(p, f)
  {
    var idle := p.now - LastAccess(e);
    assert idle > 0;
    PositiveProduct((1 + f.accessCount) as real, p.decay(p.now - LastAccess(f)));
    PositiveQuotient(idle as real, HOUR as real);
  }

  lemma PositiveProduct(x: real, y: real)
    requires x > 0.0 && y > 0.0
    ensures x * y > 0.0
  {
  }

  lemma PositiveQuotient(x: real, y: real)
    requires x > 0.0 && y > 0.0
    ensures x / y > 0.0
  {
  }

  lemma QuotientOrder(x: real, y: real, h: real)
    requires h > 0.0
    ensures x / h <= y / h <==> x <= y
  {
  }

  /**
   If any candidate is stale, the victim is stale, and no candidate has been idle longer than it.
   Otherwise the victim has the least recency-weighted use.
   */
  lemma VictimIsTheLongestIdleStale(p: Eviction, s: seq<Entry>, agent: string, i: nat, j: nat)
    requires IsDecay(p.decay) && IsVictim(p, s, agent, i) && j < |s| && Candidate(s[j], agent) && Stale(p, s[j])
    ensures Stale(p, s[i]) && LastAccess(s[i]) <= LastAccess(s[j])
  {
    if !Stale(p, s[i]) {
      StaleScoresBelowActive(p, s[j], s[i]);
    }
    QuotientOrder((p.now - LastAccess(s[j])) as real, (p.now - LastAccess(s[i])) as real, HOUR as real);
  }

  lemma ProductOrder(x: real, y: real, d: real, e: real)
    requires 0.0 <= x <= y && 0.0 <= d <= e
    ensures x * d <= y * e
  {
    Scale(x, y, d);
    Scale(d, e, y);
  }

  /** Among active entries, one that is used no more and has been idle no less never scores higher. */
  lemma LessUsedAndLongerIdleScoresLower(p: Eviction, e: Entry, f: Entry)
    requires IsDecay(p.decay) && !Stale(p, e) && !Stale(p, f)
    requires e.accessCount <= f.accessCount && LastAccess(e) <= LastAccess(f)
    ensures Score(p, e) <= Score(p, f)
  {
    ProductOrder((1 + e.accessCount) as real, (1 + f.accessCount) as real,
                 p.decay(p.now - LastAccess(e)), p.decay(p.now - LastAccess(f)));
  }

  // ---- The victim, in the entries' own fields ----

  /** A recorded access: neither Go's zero time nor one within the first second of Unix time. */
  predicate Accessed(e: Entry) { e.lastAccessed != -62135596800 * 1_000_000_000 && !(0 <= e.lastAccessed < 1_000_000_000) }

  /** Every candidate's access was recorded. */
  predicate AllAccessed(s: seq<Entry>, agent: string) {
    forall j :: 0 <= j < |s| && (agent == "" || s[j].agentID == agent) ==> Accessed(s[j])
  }

  /**
   If any candidate was last accessed before the cut-off, the victim was, and longest ago of all: no
   candidate's last access is earlier. When it was created, and how often it was used, does not matter.
   */
  lemma VictimWasAccessedLongestAgo(p: Eviction, s: seq<Entry>, agent: string, i: nat, j: nat)
    requires IsDecay(p.decay) && IsVictim(p, s, agent, i) && AllAccessed(s, agent)
    requires j < |s| && (agent == "" || s[j].agentID == agent)
    requires s[j].lastAccessed < p.now - p.ttlDays * (24 * 3_600_000_000_000)
    ensures i < |s| && (agent == "" || s[i].agentID == agent)
    ensures s[i].lastAccessed < p.now - p.ttlDays * (24 * 3_600_000_000_000) && s[i].lastAccessed <= s[j].lastAccessed
  {
    VictimIsTheLongestIdleStale(p, s, agent, i, j);
  }

  /** An entry just touched is never the victim as long as a candidate was last accessed before the cut-off. */
  lemma TouchedIsSpared(p: Eviction, s: seq<Entry>, agent: string, i: nat, j: nat)
    requires IsDecay(p.decay) && IsVictim(p, s, agent, i) && AllAccessed(s, agent) && p.ttlDays >= 1
    requires j < |s| && (agent == "" || s[j].agentID == agent)
    requires s[j].lastAccessed < p.now - p.ttlDays * (24 * 3_600_000_000_000)
    ensures i < |s| && s[i].lastAccessed != p.now
  {
    VictimWasAccessedLongestAgo(p, s, agent, i, j);
  }

  /** If every candidate is recent enough, the victim has the least use, each use and one more weighted by the idle time. */
  lemma VictimIsUsedLeast(p: Eviction, s: seq<Entry>, agent: string, i: nat, j: nat)
    requires IsVictim(p, s, agent, i) && AllAccessed(s, agent)
    requires forall k :: 0 <= k < |s| && (agent == "" || s[k].agentID == agent) ==>
      s[k].lastAccessed >= p.now - p.ttlDays * (24 * 3_600_000_000_000)
    requires j < |s| && (agent == "" || s[j].agentID == agent)
    ensures (1 + s[i].accessCount) as real * p.decay(p.now - s[i].lastAccessed)
      <= (1 + s[j].accessCount) as real * p.decay(p.now - s[j].lastAccessed)
  {
    assert Candidate(s[j], agent) && Candidate(s[i], agent);
    assert !Stale(p, s[i]) && !Stale(p, s[j]);
  }

  /** So of candidates accessed at the same time the one with fewer accesses goes. */
  lemma FewerAccessesGoFirst(p: Eviction, s: seq<Entry>, agent: string, i: nat, j: nat)
    requires IsDecay(p.decay) && IsVictim(p, s, agent, i) && AllAccessed(s, agent)
    requires forall k :: 0 <= k < |s| && (agent == "" || s[k].agentID == agent) ==>
      s[k].lastAccessed >= p.now - p.ttlDays * (24 * 3_600_000_000_000)
    requires j < |s| && (agent == "" || s[j].agentID == agent) && s[j].lastAccessed == s[i].lastAccessed
    ensures s[i].accessCount <= s[j].accessCount
  {
    VictimIsUsedLeast(p, s, agent, i, j);
    ScaleReflects((1 + s[i].accessCount) as real, (1 + s[j].accessCount) as real, p.decay(p.now - s[j].lastAccessed));
  }

  lemma ScaleReflects(x: real, y: real, d: real)
    requires x * d <= y * d && d > 0.0
    ensures x <= y
  {
    if x > y {
      PositiveProduct(x - y, d);
    }
  }

  /** A use always raises an entry's score, whether it was stale or not. */
  lemma UseRaisesTheScore(p: Eviction, e: Entry)
    requires IsDecay(p.decay) && Accessed(e) && e.lastAccessed <= p.now && Accessed(e.(lastAccessed := p.now))
    ensures Score(p, e) < Score(p, e.(lastAccessed := p.now, accessCount := e.accessCount + 1))
  {
    var used := e.(lastAccessed := p.now, accessCount := e.accessCount + 1);
    if Stale(p, e) {
      StaleScoresBelowActive(p, e, used);
    } else {
      var more := (1 + used.accessCount) as real;
      ProductOrder((1 + e.accessCount) as real, (1 + e.accessCount) as real, p.decay(p.now - e.lastAccessed), p.decay(0));
      assert more * p.decay(0) == (1 + e.accessCount) as real * p.decay(0) + p.decay(0);
    }
  }

  /** An entry whose access was never recorded counts as accessed when it was created. */
  lemma UnrecordedCountsFromCreation(p: Eviction, e: Entry)
    requires !Accessed(e)
    ensures Score(p, e) == Score(p, e.(lastAccessed := e.createdAt)) && Stale(p, e) == Stale(p, e.(lastAccessed := e.createdAt))
    ensures Accessed(e.(lastAccessed := e.createdAt)) ==> (Stale(p, e) <==> e.createdAt < p.now - p.ttlDays * (24 * 3_600_000_000_000))
  {
  }

  /** A victim there always is, and only one. */
  lemma {:induction false} SomeVictim(p: Eviction, s: seq<Entry>, agent: string) returns (i: nat)
    requires exists j :: 0 <= j < |s| && (agent == "" || s[j].agentID == agent)
    ensures IsVictim(p, s, agent, i)
  {
    var n := |s| - 1;
    var t := s[..n];
    assert forall k :: 0 <= k < n ==> t[k] == s[k];
    if exists j :: 0 <= j < n && (agent == "" || s[j].agentID == agent) {
      var j :| 0 <= j < n && (agent == "" || s[j].agentID == agent);
      assert t[j] == s[j];
      i := SomeVictim(p, t, agent);
      if Candidate(s[n], agent) && Score(p, s[n]) < Score(p, s[i]) {
        i := n;
      }
    } else {
      i := n;
    }
  }

  lemma VictimIsUnique(p: Eviction, s: seq<Entry>, agent: string, i: nat, j: nat)
    requires IsVictim(p, s, agent, i) && IsVictim(p, s, agent, j)
    ensures i == j
  {
  }

  /** With no candidate the entry created first goes, of all agents. */
  lemma FallbackEvictsTheOldest(p: Eviction, s: seq<Entry>, agent: string, s': seq<Entry>)
    requires Evicted(p, s, agent, s') && s != [] && agent != "" && forall j :: 0 <= j < |s| ==> s[j].agentID != agent
    ensures exists i: nat :: i < |s| && s' == s[..i] + s[i + 1..] && forall j :: 0 <= j < |s| ==> s[i].createdAt <= s[j].createdAt
  {
    assert !HasCandidate(s, agent);
    var i: nat :| IsOldest(s, i) && s' == RemoveAt(s, i);
    assert s' == s[..i] + s[i + 1..];
  }

  // ---- Storing a new entry ----

  /** Whose entries are considered when the store is full. */
  function EvictionScope(s: seq<Entry>, maxEntries: nat, agent: string): string {
    if Count(s, agent) >= Quota(s, maxEntries) then agent else ""
  }

  /** s' is s after appending the new entry, making room first if the store is full. */
  ghost predicate Appended(p: Eviction, s: seq<Entry>, maxEntries: nat, e: Entry, s': seq<Entry>) {
    if |s| >= maxEntries then
      exists room :: Evicted(p, s, EvictionScope(s, maxEntries, e.agentID), room) && s' == room + [e]
    else s' == s + [e]
  }

  /**
   The quotas share the store out fairly: all agents' quotas together fit into it, and leave less than one
   entry for each of them over, unless the guaranteed hundred is more than that share.
   */
  lemma QuotasShareTheStore(s: seq<Entry>, maxEntries: nat)
    requires s != []
    ensures var agents := |set e | e in s :: e.agentID|;
      && agents > 0 && Quota(s, maxEntries) >= 100
      && (maxEntries >= agents * 100 ==> agents * Quota(s, maxEntries) <= maxEntries < agents * Quota(s, maxEntries) + agents)
      && (maxEntries < agents * 100 ==> Quota(s, maxEntries) == 100)
  {
    assert s[0].agentID in Agents(s);
    ShareOfStore(|Agents(s)|, maxEntries);
  }

  lemma ShareOfStore(n: nat, maxEntries: nat)
    requires n > 0
    ensures var quota := Max(maxEntries / n, 100);
      && (maxEntries >= n * 100 ==> n * quota <= maxEntries < n * quota + n)
      && (maxEntries < n * 100 ==> quota == 100)
  {
    var share := maxEntries / n;
    assert maxEntries == n * share + maxEntries % n;
    if share >= 100 {
      ScaleNat(100, share, n);
    } else {
      ScaleNat(share + 1, 100, n);
      assert n * (share + 1) == n * share + n;
    }
  }

  lemma ScaleNat(x: nat, y: nat, n: nat)
    requires x <= y
    ensures n * x <= n * y
  {
  }

  lemma EvictedShrinks(p: Eviction, s: seq<Entry>, agent: string, s': seq<Entry>)
    requires Evicted(p, s, agent, s') && s != []
    ensures |s'| == |s| - 1
  {
  }

  /** The store never holds more than its maximum. */
  lemma CapacityIsKept(p: Eviction, s: seq<Entry>, maxEntries: nat, e: Entry, s': seq<Entry>)
    requires Appended(p, s, maxEntries, e, s') && maxEntries >= 1 && |s| <= maxEntries
    ensures 1 <= |s'| <= maxEntries
  {
    if |s| >= maxEntries {
      var room :| Evicted(p, s, EvictionScope(s, maxEntries, e.agentID), room) && s' == room + [e];
      EvictedShrinks(p, s, EvictionScope(s, maxEntries, e.agentID), room);
    }
  }

  lemma {:induction false} CountAppended(s: seq<Entry>, e: Entry, agent: string)
    ensures Count(s + [e], agent) == Count(s, agent) + if e.agentID == agent then 1 else 0
  {
    assert (s + [e])[..|s|] == s;
  }

  /**
   When the store is full, a named agent at or over its quota pays with exactly one of its own
   entries: no agent's count changes.
   */
  lemma {:induction false} AgentOverQuotaPaysItself(p: Eviction, s: seq<Entry>, maxEntries: nat, e: Entry, s': seq<Entry>, agent: string)
    requires Appended(p, s, maxEntries, e, s') && |s| >= maxEntries
    requires e.agentID != "" && Count(s, e.agentID) >= Quota(s, maxEntries)
    ensures Count(s', agent) == Count(s, agent)
    ensures exists i: nat :: i < |s| && s[i].agentID == e.agentID && s' == RemoveAt(s, i) + [e]
  {
    CountPositive(s, e.agentID);
    var own: nat :| own < |s| && s[own].agentID == e.agentID;
    assert Candidate(s[own], e.agentID);
    var room :| Evicted(p, s, e.agentID, room) && s' == room + [e];
    var i: nat :| IsVictim(p, s, e.agentID, i) && room == RemoveAt(s, i);
    CountRemoved(s, i, agent);
    CountAppended(room, e, agent);
  }

  /** A store at capacity never takes an agent above both its old count and its quota. */
  lemma {:induction false} QuotaLimitsGrowth(p: Eviction, s: seq<Entry>, maxEntries: nat, e: Entry, s': seq<Entry>, agent: string)
    requires Appended(p, s, maxEntries, e, s') && |s| >= maxEntries && agent != ""
    ensures Count(s', agent) <= Max(Count(s, agent), Quota(s, maxEntries))
  {
    if e.agentID == agent && Count(s, agent) >= Quota(s, maxEntries) {
      AgentOverQuotaPaysItself(p, s, maxEntries, e, s', agent);
    } else {
      EvictionNeverAdds(p, s, maxEntries, e, s', agent);
    }
  }

  lemma {:induction false} EvictionNeverAdds(p: Eviction, s: seq<Entry>, maxEntries: nat, e: Entry, s': seq<Entry>, agent: string)
    requires Appended(p, s, maxEntries, e, s') && |s| >= maxEntries
    ensures Count(s', agent) <= Count(s, agent) + if e.agentID == agent then 1 else 0
  {
    var scope := EvictionScope(s, maxEntries, e.agentID);
    var room :| Evicted(p, s, scope, room) && s' == room + [e];
    CountAppended(room, e, agent);
    if s != [] {
      if HasCandidate(s, scope) {
        var i: nat :| IsVictim(p, s, scope, i) && room == RemoveAt(s, i);
        CountRemoved(s, i, agent);
      } else {
        var i: nat :| IsOldest(s, i) && room == RemoveAt(s, i);
        CountRemoved(s, i, agent);
      }
    }
  }

  /** An agent under quota displaces at most one entry, of whatever agent, and gains one. */
  lemma {:induction false} AgentUnderQuotaDisplacesOne(p: Eviction, s: seq<Entry>, maxEntries: nat, e: Entry, s': seq<Entry>)
    requires Appended(p, s, maxEntries, e, s') && |s| >= maxEntries >= 1 && Count(s, e.agentID) < Quota(s, maxEntries)
    ensures exists i: nat :: IsVictim(p, s, "", i) && s' == RemoveAt(s, i) + [e]
  {
    var room :| Evicted(p, s, "", room) && s' == room + [e];
    assert Candidate(s[0], "");
  }

  // ---- Runs ----

  /** What searches and conflict updates may change: nothing of an entry's identity. */
  ghost predicate SameEntries(s: seq<Entry>, s': seq<Entry>) {
    |s| == |s'| && forall i :: 0 <= i < |s| ==> s'[i].id == s[i].id && s'[i].agentID == s[i].agentID && s'[i].createdAt == s[i].createdAt
  }

  /** One operation: a new entry, a touch or an update in place, or a deletion. */
  ghost predicate Operation(s: seq<Entry>, maxEntries: nat, s': seq<Entry>) {
    || (exists p, e :: Appended(p, s, maxEntries, e, s'))
    || SameEntries(s, s')
    || |s'| < |s|
  }

  /** At every reachable state the store holds at most its maximum. */
  lemma {:induction false} EveryRunKeepsCapacity(states: seq<seq<Entry>>, maxEntries: nat, i: nat)
    requires maxEntries >= 1 && i < |states| && |states[0]| <= maxEntries
    requires forall k :: 0 <= k < |states| - 1 ==> Operation(states[k], maxEntries, states[k + 1])
    ensures |states[i]| <= maxEntries
    decreases i
  {
    if i > 0 {
      EveryRunKeepsCapacity(states, maxEntries, i - 1);
      var s, s' := states[i - 1], states[i - 1 + 1];
      assert Operation(s, maxEntries, s');
      if exists p, e :: Appended(p, s, maxEntries, e, s') {
        var p, e :| Appended(p, s, maxEntries, e, s');
        CapacityIsKept(p, s, maxEntries, e, s');
      }
    }
  }
}
