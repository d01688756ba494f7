/**
 The memory store object: a list of entry objects that is appended to and spliced, and whose entries
 are touched and overwritten in place.
 */
module MemoryStore {
  import opened Similarity
  import opened MemoryModel
  import opened MemoryRanking
  import opened MemoryConflicts

  class MemoryEntry {
    const id: int
    const agentID: string
    const createdAt: int
    var fact: string
    var vector: Dense
    var sparse: Sparse
    var lastAccessed: int
    var accessCount: nat
    var updatedAt: int

    function View(): Entry
      reads this
    {
      Entry(id, agentID, fact, vector, sparse, createdAt, lastAccessed, accessCount, updatedAt)
    }

    constructor (e: Entry)
      ensures View() == e
    {
      id, agentID, createdAt := e.id, e.agentID, e.createdAt;
      fact, vector, sparse := e.fact, e.vector, e.sparse;
      lastAccessed, accessCount, updatedAt := e.lastAccessed, e.accessCount, e.updatedAt;
    }
  }

  /** One hit of a search: counted once, whatever the number of lines that named it. */
  function Touched(e: Entry, now: int): Entry { e.(lastAccessed := now, accessCount := e.accessCount + 1) }

  function Rewritten(e: Entry, f: Fact, now: int): Entry {
    e.(fact := f.text, vector := f.query.dense, sparse := f.query.sparse, updatedAt := now)
  }

  ghost function Views(es: seq<MemoryEntry>): (s: seq<Entry>)
    reads es
    ensures |s| == |es| && forall i :: 0 <= i < |s| ==> s[i] == es[i].View()
  {
    seq(|es|, i requires 0 <= i < |es| reads es => es[i].View())
  }

  class Store {
    var entries: seq<MemoryEntry>
    const maxEntries: nat

    ghost predicate Valid()
      reads this`entries
    {
      |entries| <= maxEntries && 1 <= maxEntries && forall i, j :: 0 <= i < j < |entries| ==> entries[i] != entries[j]
    }

    ghost function View(): (s: seq<Entry>)
      reads this`entries, entries
      ensures |s| == |entries| && forall i :: 0 <= i < |s| ==> s[i] == entries[i].View()
    {
      Views(entries)
    }

    /** A maximum that is not positive is replaced by the default. */
    constructor (maxEntries: int)
      ensures Valid() && View() == [] && this.maxEntries == if maxEntries <= 0 then 10000 else maxEntries
    {
      entries := [];
      this.maxEntries := if maxEntries <= 0 then 10000 else maxEntries;
    }

    method RemoveIndex(i: nat)
      requires Valid() && i < |entries|
      modifies this`entries
      ensures Valid() && View() == RemoveAt(old(View()), i) && entries == RemoveAt(old(entries), i)
    {
      entries := entries[..i] + entries[i + 1..];
    }

    method CountAgentEntries(agent: string) returns (count: nat)
      ensures count == Count(View(), agent)
    {
      count := 0;
      ghost var s := View();
      for i := 0 to |entries|
        invariant count == Count(s[..i], agent) && s == View()
      {
        assert s[..i + 1][..i] == s[..i];
        if entries[i].agentID == agent {
          count := count + 1;
        }
      }
      assert s[..|s|] == s;
    }

    method CountDistinctAgents() returns (n: nat)
      ensures n == |Agents(View())|
    {
      var agents: set<string> := {};
      ghost var s := View();
      for i := 0 to |entries|
        invariant agents == Agents(s[..i]) && s == View()
      {
        assert s[..i + 1] == s[..i] + [s[i]];
        agents := agents + {entries[i].agentID};
      }
      assert s[..|s|] == s;
      n := |agents|;
    }

    /** The eviction scan: the best victim, or -1 without a candidate. */
    method FindVictim(p: Eviction, agent: string) returns (bestIdx: int)
      ensures -1 <= bestIdx < |entries|
      ensures bestIdx >= 0 ==> IsVictim(p, View(), agent, bestIdx)
      ensures bestIdx < 0 <==> !HasCandidate(View(), agent)
    {
      bestIdx := -1;
      var bestScore := 0.0;
      ghost var s := View();
      for i := 0 to |entries|
        invariant -1 <= bestIdx < i && s == View()
        invariant bestIdx < 0 ==> forall j :: 0 <= j < i ==> !Candidate(s[j], agent)
        invariant bestIdx >= 0 ==> bestScore == Score(p, s[bestIdx]) && IsVictim(p, s[..i], agent, bestIdx)
      {
        var e := entries[i].View();
        if agent != "" && e.agentID != agent {
          VictimStays(p, s, agent, i, bestIdx);
          continue;
        }
        var score := Score(p, e);
        if bestIdx < 0 || score < bestScore {
          NewVictim(p, s, agent, i, bestIdx);
          bestIdx, bestScore := i, score;
        } else {
          VictimStays(p, s, agent, i, bestIdx);
        }
      }
      assert s[..|entries|] == s;
      if bestIdx >= 0 {
        assert Candidate(s[bestIdx], agent);
      }
    }

    method EvictForAgent(p: Eviction, agent: string)
      requires Valid()
      modifies this`entries
      ensures Valid() && Evicted(p, old(View()), agent, View())
      ensures forall e :: e in entries ==> e in old(entries)
    {
      if |entries| == 0 {
        return;
      }
      var bestIdx := FindVictim(p, agent);
      if bestIdx < 0 {
        EvictGlobalOldest();
        return;
      }
      RemoveIndex(bestIdx);
    }

    method FindOldest() returns (oldest: nat)
      requires |entries| > 0
      ensures IsOldest(View(), oldest)
    {
      oldest := 0;
      ghost var s := View();
      for i := 0 to |entries|
        invariant 0 <= oldest < |entries| && (i == 0 ==> oldest == 0) && (i > 0 ==> oldest < i)
        invariant forall j :: 0 <= j < i ==> s[oldest].createdAt <= s[j].createdAt
        invariant forall j :: 0 <= j < oldest ==> s[oldest].createdAt < s[j].createdAt
        invariant s == View()
      {
        if entries[i].createdAt < entries[oldest].createdAt {
          oldest := i;
        }
      }
    }

    method EvictGlobalOldest()
      requires Valid() && |entries| > 0
      modifies this`entries
      ensures Valid() && exists i: nat :: IsOldest(old(View()), i) && View() == RemoveAt(old(View()), i)
      ensures forall e :: e in entries ==> e in old(entries)
    {
      var oldest := FindOldest();
      RemoveIndex(oldest);
    }

    /** Evict one entry: one of the agent's own if it has used up its share, else the best victim of all. */
    method MakeRoom(p: Eviction, agent: string)
      requires Valid()
      modifies this`entries
      ensures Valid() && Evicted(p, old(View()), EvictionScope(old(View()), maxEntries, agent), View())
      ensures forall e :: e in entries ==> e in old(entries)
    {
      var agentCount := CountAgentEntries(agent);
      var numAgents := CountDistinctAgents();
      var perAgentQuota: int := maxEntries / Max(numAgents, 1);
      if perAgentQuota < 100 {
        perAgentQuota := 100;
      }
      assert perAgentQuota == Quota(View(), maxEntries);
      if agentCount >= perAgentQuota {
        EvictForAgent(p, agent);
      } else {
        EvictForAgent(p, "");
      }
    }

    /** The write-locked part of storing a fact. */
    method Append(p: Eviction, e: MemoryEntry)
      requires Valid() && e !in entries
      modifies this`entries
      ensures Valid() && Appended(p, old(View()), maxEntries, e.View(), View())
    {
      ghost var s := View();
      if |entries| >= maxEntries {
        MakeRoom(p, e.agentID);
        EvictedShrinks(p, s, EvictionScope(s, maxEntries, e.agentID), View());
      }
      AddLast(e);
    }

    method AddLast(e: MemoryEntry)
      requires Valid() && e !in entries && |entries| < maxEntries
      modifies this`entries
      ensures Valid() && View() == old(View()) + [e.View()] && e.View() == old(e.View())
    {
      entries := entries + [e];
    }

    /** Store a fact: skip it, overwrite the entry it updates, or append it. `id` comes from the database. */
    method StoreFact(f: Fact, p: Eviction, id: int, now: int) returns (ghost decision: Decision)
      requires Valid() && IsSqrt(f.query.sqrt)
      modifies this`entries, entries
      ensures Valid() && Decides(f, old(View()), decision)
      ensures decision.Skip? ==> View() == old(View())
      ensures decision.Replace? ==> decision.index < old(|entries|)
      ensures decision.Replace? ==>
        View() == old(View())[decision.index := Rewritten(old(View())[decision.index], f, now)]
      ensures decision.StoreNew? ==> Appended(p, old(View()), maxEntries, EntryOf(f, id, now), View())
    {
      ghost var s := View();
      for i := 0 to |entries|
        invariant s == View() == old(View()) && entries == old(entries)
        invariant forall j :: 0 <= j < i ==> !Similar(f, s[j])
      {
        var e := entries[i];
        if e.agentID == f.query.agent {
          var sim := HybridSimilarity(f.query.sqrt, f.query.weight, f.query.dense, f.query.sparse, e.vector, e.sparse);
          assert sim == Sim(f.query, s[i]);
          if sim > IDENTICAL {
            assert IsFirstSimilar(f, s, i) && Skip == DecideAt(f, s, i);
            return Skip;
          }
          if sim > f.conflictThresh {
            assert IsFirstSimilar(f, s, i);
            if f.supersedes(f.text, e.fact) {
              assert Replace(i) == DecideAt(f, s, i);
              Overwrite(i, f, now);
              return Replace(i);
            }
            assert Skip == DecideAt(f, s, i);
            return Skip;
          }
        }
      }
      var entry := new MemoryEntry(EntryOf(f, id, now));
      assert View() == s;
      Append(p, entry);
      return StoreNew;
    }

    method Overwrite(i: nat, f: Fact, now: int)
      requires Valid() && i < |entries|
      modifies entries[i]
      ensures View() == old(View())[i := Rewritten(old(View())[i], f, now)]
    {
      var e := entries[i];
      e.fact, e.vector, e.sparse, e.updatedAt := f.text, f.query.dense, f.query.sparse, now;
    }

    /** Mark every entry whose id was returned by a search. */
    method Touch(ids: seq<int>, now: int)
      requires Valid()
      modifies entries
      ensures |View()| == |old(View())|
      ensures forall i :: 0 <= i < |View()| ==>
        View()[i] == if old(View())[i].id in ids
          then old(View())[i].(lastAccessed := now, accessCount := old(View())[i].accessCount + 1) else old(View())[i]
    {
      for k := 0 to |entries|
        invariant entries == old(entries)
        invariant forall i :: 0 <= i < k ==>
          entries[i].View() == if old(entries[i].View()).id in ids then Touched(old(entries[i].View()), now) else old(entries[i].View())
        invariant forall i :: k <= i < |entries| ==> entries[i].View() == old(entries[i].View())
      {
        if entries[k].id in ids {
          entries[k].lastAccessed := now;
          entries[k].accessCount := entries[k].accessCount + 1;
        }
      }
    }
  }

  lemma VictimStays(p: Eviction, s: seq<Entry>, agent: string, i: nat, best: int)
    requires i < |s| && -1 <= best < i
    requires best >= 0 ==> IsVictim(p, s[..i], agent, best)
    requires !Candidate(s[i], agent) || (best >= 0 && Score(p, s[best]) <= Score(p, s[i]))
    ensures best >= 0 ==> IsVictim(p, s[..i + 1], agent, best)
  {
    assert forall j :: 0 <= j < i ==> s[..i][j] == s[j] == s[..i + 1][j];
  }

  lemma NewVictim(p: Eviction, s: seq<Entry>, agent: string, i: nat, best: int)
    requires i < |s| && -1 <= best < i && Candidate(s[i], agent)
    requires best >= 0 ==> IsVictim(p, s[..i], agent, best) && Score(p, s[i]) < Score(p, s[best])
    requires best < 0 ==> forall j :: 0 <= j < i ==> !Candidate(s[j], agent)
    ensures IsVictim(p, s[..i + 1], agent, i)
  {
    assert forall j :: 0 <= j < i ==> s[..i + 1][j] == s[j];
    if best >= 0 {
      assert forall j :: 0 <= j < i ==> s[..i][j] == s[j];
    }
  }
}
