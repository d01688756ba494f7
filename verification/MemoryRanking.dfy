/**
 Ranking of search results (memory/memory.go): in-scope entries above the similarity threshold, sorted
 by recency-weighted score with an insertion sort, cut to a limit, and possibly reordered by an external
 reranker whose answer is arbitrary.
 */
module MemoryRanking {
  import opened Wrappers
  import opened Similarity
  import opened MemoryModel

  /** A scored entry; `pos` is the entry's position in the store. */
  datatype Match = Match(pos: nat, sim: real, score: real)

  /** Higher score first; equal scores keep the order of the store. */
  predicate Before(a: Match, b: Match) { a.score > b.score || (a.score == b.score && a.pos < b.pos) }

  predicate Ranked(s: seq<Match>) { forall i, j :: 0 <= i < j < |s| ==> Before(s[i], s[j]) }

  predicate InStoreOrder(s: seq<Match>) { forall i, j :: 0 <= i < j < |s| ==> s[i].pos < s[j].pos }

  // ---- The insertion sort ----

  /** Where the inner loop stops: everything behind is strictly lower. */
  function Slot(s: seq<Match>, x: Match, j: nat): (r: nat)
    requires j <= |s|
    ensures r <= j
    ensures forall k :: r <= k < j ==> s[k].score < x.score
    ensures r > 0 ==> s[r - 1].score >= x.score
  {
    if j > 0 && x.score > s[j - 1].score then Slot(s, x, j - 1) else j
  }

  function Insert(s: seq<Match>, x: Match): (r: seq<Match>)
    ensures |r| == |s| + 1
  {
    var j := Slot(s, x, |s|);
    s[..j] + [x] + s[j..]
  }

  function Sorted(s: seq<Match>): (r: seq<Match>)
    ensures |r| == |s|
  {
    if s == [] then [] else Insert(Sorted(s[..|s| - 1]), s[|s| - 1])
  }

  /** `done` with x put in at j, and the part not yet looked at. */
  function Placed(done: seq<Match>, x: Match, j: nat, rest: seq<Match>): seq<Match>
    requires j <= |done|
  {
    done[..j] + [x] + done[j..] + rest
  }

  lemma NextIsLast(s: seq<Match>, i: nat, m: seq<Match>)
    requires i < |s| && m == Sorted(s[..i]) + s[i..]
    ensures |m| == |s| && m[i] == s[i] && m == Placed(Sorted(s[..i]), s[i], i, s[i + 1..])
  {
  }

  lemma {:induction false} SortedNext(s: seq<Match>, i: nat)
    requires i < |s|
    ensures Sorted(s[..i + 1]) == Insert(Sorted(s[..i]), s[i])
  {
    assert s[..i + 1][..i] == s[..i];
  }

  method InsertionSort(s: seq<Match>) returns (m: seq<Match>)
    ensures m == Sorted(s)
  {
    m := s;
    if |s| == 0 {
      return;
    }
    assert s[..1][..0] == [] && Sorted(s[..1]) == [s[0]] == s[..1];
    assert s == s[..1] + s[1..];
    for i := 1 to |s|
      invariant |m| == |s| && m == Sorted(s[..i]) + s[i..]
    {
      NextIsLast(s, i, m);
      SortedNext(s, i);
      m := SiftLeft(m, i, Sorted(s[..i]), s[i + 1..]);
    }
    assert s[..|s|] == s && s[|s|..] == [];
  }

  /** The inner loop: swap the i-th match to the left while it outscores its neighbour. */
  method SiftLeft(m0: seq<Match>, i: nat, ghost done: seq<Match>, ghost rest: seq<Match>) returns (m: seq<Match>)
    requires i == |done| < |m0| && m0 == Placed(done, m0[i], i, rest)
    ensures m == Insert(done, m0[i]) + rest
  {
    m := m0;
    ghost var x := m0[i];
    var j := i;
    while j > 0 && m[j].score > m[j - 1].score
      invariant 0 <= j <= i && m == Placed(done, x, j, rest)
      invariant Slot(done, x, i) == Slot(done, x, j)
      decreases j
    {
      var lower, higher := m[j - 1], m[j];
      m := m[j := lower][j - 1 := higher];
      Shifted(done, x, j, rest, m);
      j := j - 1;
    }
  }

  /** Swapping x with its left neighbour moves x one place to the left. */
  lemma Shifted(done: seq<Match>, x: Match, j: nat, rest: seq<Match>, m: seq<Match>)
    requires 0 < j <= |done|
    requires m == Placed(done, x, j, rest)[j := done[j - 1]][j - 1 := x]
    ensures m == Placed(done, x, j - 1, rest)
  {
  }

  lemma InsertRanked(s: seq<Match>, x: Match)
    requires Ranked(s) && forall k :: 0 <= k < |s| ==> s[k].pos < x.pos
    ensures Ranked(Insert(s, x))
  {
    var j := Slot(s, x, |s|);
    var r := Insert(s, x);
    forall a, b | 0 <= a < b < |r| ensures Before(r[a], r[b]) {
      if a < j && b == j {
        assert r[a] == s[a] && s[j - 1].score >= x.score;
        assert a == j - 1 || Before(s[a], s[j - 1]);
      }
    }
  }

  lemma InsertMultiset(s: seq<Match>, x: Match)
    ensures multiset(Insert(s, x)) == multiset(s) + multiset{x}
  {
    var j := Slot(s, x, |s|);
    assert s == s[..j] + s[j..];
  }

  lemma {:induction false} SortMultiset(s: seq<Match>)
    ensures multiset(Sorted(s)) == multiset(s)
  {
    if s != [] {
      var init, x := s[..|s| - 1], s[|s| - 1];
      SortMultiset(init);
      InsertMultiset(Sorted(init), x);
      assert s == init + [x];
    }
  }

  lemma {:induction false} SortedMember(s: seq<Match>, k: nat)
    requires k < |Sorted(s)|
    ensures Sorted(s)[k] in s
  {
    SortMultiset(s);
    assert Sorted(s)[k] in multiset(Sorted(s));
    assert Sorted(s)[k] in multiset(s);
  }

  /** The sort returns the same matches, ranked: it is stable, and no other result would be. */
  lemma {:induction false} SortRanks(s: seq<Match>)
    requires InStoreOrder(s)
    ensures Ranked(Sorted(s)) && multiset(Sorted(s)) == multiset(s)
  {
    SortMultiset(s);
    if s != [] {
      var init, x := s[..|s| - 1], s[|s| - 1];
      SortRanks(init);
      forall k | 0 <= k < |Sorted(init)| ensures Sorted(init)[k].pos < x.pos {
        SortedMember(init, k);
      }
      InsertRanked(Sorted(init), x);
    }
  }

  lemma SameHead(s: seq<Match>, t: seq<Match>)
    requires Ranked(s) && Ranked(t) && multiset(s) == multiset(t) && s != []
    ensures t != [] && s[0] == t[0]
  {
    assert s[0] in multiset(t);
    assert |multiset(t)| > 0;
    assert t[0] in multiset(s);
    var i :| 0 <= i < |s| && s[i] == t[0];
    var j :| 0 <= j < |t| && t[j] == s[0];
    assert i > 0 ==> Before(s[0], t[0]);
    assert j > 0 ==> Before(t[0], s[0]);
  }

  lemma {:induction false} RankingIsUnique(s: seq<Match>, t: seq<Match>)
    requires Ranked(s) && Ranked(t) && multiset(s) == multiset(t)
    ensures s == t
    decreases |s|
  {
    if s == [] {
      assert |multiset(t)| == 0;
    } else {
      SameHead(s, t);
      assert s == [s[0]] + s[1..] && t == [t[0]] + t[1..];
      assert multiset(s[1..]) == multiset(s) - multiset{s[0]};
      assert multiset(t[1..]) == multiset(t) - multiset{t[0]};
      RankingIsUnique(s[1..], t[1..]);
    }
  }

  // ---- Candidates ----

  datatype Query = Query(sqrt: real -> real, weight: real, dense: Dense, sparse: Sparse, agent: string,
                         threshold: real, fade: int -> real, now: int)

  ghost function Sim(q: Query, e: Entry): real {
    Hybrid(q.sqrt, q.weight, q.dense, q.sparse, e.vector, e.sparse)
  }

  /** Age counts from creation and never below zero. */
  function Age(q: Query, e: Entry): int { Max(q.now - e.createdAt, 0) }

  ghost function MatchOf(q: Query, e: Entry, pos: nat): Match {
    Match(pos, Sim(q, e), Sim(q, e) * q.fade(Age(q, e)))
  }

  ghost predicate Qualifies(q: Query, e: Entry) { Candidate(e, q.agent) && Sim(q, e) >= q.threshold }

  ghost function Qualifying(q: Query, s: seq<Entry>): (r: seq<Match>)
    ensures forall k :: 0 <= k < |r| ==> r[k].pos < |s|
  {
    if s == [] then []
    else
      var e := s[|s| - 1];
      Qualifying(q, s[..|s| - 1]) + if Qualifies(q, e) then [MatchOf(q, e, |s| - 1)] else []
  }

  lemma {:induction false} QualifyingFacts(q: Query, s: seq<Entry>)
    ensures InStoreOrder(Qualifying(q, s))
    ensures forall m :: m in Qualifying(q, s) <==> m.pos < |s| && Qualifies(q, s[m.pos]) && m == MatchOf(q, s[m.pos], m.pos)
  {
    if s != [] {
      QualifyingFacts(q, s[..|s| - 1]);
      var init := Qualifying(q, s[..|s| - 1]);
      forall m ensures m in Qualifying(q, s) <==> m.pos < |s| && Qualifies(q, s[m.pos]) && m == MatchOf(q, s[m.pos], m.pos) {
        if m.pos < |s| - 1 {
          assert s[..|s| - 1][m.pos] == s[m.pos];
        }
      }
    }
  }

  function Take(s: seq<Match>, limit: nat): seq<Match> { if |s| > limit then s[..limit] else s }

  ghost function Best(q: Query, s: seq<Entry>, limit: nat): seq<Match> { Take(Sorted(Qualifying(q, s)), limit) }

  lemma TakeRanked(sorted: seq<Match>, limit: nat, x: Match, k: nat)
    requires Ranked(sorted) && x in sorted && x !in Take(sorted, limit) && k < |Take(sorted, limit)|
    ensures Before(Take(sorted, limit)[k], x)
  {
    var n :| 0 <= n < |sorted| && sorted[n] == x;
    assert forall y :: 0 <= y < |Take(sorted, limit)| ==> Take(sorted, limit)[y] == sorted[y] && sorted[y] != x;
  }

  lemma {:induction false} SortedMembers(s: seq<Match>)
    requires InStoreOrder(s)
    ensures forall m :: m in Sorted(s) <==> m in s
  {
    SortRanks(s);
    forall m ensures m in Sorted(s) <==> m in s {
      assert m in Sorted(s) <==> m in multiset(Sorted(s));
      assert m in s <==> m in multiset(s);
    }
  }

  /** A qualifying entry of the store, at its position. */
  ghost predicate IsHit(q: Query, s: seq<Entry>, m: Match) {
    m.pos < |s| && Qualifies(q, s[m.pos]) && m == MatchOf(q, s[m.pos], m.pos)
  }

  /**
   The result holds distinct qualifying entries, best first, as many as the limit allows, and no
   qualifying entry left out outranks one that was kept.
   */
  lemma {:induction false} BestIsExact(q: Query, s: seq<Entry>, limit: nat)
    ensures var r := Best(q, s, limit);
      && Ranked(r) && |r| == (if |Qualifying(q, s)| < limit then |Qualifying(q, s)| else limit)
      && (forall m :: m in r ==> IsHit(q, s, m))
      && (forall m, k :: IsHit(q, s, m) && m !in r && 0 <= k < |r| ==> Before(r[k], m))
  {
    var sorted := Sorted(Qualifying(q, s));
    var r := Best(q, s, limit);
    QualifyingFacts(q, s);
    SortRanks(Qualifying(q, s));
    SortedMembers(Qualifying(q, s));
    forall m | m in r ensures IsHit(q, s, m) {
      assert m in sorted;
    }
    forall m, k | IsHit(q, s, m) && m !in r && 0 <= k < |r| ensures Before(r[k], m) {
      TakeRanked(sorted, limit, m, k);
    }
  }

  lemma {:induction false} QualifyingNext(q: Query, s: seq<Entry>, i: nat)
    requires i < |s|
    ensures Qualifies(q, s[i]) ==> Qualifying(q, s[..i + 1]) == Qualifying(q, s[..i]) + [MatchOf(q, s[i], i)]
    ensures !Qualifies(q, s[i]) ==> Qualifying(q, s[..i + 1]) == Qualifying(q, s[..i])
  {
    var t := s[..i + 1];
    assert t[..|t| - 1] == s[..i] && t[|t| - 1] == s[i];
  }

  /** The decayed score of one candidate. */
  method ScoreOne(q: Query, e: Entry, i: nat, sim: real) returns (m: Match)
    requires sim == Sim(q, e)
    ensures m == MatchOf(q, e, i)
  {
    var age := q.now - e.createdAt;
    if age < 0 {
      age := 0;
    }
    m := Match(i, sim, sim * q.fade(age));
  }

  method ScoreCandidates(q: Query, s: seq<Entry>, limit: nat) returns (r: seq<Match>)
    requires IsSqrt(q.sqrt)
    ensures r == Best(q, s, limit)
  {
    var matches: seq<Match> := [];
    for i := 0 to |s|
      invariant matches == Qualifying(q, s[..i])
    {
      var e := s[i];
      QualifyingNext(q, s, i);
      if q.agent != "" && e.agentID != q.agent {
        continue;
      }
      var sim := HybridSimilarity(q.sqrt, q.weight, q.dense, q.sparse, e.vector, e.sparse);
      if sim >= q.threshold {
        var m := ScoreOne(q, e, i, sim);
        matches := matches + [m];
      }
    }
    assert s[..|s|] == s;
    matches := InsertionSort(matches);
    if |matches| > limit {
      matches := matches[..limit];
    }
    return matches;
  }

  /** What the sort goes by: the similarity, faded by the entry's age, which counts from creation and not below zero. */
  ghost function FadedSim(q: Query, e: Entry): real {
    Hybrid(q.sqrt, q.weight, q.dense, q.sparse, e.vector, e.sparse) * q.fade(if q.now < e.createdAt then 0 else q.now - e.createdAt)
  }

  /** The entry is in scope and similar enough. */
  ghost predicate Matches(q: Query, e: Entry) {
    && (q.agent == "" || e.agentID == q.agent)
    && Hybrid(q.sqrt, q.weight, q.dense, q.sparse, e.vector, e.sparse) >= q.threshold
  }

  /** A match says what its entry is worth. */
  ghost predicate SaysWhatItIs(q: Query, s: seq<Entry>, m: Match) {
    && m.pos < |s| && Matches(q, s[m.pos])
    && m.sim == Hybrid(q.sqrt, q.weight, q.dense, q.sparse, s[m.pos].vector, s[m.pos].sparse)
    && m.score == FadedSim(q, s[m.pos])
  }

  lemma HitSaysWhatItIs(q: Query, s: seq<Entry>, m: Match)
    ensures IsHit(q, s, m) <==> SaysWhatItIs(q, s, m)
  {
    if m.pos < |s| {
      ScoredByFadedSim(q, s[m.pos], m.pos);
    }
  }

  lemma ScoredByFadedSim(q: Query, e: Entry, pos: nat)
    ensures Qualifies(q, e) <==> Matches(q, e)
    ensures MatchOf(q, e, pos) == Match(pos, Hybrid(q.sqrt, q.weight, q.dense, q.sparse, e.vector, e.sparse), FadedSim(q, e))
  {
  }

  /** An entry that is not returned is not better than any that is, and then the limit is reached. */
  ghost predicate ReturnedOrNoBetter(q: Query, s: seq<Entry>, limit: nat, r: seq<Match>, p: nat)
    requires p < |s|
  {
    (exists k :: 0 <= k < |r| && r[k].pos == p) || (|r| == limit && forall k :: 0 <= k < |r| ==> r[k].score >= FadedSim(q, s[p]))
  }

  /**
   The search in terms of the entries: it returns entries that match, with their similarity, by descending
   faded similarity and in store order where that is equal; one that matches is missing only if the limit is
   reached and nothing returned is worse than it.
   */
  lemma {:induction false} SearchReturnsTheBestEntries(q: Query, s: seq<Entry>, limit: nat)
    ensures var r := Best(q, s, limit);
      && |r| <= limit && (forall k :: 0 <= k < |r| ==> SaysWhatItIs(q, s, r[k]))
      && (forall j, k :: 0 <= j < k < |r| ==> r[j].score > r[k].score || (r[j].score == r[k].score && r[j].pos < r[k].pos))
      && (forall p :: 0 <= p < |s| && Matches(q, s[p]) ==> ReturnedOrNoBetter(q, s, limit, r, p))
  {
    BestIsExact(q, s, limit);
    var r := Best(q, s, limit);
    forall k | 0 <= k < |r| ensures SaysWhatItIs(q, s, r[k]) {
      assert r[k] in r;
      HitSaysWhatItIs(q, s, r[k]);
    }
    forall j, k | 0 <= j < k < |r| ensures r[j].score > r[k].score || (r[j].score == r[k].score && r[j].pos < r[k].pos) {
      assert Before(r[j], r[k]);
    }
    forall p | 0 <= p < |s| && Matches(q, s[p]) ensures ReturnedOrNoBetter(q, s, limit, r, p) {
      MissingIsNoBetter(q, s, limit, p);
    }
  }

  lemma {:induction false} MissingIsNoBetter(q: Query, s: seq<Entry>, limit: nat, p: nat)
    requires p < |s| && Matches(q, s[p])
    ensures ReturnedOrNoBetter(q, s, limit, Best(q, s, limit), p)
  {
    var m := MatchOf(q, s[p], p);
    ScoredByFadedSim(q, s[p], p);
    HitSaysWhatItIs(q, s, m);
    var r := Best(q, s, limit);
    if m in r {
      var k :| 0 <= k < |r| && r[k] == m;
      assert r[k].pos == p;
    } else {
      MissingHitIsNoBetter(q, s, limit, m);
    }
  }

  lemma {:induction false} MissingHitIsNoBetter(q: Query, s: seq<Entry>, limit: nat, m: Match)
    requires IsHit(q, s, m) && m !in Best(q, s, limit)
    ensures |Best(q, s, limit)| == limit && forall k :: 0 <= k < |Best(q, s, limit)| ==> Best(q, s, limit)[k].score >= m.score
  {
    BestIsExact(q, s, limit);
    QualifyingFacts(q, s);
    SortedMembers(Qualifying(q, s));
    var r := Best(q, s, limit);
    forall k | 0 <= k < |r| ensures r[k].score >= m.score {
      assert Before(r[k], m);
    }
    assert m in Sorted(Qualifying(q, s));
  }

  // ---- Reranking ----

  /** One line of the reranker's answer; `idNumber` is its id read as a number, if it is one. */
  datatype Rank = Rank(index: int, idNumber: Option<int>, score: real)

  /** The candidate a line refers to: by index, else by id. */
  function Refers(r: Rank, n: nat): (i: Option<nat>)
    ensures i.Some? ==> i.value < n
  {
    if 0 <= r.index < n then Some(r.index)
    else if r.idNumber.Some? && 0 <= r.idNumber.value < n then Some(r.idNumber.value)
    else None
  }

  function Picked(matches: seq<Match>, ranks: seq<Rank>): seq<Match> {
    if ranks == [] then []
    else
      var r := ranks[|ranks| - 1];
      var i := Refers(r, |matches|);
      Picked(matches, ranks[..|ranks| - 1]) + if i.Some? then [matches[i.value].(sim := r.score)] else []
  }

  /** The reranker is absent, fails (None), or answers with any list of lines. */
  method RerankMatches(present: bool, matches: seq<Match>, answer: Option<seq<Rank>>) returns (out: seq<Match>)
    ensures present && |matches| >= 2 && answer.Some? && Picked(matches, answer.value) != [] ==> out == Picked(matches, answer.value)
    ensures !(present && |matches| >= 2 && answer.Some? && Picked(matches, answer.value) != []) ==> out == matches
  {
    if !present || |matches| < 2 {
      return matches;
    }
    if answer.None? || |answer.value| == 0 {
      return matches;
    }
    var ranks := answer.value;
    out := [];
    for k := 0 to |ranks|
      invariant out == Picked(matches, ranks[..k])
    {
      var r := ranks[k];
      assert ranks[..k + 1][..k] == ranks[..k];
      var idx := r.index;
      if idx < 0 || idx >= |matches| {
        if r.idNumber.Some? && 0 <= r.idNumber.value < |matches| {
          idx := r.idNumber.value;
        } else {
          continue;
        }
      }
      out := out + [matches[idx].(sim := r.score)];
    }
    assert ranks[..|ranks|] == ranks;
    if |out| == 0 {
      return matches;
    }
  }

  /** Apart from its new similarity, everything picked is one of the candidates; nothing is invented. */
  lemma {:induction false} PickedAreCandidates(matches: seq<Match>, ranks: seq<Rank>)
    ensures |Picked(matches, ranks)| <= |ranks|
    ensures forall m :: m in Picked(matches, ranks) ==> exists c, r :: c in matches && r in ranks && m == c.(sim := r.score)
  {
    if ranks != [] {
      var init, r := ranks[..|ranks| - 1], ranks[|ranks| - 1];
      PickedAreCandidates(matches, init);
      forall m | m in Picked(matches, ranks) ensures exists c, r :: c in matches && r in ranks && m == c.(sim := r.score) {
        if m in Picked(matches, init) {
          var c, r' :| c in matches && r' in init && m == c.(sim := r'.score);
          assert r' in ranks;
        } else {
          var c := matches[Refers(r, |matches|).value];
          assert c in matches && r in ranks;
        }
      }
    }
  }

  lemma {:induction false} PickedConcat(matches: seq<Match>, a: seq<Rank>, b: seq<Rank>)
    ensures Picked(matches, a + b) == Picked(matches, a) + Picked(matches, b)
    decreases |b|
  {
    if b == [] {
      assert a + b == a;
    } else {
      assert (a + b)[..|a + b| - 1] == a + b[..|b| - 1];
      PickedConcat(matches, a, b[..|b| - 1]);
    }
  }

  /**
   The picks follow the order of the answer, whatever is before and after: a line picks the candidate at its
   index, if there is one, else the one its id names by number, else none, and gives it the line's score.
   */
  lemma {:induction false} PicksFollowTheAnswer(matches: seq<Match>, before: seq<Rank>, r: Rank, after: seq<Rank>)
    ensures Picked(matches, before + [r] + after) == Picked(matches, before)
      + (if 0 <= r.index < |matches| then [matches[r.index].(sim := r.score)]
         else if r.idNumber.Some? && 0 <= r.idNumber.value < |matches| then [matches[r.idNumber.value].(sim := r.score)]
         else [])
      + Picked(matches, after)
  {
    PickedConcat(matches, before + [r], after);
    PickedConcat(matches, before, [r]);
    assert [r][..0] == [];
  }

  /** The candidates come back unchanged exactly when there is nothing usable in the answer. */
  lemma {:induction false} PicksNothingIff(matches: seq<Match>, ranks: seq<Rank>)
    ensures Picked(matches, ranks) == [] <==> forall k :: 0 <= k < |ranks| ==> Refers(ranks[k], |matches|) == None
  {
    if ranks != [] {
      var init := ranks[..|ranks| - 1];
      PicksNothingIff(matches, init);
      assert forall k :: 0 <= k < |init| ==> init[k] == ranks[k];
      if forall k :: 0 <= k < |ranks| ==> Refers(ranks[k], |matches|) == None {
        assert Refers(ranks[|ranks| - 1], |matches|) == None;
      } else if Picked(matches, ranks) == [] {
        assert Refers(ranks[|ranks| - 1], |matches|) == None;
      }
    }
  }

  predicate DistinctPositions(s: seq<Match>) { forall i, j :: 0 <= i < j < |s| ==> s[i].pos != s[j].pos }

  /** The candidates handed to the reranker are different entries. */
  lemma {:induction false} BestPositionsDiffer(q: Query, s: seq<Entry>, limit: nat)
    ensures DistinctPositions(Best(q, s, limit))
  {
    BestIsExact(q, s, limit);
    var r := Best(q, s, limit);
    forall i, j | 0 <= i < j < |r| ensures r[i].pos != r[j].pos {
      assert Before(r[i], r[j]);
      assert r[i] in r && r[j] in r;
      assert IsHit(q, s, r[i]) && IsHit(q, s, r[j]);
    }
  }

  /** How many lines refer to candidate i of n. */
  function Mentions(ranks: seq<Rank>, n: nat, i: nat): nat {
    if ranks == [] then 0
    else Mentions(ranks[..|ranks| - 1], n, i) + if Refers(ranks[|ranks| - 1], n) == Some(i) then 1 else 0
  }

  /** How often the entry at a position is among the matches. */
  function Occurrences(s: seq<Match>, pos: nat): nat {
    if s == [] then 0 else Occurrences(s[..|s| - 1], pos) + if s[|s| - 1].pos == pos then 1 else 0
  }

  lemma {:induction false} OccurrencesPush(s: seq<Match>, m: Match, pos: nat)
    ensures Occurrences(s + [m], pos) == Occurrences(s, pos) + if m.pos == pos then 1 else 0
  {
    assert (s + [m])[..|s|] == s;
  }

  /** A candidate comes back as often as lines refer to it, no more and no less. */
  lemma {:induction false} PickedAsOftenAsMentioned(matches: seq<Match>, ranks: seq<Rank>, i: nat)
    requires DistinctPositions(matches) && i < |matches|
    ensures Occurrences(Picked(matches, ranks), matches[i].pos) == Mentions(ranks, |matches|, i)
  {
    if ranks != [] {
      var init, r := ranks[..|ranks| - 1], ranks[|ranks| - 1];
      PickedAsOftenAsMentioned(matches, init, i);
      var j := Refers(r, |matches|);
      if j.Some? {
        OccurrencesPush(Picked(matches, init), matches[j.value].(sim := r.score), matches[i].pos);
      } else {
        assert Picked(matches, init) + [] == Picked(matches, init);
      }
    }
  }

  lemma {:induction false} OccursIff(s: seq<Match>, pos: nat)
    ensures Occurrences(s, pos) > 0 <==> exists k :: 0 <= k < |s| && s[k].pos == pos
  {
    if s != [] {
      var init := s[..|s| - 1];
      OccursIff(init, pos);
      assert forall k :: 0 <= k < |init| ==> init[k] == s[k];
      assert s[|s| - 1].pos == pos ==> exists k :: 0 <= k < |s| && s[k].pos == pos;
    }
  }

  lemma {:induction false} MentionedIff(ranks: seq<Rank>, n: nat, i: nat)
    ensures Mentions(ranks, n, i) > 0 <==> exists k :: 0 <= k < |ranks| && Refers(ranks[k], n) == Some(i)
  {
    if ranks != [] {
      var init := ranks[..|ranks| - 1];
      MentionedIff(init, n, i);
      assert forall k :: 0 <= k < |init| ==> init[k] == ranks[k];
      assert Refers(ranks[|ranks| - 1], n) == Some(i) ==> exists k :: 0 <= k < |ranks| && Refers(ranks[k], n) == Some(i);
    }
  }

  /** No two lines refer to the same candidate. */
  predicate NoRepeats(ranks: seq<Rank>, n: nat) {
    forall j, k :: 0 <= j < k < |ranks| && Refers(ranks[j], n).Some? ==> Refers(ranks[j], n) != Refers(ranks[k], n)
  }

  lemma NoRepeatsNext(ranks: seq<Rank>, n: nat)
    requires ranks != []
    ensures var init, i := ranks[..|ranks| - 1], Refers(ranks[|ranks| - 1], n);
      NoRepeats(ranks, n) <==> NoRepeats(init, n) && (i.Some? ==> forall k :: 0 <= k < |init| ==> Refers(init[k], n) != i)
  {
    var init, last := ranks[..|ranks| - 1], |ranks| - 1;
    if NoRepeats(ranks, n) {
      forall k | 0 <= k < |init| && Refers(ranks[last], n).Some? ensures Refers(init[k], n) != Refers(ranks[last], n) {
        assert init[k] == ranks[k] && k < last;
      }
    }
  }

  lemma DistinctPush(s: seq<Match>, m: Match)
    ensures DistinctPositions(s + [m]) <==> DistinctPositions(s) && forall k :: 0 <= k < |s| ==> s[k].pos != m.pos
  {
    var t := s + [m];
    if DistinctPositions(t) {
      forall i, j | 0 <= i < j < |s| ensures s[i].pos != s[j].pos { assert t[i] == s[i] && t[j] == s[j]; }
      forall k | 0 <= k < |s| ensures s[k].pos != m.pos { assert t[k] == s[k] && t[|s|] == m; }
    }
  }

  /** So the result lists an entry twice exactly when two lines refer to the same candidate. */
  lemma {:induction false} PicksDistinctIff(matches: seq<Match>, ranks: seq<Rank>)
    requires DistinctPositions(matches)
    ensures DistinctPositions(Picked(matches, ranks)) <==> NoRepeats(ranks, |matches|)
  {
    if ranks != [] {
      var init, i := ranks[..|ranks| - 1], Refers(ranks[|ranks| - 1], |matches|);
      PicksDistinctIff(matches, init);
      NoRepeatsNext(ranks, |matches|);
      if i.Some? {
        DistinctPush(Picked(matches, init), matches[i.value].(sim := ranks[|ranks| - 1].score));
        PickedAsOftenAsMentioned(matches, init, i.value);
        OccursIff(Picked(matches, init), matches[i.value].pos);
        MentionedIff(init, |matches|, i.value);
      } else {
        assert Picked(matches, init) + [] == Picked(matches, init);
      }
    }
  }
}
