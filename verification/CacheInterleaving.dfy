/**
 Lookup is not atomic: it reads the entry in one lock region, looks at its expiry without a lock,
 drops or promotes the key in a second region and counts the outcome after that. Here any number of
 lookups run interleaved with stores, expiry sweeps and flushes, in any order.
 */
module CacheInterleaving {
  import opened Wrappers
  import opened LruOrder
  import opened ResponseCache
  import opened CacheObject

  /** Where a running lookup is. `ptr` is the entry object it got from the map. */
  datatype Phase =
    | Checking(key: string, ptr: nat)
    | Dropping(key: string, ptr: nat)
    | Promoting(key: string, ptr: nat)
    | Counting(key: string, hit: bool)

  /**
   Entries live in `heap` and stay there when the map forgets them; `ptrs` is the entries map, `order` the
   list and `index` the map into the list. `begun`, `lostHits` and `lostMisses` are history: the lookups
   started, and what resets of the two counters threw away.
   */
  datatype State = State(
    order: seq<Element>, ptrs: map<string, nat>, index: map<string, Element>, heap: seq<Entry>,
    running: map<nat, Phase>, begun: nat, hits: nat, misses: nat, lostHits: nat, lostMisses: nat)

  /** A store that inserts pushes `elem`, a new list element. A flush resets each counter in a step of its own. */
  datatype Step =
    | Begin(thread: nat, key: string)
    | Check(thread: nat, now: int)
    | Act(thread: nat)
    | Count(thread: nat)
    | Put(key: string, entry: Entry, elem: Element)
    | Sweep(now: int)
    | Flush
    | ResetHits
    | ResetMisses

  predicate WellFormed(s: State) {
    && (forall k :: k in s.ptrs ==> s.ptrs[k] < |s.heap|)
    && (forall j, k :: j in s.ptrs && k in s.ptrs && j != k ==> s.ptrs[j] != s.ptrs[k])
    && (forall t :: t in s.running && !s.running[t].Counting? ==> s.running[t].ptr < |s.heap|)
  }

  function Contents(ptrs: map<string, nat>, heap: seq<Entry>): map<string, Entry>
    requires forall k :: k in ptrs ==> ptrs[k] < |heap|
  {
    map k | k in ptrs :: heap[ptrs[k]]
  }

  /** The cache as its callers see it between two lock regions. */
  function View(s: State): Cache
    requires WellFormed(s)
  {
    Cache(Values(s.order), Contents(s.ptrs, s.heap))
  }

  predicate Enabled(s: State, step: Step) {
    match step
    case Begin(t, _) => t !in s.running
    case Check(t, _) => t in s.running && s.running[t].Checking?
    case Act(t) => t in s.running && (s.running[t].Dropping? || s.running[t].Promoting?)
    case Count(t) => t in s.running && s.running[t].Counting?
    case Put(k, _, elem) => elem.value == k && elem !in s.order
    case _ => true
  }

  function DropAt(s: State, k: string): State {
    if k in s.index then
      s.(ptrs := s.ptrs - {k}, order := RemoveFrom(s.order, s.index[k]), index := s.index - {k})
    else s.(ptrs := s.ptrs - {k})
  }

  function PromoteAt(s: State, k: string): State {
    if k in s.index then s.(order := [s.index[k]] + RemoveFrom(s.order, s.index[k])) else s
  }

  function EvictAt(s: State): State {
    if s.order == [] then s
    else
      var n := |s.order| - 1;
      var k := s.order[n].value;
      s.(order := s.order[..n], index := s.index - {k}, ptrs := s.ptrs - {k})
  }

  function PutAt(s: State, maxEntries: int, k: string, e: Entry, elem: Element): State
    requires WellFormed(s)
  {
    if k in s.ptrs then
      PromoteAt(s.(heap := s.heap[s.ptrs[k] := Overwrite(s.heap[s.ptrs[k]], e)]), k)
    else
      var room := if |s.ptrs| >= maxEntries then EvictAt(s) else s;
      room.(order := [elem] + room.order, index := room.index[k := elem], ptrs := room.ptrs[k := |s.heap|], heap := s.heap + [e])
  }

  /** The elements that the index holds for these keys. */
  function Elements(index: map<string, Element>, keys: set<string>): set<Element> {
    set k | k in keys && k in index :: index[k]
  }

  function SweepAt(s: State, now: int): State
    requires WellFormed(s)
  {
    var dead := ExpiredKeys(View(s), now);
    s.(ptrs := s.ptrs - dead, order := Without(s.order, Elements(s.index, dead)), index := s.index - dead)
  }

  function Next(s: State, maxEntries: int, step: Step): State
    requires WellFormed(s) && Enabled(s, step)
  {
    match step
    case Begin(t, k) =>
      var p := if k in s.ptrs then Checking(k, s.ptrs[k]) else Counting(k, false);
      s.(running := s.running[t := p], begun := s.begun + 1)
    case Check(t, now) =>
      var p := s.running[t];
      var next := if now > s.heap[p.ptr].expiresAt then Dropping(p.key, p.ptr) else Promoting(p.key, p.ptr);
      s.(running := s.running[t := next])
    case Act(t) =>
      var p := s.running[t];
      var done := s.(running := s.running[t := Counting(p.key, p.Promoting?)]);
      if p.Dropping? then DropAt(done, p.key) else PromoteAt(done, p.key)
    case Count(t) =>
      var done := s.(running := s.running - {t});
      if s.running[t].hit then done.(hits := s.hits + 1) else done.(misses := s.misses + 1)
    case Put(k, e, elem) => PutAt(s, maxEntries, k, e, elem)
    case Sweep(now) => SweepAt(s, now)
    case Flush => s.(order := [], ptrs := map[], index := map[])
    case ResetHits => s.(hits := 0, lostHits := s.lostHits + s.hits)
    case ResetMisses => s.(misses := 0, lostMisses := s.lostMisses + s.misses)
  }

  const INIT := State([], map[], map[], [], map[], 0, 0, 0, 0, 0)

  predicate Possible(s: State, maxEntries: int, steps: seq<Step>)
    requires WellFormed(s)
    decreases |steps|
  {
    steps != [] ==>
      && Enabled(s, steps[0])
      && WellFormed(Next(s, maxEntries, steps[0]))
      && Possible(Next(s, maxEntries, steps[0]), maxEntries, steps[1..])
  }

  /** The state after the first i steps. */
  function StateAt(s: State, maxEntries: int, steps: seq<Step>, i: nat): (r: State)
    requires WellFormed(s) && Possible(s, maxEntries, steps) && i <= |steps|
    ensures WellFormed(r)
    decreases i
  {
    if i == 0 then s else StateAt(Next(s, maxEntries, steps[0]), maxEntries, steps[1..], i - 1)
  }

  function Run(s: State, maxEntries: int, steps: seq<Step>): (r: State)
    requires WellFormed(s) && Possible(s, maxEntries, steps)
    ensures WellFormed(r)
  {
    StateAt(s, maxEntries, steps, |steps|)
  }

  lemma {:induction false} StepAt(s: State, maxEntries: int, steps: seq<Step>, i: nat)
    requires WellFormed(s) && Possible(s, maxEntries, steps) && i < |steps|
    ensures Enabled(StateAt(s, maxEntries, steps, i), steps[i])
    ensures StateAt(s, maxEntries, steps, i + 1) == Next(StateAt(s, maxEntries, steps, i), maxEntries, steps[i])
    decreases i
  {
    if i > 0 {
      StepAt(Next(s, maxEntries, steps[0]), maxEntries, steps[1..], i - 1);
    }
  }

  predicate Follows(s: State, maxEntries: int, step: Step, s': State) {
    WellFormed(s) && Enabled(s, step) && s' == Next(s, maxEntries, step) && WellFormed(s')
  }

  lemma {:induction false} RunChain(maxEntries: int, steps: seq<Step>, states: seq<State>)
    requires |states| == |steps| + 1 && WellFormed(states[0])
    requires forall i :: 0 <= i < |steps| ==> Follows(states[i], maxEntries, steps[i], states[i + 1])
    ensures Possible(states[0], maxEntries, steps)
    ensures Run(states[0], maxEntries, steps) == states[|steps|]
    decreases |steps|
  {
    if steps != [] {
      assert Follows(states[0], maxEntries, steps[0], states[1]);
      RunChain(maxEntries, steps[1..], states[1..]);
    }
  }

  // ---- Each step is one region of the sequential cache ----

  /** Entries, list and index describe the same keys. */
  ghost predicate Consistent(s: State) { WellFormed(s) && Linked(s.ptrs.Keys, s.order, s.index) }

  lemma ContentsWithout(ptrs: map<string, nat>, heap: seq<Entry>, dead: set<string>)
    requires forall k :: k in ptrs ==> ptrs[k] < |heap|
    ensures (ptrs - dead).Keys == ptrs.Keys - dead
    ensures Contents(ptrs - dead, heap) == Contents(ptrs, heap) - dead
  {
  }

  lemma DropRegion(s: State, k: string)
    requires Consistent(s)
    ensures Consistent(DropAt(s, k)) && View(DropAt(s, k)) == Drop(View(s), k)
  {
    ContentsWithout(s.ptrs, s.heap, {k});
    if k in s.index {
      LinkedDrop(s.ptrs.Keys, s.order, s.index, k);
    } else {
      AbsentKey(s.ptrs.Keys, s.order, s.index, k);
      assert s.ptrs - {k} == s.ptrs;
    }
  }

  lemma PromoteRegion(s: State, k: string)
    requires Consistent(s)
    ensures Consistent(PromoteAt(s, k)) && View(PromoteAt(s, k)) == Promote(View(s), k)
  {
    if k in s.index {
      PresentKey(s.ptrs.Keys, s.order, s.index, k);
      LinkedFront(s.ptrs.Keys, s.order, s.index, k);
    } else {
      AbsentKey(s.ptrs.Keys, s.order, s.index, k);
    }
  }

  lemma {:induction false} SweptValues(order: seq<Element>, gone: set<Element>, dead: set<string>)
    requires forall x :: x in order ==> (x in gone <==> x.value in dead)
    ensures Values(Without(order, gone)) == Without(Values(order), dead)
  {
    if order != [] {
      assert order[0] in order;
      assert Values(order)[1..] == Values(order[1..]);
      SweptValues(order[1..], gone, dead);
      ValuesPush(order[0], Without(order[1..], gone));
    }
  }

  lemma {:induction false} LinkedSweep(keys: set<string>, order: seq<Element>, index: map<string, Element>, dead: set<string>)
    requires Linked(keys, order, index)
    ensures var rest := Without(order, Elements(index, dead));
      Values(rest) == Without(Values(order), dead) && Linked(keys - dead, rest, index - dead)
  {
    var gone := Elements(index, dead);
    forall x | x in order ensures x in gone <==> x.value in dead {
      assert index[x.value] == x;
    }
    SweptValues(order, gone, dead);
    WithoutNoDup(Values(order), dead);
  }

  lemma SweepRegion(s: State, now: int)
    requires Consistent(s)
    ensures Consistent(SweepAt(s, now)) && View(SweepAt(s, now)) == EvictExpired(View(s), now)
  {
    var dead := ExpiredKeys(View(s), now);
    ContentsWithout(s.ptrs, s.heap, dead);
    LinkedSweep(s.ptrs.Keys, s.order, s.index, dead);
  }

  lemma EvictRegion(s: State)
    requires Consistent(s)
    ensures Consistent(EvictAt(s)) && View(EvictAt(s)) == EvictLast(View(s))
    ensures EvictAt(s).heap == s.heap && EvictAt(s).ptrs.Keys <= s.ptrs.Keys
    ensures forall x :: x in EvictAt(s).order ==> x in s.order
  {
    if s.order != [] {
      LinkedLast(s.ptrs.Keys, s.order, s.index);
      ContentsWithout(s.ptrs, s.heap, {s.order[|s.order| - 1].value});
    }
  }

  lemma OverwriteRegion(s: State, k: string, e: Entry)
    requires Consistent(s) && k in s.ptrs
    ensures var s1 := s.(heap := s.heap[s.ptrs[k] := Overwrite(s.heap[s.ptrs[k]], e)]);
      Consistent(s1) && View(s1) == View(s).(vals := View(s).vals[k := Overwrite(View(s).vals[k], e)])
  {
  }

  lemma ContentsWith(ptrs: map<string, nat>, heap: seq<Entry>, k: string, e: Entry)
    requires forall j :: j in ptrs ==> ptrs[j] < |heap|
    ensures var ptrs' := ptrs[k := |heap|];
      ptrs'.Keys == ptrs.Keys + {k} && Contents(ptrs', heap + [e]) == Contents(ptrs, heap)[k := e]
  {
  }

  lemma InsertRegion(s: State, k: string, e: Entry, elem: Element)
    requires Consistent(s) && k !in s.ptrs && elem.value == k
    ensures var s1 := s.(order := [elem] + s.order, index := s.index[k := elem], ptrs := s.ptrs[k := |s.heap|], heap := s.heap + [e]);
      Consistent(s1) && View(s1) == Cache([k] + View(s).order, View(s).vals[k := e])
  {
    ContentsWith(s.ptrs, s.heap, k, e);
    LinkedPush(s.ptrs.Keys, s.order, s.index, elem);
  }

  lemma SameSize(s: State)
    requires WellFormed(s)
    ensures View(s).vals.Keys == s.ptrs.Keys && |View(s).vals| == |s.ptrs|
  {
    assert View(s).vals.Keys == s.ptrs.Keys;
    assert |View(s).vals| == |View(s).vals.Keys| == |s.ptrs.Keys| == |s.ptrs|;
  }

  lemma PutRegion(s: State, maxEntries: int, k: string, e: Entry, elem: Element)
    requires Consistent(s) && elem.value == k
    ensures Consistent(PutAt(s, maxEntries, k, e, elem))
    ensures View(PutAt(s, maxEntries, k, e, elem)) == Store(View(s), maxEntries, k, e)
  {
    if k in s.ptrs {
      OverwriteRegion(s, k, e);
      PromoteRegion(s.(heap := s.heap[s.ptrs[k] := Overwrite(s.heap[s.ptrs[k]], e)]), k);
    } else {
      SameSize(s);
      EvictRegion(s);
      InsertRegion(if |s.ptrs| >= maxEntries then EvictAt(s) else s, k, e, elem);
    }
  }

  lemma SameCache(s: State, s': State)
    requires Consistent(s) && s'.order == s.order && s'.ptrs == s.ptrs && s'.index == s.index && s'.heap == s.heap
    requires forall t :: t in s'.running && !s'.running[t].Counting? ==> s'.running[t].ptr < |s.heap|
    ensures Consistent(s') && View(s') == View(s)
  {
  }

  lemma ActRegion(s: State, maxEntries: int, t: nat)
    requires Consistent(s) && Enabled(s, Act(t))
    ensures var s' := Next(s, maxEntries, Act(t)); var p := s.running[t];
      Consistent(s') && View(s') == if p.Dropping? then Drop(View(s), p.key) else Promote(View(s), p.key)
  {
    var p := s.running[t];
    var done := s.(running := s.running[t := Counting(p.key, p.Promoting?)]);
    SameCache(s, done);
    DropRegion(done, p.key);
    PromoteRegion(done, p.key);
  }

  lemma StepsAreRegions(s: State, maxEntries: int, step: Step)
    requires Consistent(s) && Enabled(s, step)
    ensures var s' := Next(s, maxEntries, step);
      && Consistent(s')
      && View(s') ==
         match step
         case Act(t) => (if s.running[t].Dropping? then Drop(View(s), s.running[t].key) else Promote(View(s), s.running[t].key))
         case Put(k, e, _) => Store(View(s), maxEntries, k, e)
         case Sweep(now) => EvictExpired(View(s), now)
         case Flush => EMPTY
         case _ => View(s)
  {
    match step
    case Act(t) => ActRegion(s, maxEntries, t);
    case Put(k, e, elem) => PutRegion(s, maxEntries, k, e, elem);
    case Sweep(now) => SweepRegion(s, now);
    case Flush => assert Values([]) == [];
    case _ => SameCache(s, Next(s, maxEntries, step));
  }

  // ---- Agreement in every reachable state ----

  ghost predicate Inv(s: State, maxEntries: int) { Consistent(s) && |s.order| <= Capacity(maxEntries) }

  lemma InvAgrees(s: State, maxEntries: int)
    requires Inv(s, maxEntries)
    ensures Agrees(View(s)) && Bounded(View(s), maxEntries)
  {
    LinkedKeys(s.ptrs.Keys, s.order, s.index);
    SameSize(s);
  }

  lemma StepKeepsInv(s: State, maxEntries: int, step: Step)
    requires Inv(s, maxEntries) && Enabled(s, step)
    ensures Inv(Next(s, maxEntries, step), maxEntries)
  {
    StepsAreRegions(s, maxEntries, step);
    InvAgrees(s, maxEntries);
    assert |View(Next(s, maxEntries, step)).order| == |Next(s, maxEntries, step).order|;
    var c := View(s);
    match step
    case Act(t) =>
      DropKeeps(c, s.running[t].key);
      PromoteKeeps(c, s.running[t].key);
    case Put(k, e, _) => StoreKeeps(c, maxEntries, k, e);
    case Sweep(now) => EvictExpiredKeeps(c, now);
    case _ =>
  }

  /**
   Under every interleaving, after every step, the entries, the list and the index hold the same keys,
   each once, every key leads to its own list element, and there are no more than the capacity.
   */
  lemma {:induction false} EveryInterleavingAgrees(s: State, maxEntries: int, steps: seq<Step>, i: nat)
    requires Inv(s, maxEntries) && Possible(s, maxEntries, steps) && i <= |steps|
    ensures Inv(StateAt(s, maxEntries, steps, i), maxEntries)
    decreases i
  {
    if i > 0 {
      StepKeepsInv(s, maxEntries, steps[0]);
      EveryInterleavingAgrees(Next(s, maxEntries, steps[0]), maxEntries, steps[1..], i - 1);
    }
  }

  lemma StartAgrees(maxEntries: int)
    ensures Inv(INIT, maxEntries)
  {
  }

  // ---- Counters ----

  ghost predicate Counted(s: State) { s.begun == s.hits + s.lostHits + s.misses + s.lostMisses + |s.running| }

  /** A lookup joins the running ones when it begins and leaves them when it is counted. */
  lemma RunningChange(s: State, maxEntries: int, step: Step)
    requires WellFormed(s) && Enabled(s, step)
    ensures |Next(s, maxEntries, step).running| == |s.running| + (if step.Begin? then 1 else if step.Count? then -1 else 0)
  {
    var running := Next(s, maxEntries, step).running;
    match step
    case Begin(t, k) => OneMore(s.running, t, running[t]);
    case Check(t, _) => Replaced(s.running, t, running[t]);
    case Act(t) => Replaced(s.running, t, running[t]);
    case Count(t) => OneLess(s.running, t);
    case _ =>
  }

  lemma StepIsCounted(s: State, maxEntries: int, step: Step)
    requires WellFormed(s) && Enabled(s, step) && Counted(s)
    ensures Counted(Next(s, maxEntries, step))
  {
    RunningChange(s, maxEntries, step);
  }

  lemma OneMore(m: map<nat, Phase>, t: nat, p: Phase)
    requires t !in m
    ensures |m[t := p]| == |m| + 1
  {
    assert m[t := p].Keys == m.Keys + {t};
  }

  lemma Replaced(m: map<nat, Phase>, t: nat, p: Phase)
    requires t in m
    ensures |m[t := p]| == |m|
  {
    assert m[t := p].Keys == m.Keys;
  }

  lemma OneLess(m: map<nat, Phase>, t: nat)
    requires t in m
    ensures |m - {t}| == |m| - 1
  {
    assert (m - {t}).Keys == m.Keys - {t};
  }

  /** Every lookup ever begun is still running, or one hit or one miss that is counted or was reset. */
  lemma {:induction false} LookupsAreCounted(s: State, maxEntries: int, steps: seq<Step>, i: nat)
    requires WellFormed(s) && Possible(s, maxEntries, steps) && Counted(s) && i <= |steps|
    ensures Counted(StateAt(s, maxEntries, steps, i))
    decreases i
  {
    if i > 0 {
      StepIsCounted(s, maxEntries, steps[0]);
      LookupsAreCounted(Next(s, maxEntries, steps[0]), maxEntries, steps[1..], i - 1);
    }
  }

  // ---- A lookup with nothing in between is the sequential one ----

  function WholeLookup(s: State, t: nat, k: string, now: int): seq<Step> {
    if k in s.ptrs then [Begin(t, k), Check(t, now), Act(t), Count(t)] else [Begin(t, k), Count(t)]
  }

  lemma {:induction false} UndisturbedLookup(s: State, maxEntries: int, t: nat, k: string, now: int)
    requires Inv(s, maxEntries) && t !in s.running
    ensures Possible(s, maxEntries, WholeLookup(s, t, k, now))
    ensures var r := Run(s, maxEntries, WholeLookup(s, t, k, now)); var (c, found) := Lookup(View(s), k, now);
      View(r) == c && r.hits == s.hits + (if found.Some? then 1 else 0) && r.misses == s.misses + (if found.Some? then 0 else 1)
  {
    if k in s.ptrs {
      FoundLookup(s, maxEntries, t, k, now);
    } else {
      var s1 := Next(s, maxEntries, Begin(t, k));
      StepsAreRegions(s, maxEntries, Begin(t, k));
      StepsAreRegions(s1, maxEntries, Count(t));
      RunChain(maxEntries, [Begin(t, k), Count(t)], [s, s1, Next(s1, maxEntries, Count(t))]);
    }
  }

  lemma {:induction false} FoundLookup(s: State, maxEntries: int, t: nat, k: string, now: int)
    requires Inv(s, maxEntries) && t !in s.running && k in s.ptrs
    ensures Possible(s, maxEntries, WholeLookup(s, t, k, now))
    ensures var r := Run(s, maxEntries, WholeLookup(s, t, k, now)); var (c, found) := Lookup(View(s), k, now);
      View(r) == c && r.hits == s.hits + (if found.Some? then 1 else 0) && r.misses == s.misses + (if found.Some? then 0 else 1)
  {
    var s1, s2, s3, s4 := FoundStates(s, maxEntries, t, k, now);
    FourSteps(maxEntries, WholeLookup(s, t, k, now), s, s1, s2, s3, s4);
  }

  lemma {:induction false} FourSteps(maxEntries: int, steps: seq<Step>, s: State, s1: State, s2: State, s3: State, s4: State)
    requires |steps| == 4
    requires Follows(s, maxEntries, steps[0], s1) && Follows(s1, maxEntries, steps[1], s2)
    requires Follows(s2, maxEntries, steps[2], s3) && Follows(s3, maxEntries, steps[3], s4)
    ensures Possible(s, maxEntries, steps) && Run(s, maxEntries, steps) == s4
  {
    RunChain(maxEntries, steps, [s, s1, s2, s3, s4]);
  }

  lemma FoundStates(s: State, maxEntries: int, t: nat, k: string, now: int) returns (s1: State, s2: State, s3: State, s4: State)
    requires Inv(s, maxEntries) && t !in s.running && k in s.ptrs
    ensures Follows(s, maxEntries, Begin(t, k), s1) && Follows(s1, maxEntries, Check(t, now), s2)
    ensures Follows(s2, maxEntries, Act(t), s3) && Follows(s3, maxEntries, Count(t), s4)
    ensures var (c, found) := Lookup(View(s), k, now);
      View(s4) == c && s4.hits == s.hits + (if found.Some? then 1 else 0) && s4.misses == s.misses + (if found.Some? then 0 else 1)
  {
    s1, s2 := BeginAndCheck(s, maxEntries, t, k, now);
    s3, s4 := ActAndCount(s2, maxEntries, t);
  }

  lemma BeginAndCheck(s: State, maxEntries: int, t: nat, k: string, now: int) returns (s1: State, s2: State)
    requires Consistent(s) && t !in s.running && k in s.ptrs
    ensures Follows(s, maxEntries, Begin(t, k), s1) && Follows(s1, maxEntries, Check(t, now), s2)
    ensures Consistent(s2) && View(s2) == View(s) && s2.hits == s.hits && s2.misses == s.misses
    ensures t in s2.running
    ensures s2.running[t] == if now > View(s).vals[k].expiresAt then Dropping(k, s.ptrs[k]) else Promoting(k, s.ptrs[k])
  {
    QuietStep(s, maxEntries, Begin(t, k));
    s1 := Next(s, maxEntries, Begin(t, k));
    QuietStep(s1, maxEntries, Check(t, now));
    s2 := Next(s1, maxEntries, Check(t, now));
  }

  lemma QuietStep(s: State, maxEntries: int, step: Step)
    requires Consistent(s) && Enabled(s, step) && (step.Begin? || step.Check? || step.Count?)
    ensures var s' := Next(s, maxEntries, step);
      && Follows(s, maxEntries, step, s') && Consistent(s') && View(s') == View(s)
      && (!step.Count? ==> s'.hits == s.hits && s'.misses == s.misses)
  {
    SameCache(s, Next(s, maxEntries, step));
  }

  lemma ActAndCount(s: State, maxEntries: int, t: nat) returns (s1: State, s2: State)
    requires Consistent(s) && Enabled(s, Act(t))
    ensures Follows(s, maxEntries, Act(t), s1) && Follows(s1, maxEntries, Count(t), s2)
    ensures var p := s.running[t];
      && View(s2) == (if p.Dropping? then Drop(View(s), p.key) else Promote(View(s), p.key))
      && s2.hits == s.hits + (if p.Dropping? then 0 else 1) && s2.misses == s.misses + (if p.Dropping? then 1 else 0)
  {
    ActRegion(s, maxEntries, t);
    s1 := Next(s, maxEntries, Act(t));
    QuietStep(s1, maxEntries, Count(t));
    s2 := Next(s1, maxEntries, Count(t));
  }

  // ---- What a slow lookup drops ----

  /** The map holds an entry for the key that has not expired at `now`. */
  predicate FreshAt(s: State, k: string, now: int)
    requires WellFormed(s)
  {
    k in s.ptrs && now <= s.heap[s.ptrs[k]].expiresAt
  }

  predicate Stores(step: Step, k: string) { step.Put? && step.key == k }

  /** The step takes the key out: a drop or a flush, a sweep after its expiry, or another key's eviction. */
  predicate Removes(s: State, maxEntries: int, step: Step, k: string)
    requires WellFormed(s)
  {
    k in s.ptrs &&
    match step
    case Act(t) => t in s.running && s.running[t].Dropping? && s.running[t].key == k
    case Sweep(now) => now > s.heap[s.ptrs[k]].expiresAt
    case Flush => true
    case Put(j, _, _) => j !in s.ptrs && |s.ptrs| >= maxEntries && s.order != [] && s.order[|s.order| - 1].value == k
    case _ => false
  }

  predicate Touches(s: State, maxEntries: int, step: Step, k: string)
    requires WellFormed(s)
  {
    Stores(step, k) || Removes(s, maxEntries, step, k)
  }

  lemma EvictElsewhere(s: State, other: string)
    requires WellFormed(s)
    ensures var s' := EvictAt(s);
      && (other in s'.ptrs <==> other in s.ptrs && !(s.order != [] && s.order[|s.order| - 1].value == other))
      && (other in s'.ptrs ==> s'.ptrs[other] == s.ptrs[other]) && s'.heap == s.heap
  {
  }

  lemma PutElsewhere(s: State, maxEntries: int, k: string, e: Entry, elem: Element, other: string)
    requires WellFormed(s) && k != other && WellFormed(PutAt(s, maxEntries, k, e, elem))
    ensures var s' := PutAt(s, maxEntries, k, e, elem);
      && (other in s'.ptrs <==> other in s.ptrs && !Removes(s, maxEntries, Put(k, e, elem), other))
      && (other in s'.ptrs ==> s'.ptrs[other] == s.ptrs[other] && s'.heap[s'.ptrs[other]] == s.heap[s.ptrs[other]])
  {
    if k !in s.ptrs {
      EvictElsewhere(s, other);
    }
  }

  /** A key is fresh after a step if the step stores it so, or if it was and the step leaves it alone. */
  lemma FreshAfterStepIff(s: State, maxEntries: int, step: Step, k: string, now: int)
    requires WellFormed(s) && Enabled(s, step) && WellFormed(Next(s, maxEntries, step))
    ensures FreshAt(Next(s, maxEntries, step), k, now) <==>
      if Stores(step, k) then now <= step.entry.expiresAt else FreshAt(s, k, now) && !Removes(s, maxEntries, step, k)
  {
    if step.Put? && step.key != k {
      PutElsewhere(s, maxEntries, step.key, step.entry, step.elem, k);
    }
  }

  /** None of the steps from i to n touches the key. */
  predicate Untouched(s: State, maxEntries: int, steps: seq<Step>, i: nat, n: nat, k: string)
    requires WellFormed(s) && Possible(s, maxEntries, steps) && n <= |steps|
  {
    forall j :: i <= j < n ==> !Touches(StateAt(s, maxEntries, steps, j), maxEntries, steps[j], k)
  }

  /** Step i stores an entry that has not expired at `now`, and no step after it touches the key. */
  predicate RenewedLastAt(s: State, maxEntries: int, steps: seq<Step>, i: nat, n: nat, k: string, now: int)
    requires WellFormed(s) && Possible(s, maxEntries, steps) && i < n <= |steps|
  {
    Stores(steps[i], k) && now <= steps[i].entry.expiresAt && Untouched(s, maxEntries, steps, i + 1, n, k)
  }

  predicate RenewedLast(s: State, maxEntries: int, steps: seq<Step>, n: nat, k: string, now: int)
    requires WellFormed(s) && Possible(s, maxEntries, steps) && n <= |steps|
  {
    exists i :: 0 <= i < n && RenewedLastAt(s, maxEntries, steps, i, n, k, now)
  }

  lemma UntouchedNext(s: State, maxEntries: int, steps: seq<Step>, i: nat, n: nat, k: string)
    requires WellFormed(s) && Possible(s, maxEntries, steps) && i <= n < |steps|
    ensures Untouched(s, maxEntries, steps, i, n + 1, k) <==>
      Untouched(s, maxEntries, steps, i, n, k) && !Touches(StateAt(s, maxEntries, steps, n), maxEntries, steps[n], k)
  {
  }

  lemma RenewedNext(s: State, maxEntries: int, steps: seq<Step>, n: nat, k: string, now: int)
    requires WellFormed(s) && Possible(s, maxEntries, steps) && n < |steps|
    ensures RenewedLast(s, maxEntries, steps, n + 1, k, now) <==>
      || (Stores(steps[n], k) && now <= steps[n].entry.expiresAt)
      || (RenewedLast(s, maxEntries, steps, n, k, now) && !Touches(StateAt(s, maxEntries, steps, n), maxEntries, steps[n], k))
  {
    var m := n + 1;
    if Stores(steps[n], k) && now <= steps[n].entry.expiresAt {
      assert RenewedLastAt(s, maxEntries, steps, n, m, k, now);
    }
    if i :| 0 <= i < n && RenewedLastAt(s, maxEntries, steps, i, n, k, now) {
      UntouchedNext(s, maxEntries, steps, i + 1, n, k);
      assert !Touches(StateAt(s, maxEntries, steps, n), maxEntries, steps[n], k) ==> RenewedLastAt(s, maxEntries, steps, i, m, k, now);
    }
    if i :| 0 <= i < m && RenewedLastAt(s, maxEntries, steps, i, m, k, now) {
      if i < n {
        UntouchedNext(s, maxEntries, steps, i + 1, n, k);
        assert RenewedLastAt(s, maxEntries, steps, i, n, k, now);
      }
    }
  }

  /**
   After any steps the key is fresh exactly when the last of them that touched it was a store of an entry
   still fresh, or when it was fresh before them and none touched it.
   */
  lemma {:induction false} FreshIffRenewedLast(s: State, maxEntries: int, steps: seq<Step>, n: nat, k: string, now: int)
    requires WellFormed(s) && Possible(s, maxEntries, steps) && n <= |steps|
    ensures FreshAt(StateAt(s, maxEntries, steps, n), k, now) <==>
      RenewedLast(s, maxEntries, steps, n, k, now) || (FreshAt(s, k, now) && Untouched(s, maxEntries, steps, 0, n, k))
    decreases n
  {
    if n > 0 {
      FreshIffRenewedLast(s, maxEntries, steps, n - 1, k, now);
      UntouchedNext(s, maxEntries, steps, 0, n - 1, k);
      RenewedNext(s, maxEntries, steps, n - 1, k, now);
      StepAt(s, maxEntries, steps, n - 1);
      FreshAfterStepIff(StateAt(s, maxEntries, steps, n - 1), maxEntries, steps[n - 1], k, now);
    }
  }

  // ---- What is served ----

  lemma ContentAfterStep(s: State, maxEntries: int, step: Step, k: string)
    requires WellFormed(s) && Enabled(s, step) && WellFormed(Next(s, maxEntries, step))
    ensures var s' := Next(s, maxEntries, step);
      k in s'.ptrs ==>
        if Stores(step, k) then ServesAs(s'.heap[s'.ptrs[k]], step.entry)
        else k in s.ptrs && s'.heap[s'.ptrs[k]] == s.heap[s.ptrs[k]]
  {
    if step.Put? && step.key != k {
      PutElsewhere(s, maxEntries, step.key, step.entry, step.elem, k);
    }
  }

  /** The entry that the key leads to after n steps. */
  function EntryAt(maxEntries: int, steps: seq<Step>, n: nat, k: string): Option<Entry>
    requires Possible(INIT, maxEntries, steps) && n <= |steps|
  {
    var s := StateAt(INIT, maxEntries, steps, n);
    if k in s.ptrs then Some(s.heap[s.ptrs[k]]) else None
  }

  lemma {:induction false} ContentAt(maxEntries: int, steps: seq<Step>, n: nat, k: string)
    requires Possible(INIT, maxEntries, steps) && n < |steps|
    ensures var e := EntryAt(maxEntries, steps, n + 1, k);
      e.Some? ==> if Stores(steps[n], k) then ServesAs(e.value, steps[n].entry) else EntryAt(maxEntries, steps, n, k) == e
  {
    StepAt(INIT, maxEntries, steps, n);
    ContentAfterStep(StateAt(INIT, maxEntries, steps, n), maxEntries, steps[n], k);
  }

  /** Step i stores an entry for the key, and no step after it does. */
  predicate StoredLastAt(steps: seq<Step>, i: nat, n: nat, k: string)
    requires i < n <= |steps|
  {
    steps[i].Put? && steps[i].key == k && forall j :: i < j < n ==> !(steps[j].Put? && steps[j].key == k)
  }

  /**
   Under every interleaving from the empty cache, the entry a key leads to serves what was stored last under
   that key: body, headers, token counts, price and expiry all of one and the same store.
   */
  lemma {:induction false} LastStoreIsServed(maxEntries: int, steps: seq<Step>, n: nat, k: string) returns (i: nat)
    requires Possible(INIT, maxEntries, steps) && n <= |steps| && EntryAt(maxEntries, steps, n, k).Some?
    ensures i < n && StoredLastAt(steps, i, n, k)
    ensures ServesAs(EntryAt(maxEntries, steps, n, k).value, steps[i].entry)
    decreases n
  {
    ContentAt(maxEntries, steps, n - 1, k);
    if Stores(steps[n - 1], k) {
      i := n - 1;
    } else {
      i := LastStoreIsServed(maxEntries, steps, n - 1, k);
    }
  }

  lemma DroppingStays(s: State, maxEntries: int, step: Step, t: nat)
    requires WellFormed(s) && Enabled(s, step) && t in s.running && s.running[t].Dropping? && step != Act(t)
    ensures var s' := Next(s, maxEntries, step); t in s'.running && s'.running[t] == s.running[t]
  {
  }

  /** A lookup stays where it is until its own next step. */
  lemma {:induction false} StaysDropping(s: State, maxEntries: int, steps: seq<Step>, i: nat, t: nat)
    requires WellFormed(s) && Possible(s, maxEntries, steps) && i <= |steps|
    requires t in s.running && s.running[t].Dropping? && Act(t) !in steps
    ensures var r := StateAt(s, maxEntries, steps, i); t in r.running && r.running[t] == s.running[t]
    decreases i
  {
    if i > 0 {
      DroppingStays(s, maxEntries, steps[0], t);
      StaysDropping(Next(s, maxEntries, steps[0]), maxEntries, steps[1..], i - 1, t);
    }
  }

  /** Step `act` takes an entry out of the map that has not expired at `now`. */
  predicate RemovesFresh(s: State, maxEntries: int, act: Step, k: string, now: int)
    requires WellFormed(s) && Enabled(s, act)
  {
    FreshAt(s, k, now) && k !in Next(s, maxEntries, act).ptrs
  }

  /**
   A lookup that has found its entry expired drops its key, however late, whatever is there then: it throws
   away a fresh entry exactly when the last step in between that touched the key stored one, or when none
   did and the map held a fresh one all along.
   */
  lemma {:induction false} LateDropRemovesFreshIff(s: State, maxEntries: int, t: nat, between: seq<Step>, now: int)
    requires WellFormed(s) && Possible(s, maxEntries, between)
    requires t in s.running && s.running[t].Dropping? && Act(t) !in between
    ensures var r := Run(s, maxEntries, between); var k := s.running[t].key;
      && Enabled(r, Act(t))
      && (RemovesFresh(r, maxEntries, Act(t), k, now) <==>
          || RenewedLast(s, maxEntries, between, |between|, k, now)
          || (FreshAt(s, k, now) && Untouched(s, maxEntries, between, 0, |between|, k)))
  {
    StaysDropping(s, maxEntries, between, |between|, t);
    FreshIffRenewedLast(s, maxEntries, between, |between|, s.running[t].key, now);
  }

  /** The map holds for the key, if anything, the entry that the lookup read. */
  predicate StillMapped(s: State, t: nat) {
    t in s.running && !s.running[t].Counting? && (s.running[t].key in s.ptrs ==> s.ptrs[s.running[t].key] == s.running[t].ptr)
  }

  /** Seen from a check made while the map holds what the lookup read, only a store in between can do it. */
  lemma {:induction false} DropAfterCheckRemovesFreshIff(s: State, maxEntries: int, t: nat, now: int, between: seq<Step>)
    requires WellFormed(s) && Enabled(s, Check(t, now)) && StillMapped(s, t) && now > s.heap[s.running[t].ptr].expiresAt
    requires var s1 := Next(s, maxEntries, Check(t, now)); WellFormed(s1) && Possible(s1, maxEntries, between)
    requires Act(t) !in between
    ensures var s1 := Next(s, maxEntries, Check(t, now)); var k := s.running[t].key; var r := Run(s1, maxEntries, between);
      && Enabled(r, Act(t))
      && (RemovesFresh(r, maxEntries, Act(t), k, now) <==> RenewedLast(s1, maxEntries, between, |between|, k, now))
  {
    LateDropRemovesFreshIff(Next(s, maxEntries, Check(t, now)), maxEntries, t, between, now);
  }

  /** So without a store of the key in between, a late drop finds it expired or gone. */
  lemma {:induction false} LateDropIsHarmless(s: State, maxEntries: int, t: nat, now: int, between: seq<Step>)
    requires WellFormed(s) && Enabled(s, Check(t, now)) && StillMapped(s, t) && now > s.heap[s.running[t].ptr].expiresAt
    requires var s1 := Next(s, maxEntries, Check(t, now)); WellFormed(s1) && Possible(s1, maxEntries, between)
    requires forall step :: step in between ==> !Stores(step, s.running[t].key)
    ensures !FreshAt(Run(Next(s, maxEntries, Check(t, now)), maxEntries, between), s.running[t].key, now)
  {
    FreshIffRenewedLast(Next(s, maxEntries, Check(t, now)), maxEntries, between, |between|, s.running[t].key, now);
  }

  /** And in every state with a lookup about to drop, a store of a fresh entry is all it takes. */
  lemma {:induction false} LateDropRemovesAnyRenewal(s: State, maxEntries: int, t: nat, e: Entry, elem: Element, now: int)
    requires Inv(s, maxEntries) && t in s.running && s.running[t].Dropping?
    requires Enabled(s, Put(s.running[t].key, e, elem)) && now <= e.expiresAt
    ensures var put := [Put(s.running[t].key, e, elem)];
      && Possible(s, maxEntries, put)
      && Enabled(Run(s, maxEntries, put), Act(t))
      && RemovesFresh(Run(s, maxEntries, put), maxEntries, Act(t), s.running[t].key, now)
  {
    var put := Put(s.running[t].key, e, elem);
    StepsAreRegions(s, maxEntries, put);
    RunChain(maxEntries, [put], [s, Next(s, maxEntries, put)]);
    assert RenewedLastAt(s, maxEntries, [put], 0, 1, s.running[t].key, now);
    LateDropRemovesFreshIff(s, maxEntries, t, [put], now);
  }
}
