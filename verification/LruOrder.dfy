/**
 Recency orders of keys, most recent first, and what a bounded cache keeps of them.
 */
module LruOrder {

  /** The sequence without the first occurrence of x. */
  function RemoveFrom<T(==)>(s: seq<T>, x: T): (r: seq<T>)
    ensures |r| == if x in s then |s| - 1 else |s|
    ensures forall y :: y in r ==> y in s
    ensures forall y :: y in s && y != x ==> y in r
  {
    if s == [] then []
    else if s[0] == x then s[1..]
    else [s[0]] + RemoveFrom(s[1..], x)
  }

  ghost predicate NoDup<T>(s: seq<T>) {
    forall i, j :: 0 <= i < j < |s| ==> s[i] != s[j]
  }

  function Take<T>(s: seq<T>, n: nat): seq<T> { if |s| <= n then s else s[..n] }

  lemma NoDupCons<T>(x: T, s: seq<T>)
    requires NoDup(s) && x !in s
    ensures NoDup([x] + s)
  {
  }

  lemma NoDupInit<T>(s: seq<T>)
    requires NoDup(s) && s != []
    ensures NoDup(s[..|s| - 1]) && s[|s| - 1] !in s[..|s| - 1]
  {
  }

  lemma {:induction false} RemoveKeepsNoDup<T>(s: seq<T>, x: T)
    requires NoDup(s)
    ensures NoDup(RemoveFrom(s, x)) && x !in RemoveFrom(s, x)
  {
    if s != [] && s[0] != x {
      RemoveKeepsNoDup(s[1..], x);
      assert s[0] !in s[1..];
    }
  }

  lemma {:induction false} RemoveAbsent<T>(s: seq<T>, x: T)
    requires x !in s
    ensures RemoveFrom(s, x) == s
  {
    if s != [] {
      RemoveAbsent(s[1..], x);
    }
  }

  /** Removing x splits at its first occurrence. */
  lemma {:induction false} RemoveAt<T>(s: seq<T>, i: nat)
    requires i < |s| && s[i] !in s[..i]
    ensures RemoveFrom(s, s[i]) == s[..i] + s[i + 1..]
  {
    if i > 0 {
      assert s[0] in s[..i];
      assert s[1..][..i - 1] == s[1..i];
      assert forall y :: y in s[1..i] ==> y in s[..i];
      RemoveAt(s[1..], i - 1);
    }
  }

  lemma {:induction false} DistinctCount<T>(s: seq<T>)
    requires NoDup(s)
    ensures |(set x | x in s)| == |s|
  {
    if s != [] {
      DistinctCount(s[1..]);
      assert s == [s[0]] + s[1..];
      assert (set x | x in s) == {s[0]} + (set x | x in s[1..]);
      assert s[0] !in s[1..];
    }
  }

  // ---- Recency without a bound ----

  function Touch<T(==)>(s: seq<T>, k: T): seq<T> { [k] + RemoveFrom(s, k) }

  /** All keys ever accessed, latest access first. */
  function Recency<T(==)>(ks: seq<T>): seq<T> {
    if ks == [] then [] else Touch(Recency(ks[..|ks| - 1]), ks[|ks| - 1])
  }

  lemma TouchNoDup<T>(s: seq<T>, k: T)
    requires NoDup(s)
    ensures NoDup(Touch(s, k))
  {
    RemoveKeepsNoDup(s, k);
  }

  lemma {:induction false} RecencyNoDup<T>(ks: seq<T>)
    ensures NoDup(Recency(ks))
  {
    if ks != [] {
      RecencyNoDup(ks[..|ks| - 1]);
      TouchNoDup(Recency(ks[..|ks| - 1]), ks[|ks| - 1]);
    }
  }

  // ---- A cache that holds at most cap keys ----

  /** Access one key: promote it, or make room by dropping the last one and put it in front. */
  function Access<T(==)>(s: seq<T>, k: T, cap: nat): seq<T> {
    if k in s then Touch(s, k)
    else if |s| >= cap && s != [] then [k] + s[..|s| - 1]
    else [k] + s
  }

  function Accesses<T(==)>(ks: seq<T>, cap: nat): seq<T> {
    if ks == [] then [] else Access(Accesses(ks[..|ks| - 1], cap), ks[|ks| - 1], cap)
  }

  lemma TakeTouchKept<T>(s: seq<T>, k: T, cap: nat)
    requires NoDup(s) && k in Take(s, cap)
    ensures Take(Touch(s, k), cap) == Touch(Take(s, cap), k)
  {
    var t := Take(s, cap);
    var i :| 0 <= i < |t| && t[i] == k;
    assert s[i] == k;
    RemoveAt(s, i);
    RemoveAt(t, i);
  }

  lemma TakeTouchLost<T>(s: seq<T>, k: T, cap: nat)
    requires NoDup(s) && cap >= 1 && k !in Take(s, cap)
    ensures Take(Touch(s, k), cap) == Access(Take(s, cap), k, cap)
  {
    if k in s {
      var i :| 0 <= i < |s| && s[i] == k;
      assert forall j :: 0 <= j < |Take(s, cap)| ==> Take(s, cap)[j] == s[j] && s[j] != k;
      RemoveAt(s, i);
    } else {
      RemoveAbsent(s, k);
    }
  }

  /** A bounded cache holds exactly the cap most recently accessed keys, in order of recency. */
  lemma {:induction false} CacheIsRecencyPrefix<T>(ks: seq<T>, cap: nat)
    requires cap >= 1
    ensures Accesses(ks, cap) == Take(Recency(ks), cap)
  {
    if ks != [] {
      var before, k := ks[..|ks| - 1], ks[|ks| - 1];
      CacheIsRecencyPrefix(before, cap);
      RecencyNoDup(before);
      if k in Take(Recency(before), cap) {
        TakeTouchKept(Recency(before), k, cap);
      } else {
        TakeTouchLost(Recency(before), k, cap);
      }
    }
  }

  // ---- Growing the cache never loses a hit ----

  function Hits<T(==)>(ks: seq<T>, cap: nat): nat {
    if ks == [] then 0
    else Hits(ks[..|ks| - 1], cap) + if ks[|ks| - 1] in Accesses(ks[..|ks| - 1], cap) then 1 else 0
  }

  lemma {:induction false} SmallerCacheIsPrefix<T>(ks: seq<T>, small: nat, large: nat)
    requires 1 <= small <= large
    ensures Accesses(ks, small) == Take(Accesses(ks, large), small)
  {
    CacheIsRecencyPrefix(ks, small);
    CacheIsRecencyPrefix(ks, large);
  }

  lemma {:induction false} HitsGrowWithCapacity<T>(ks: seq<T>, small: nat, large: nat)
    requires 1 <= small <= large
    ensures Hits(ks, small) <= Hits(ks, large)
  {
    if ks != [] {
      HitsGrowWithCapacity(ks[..|ks| - 1], small, large);
      SmallerCacheIsPrefix(ks[..|ks| - 1], small, large);
    }
  }

  // ---- How long a key is kept ----

  function Keys<T>(ks: seq<T>): set<T> { set k | k in ks }

  /** The keys in front of k are exactly those accessed after its last access. */
  lemma {:induction false} KeysInFront<T>(pre: seq<T>, k: T, post: seq<T>)
    requires k !in post
    ensures var r := Recency(pre + [k] + post); var n := |Keys(post)|;
      n < |r| && r[n] == k && Keys(r[..n]) == Keys(post)
    decreases |post|
  {
    var ks := pre + [k] + post;
    if post == [] {
      assert ks[..|ks| - 1] == pre;
      assert Keys(post) == {};
    } else {
      var x, rest := post[|post| - 1], post[..|post| - 1];
      assert ks[..|ks| - 1] == pre + [k] + rest && ks[|ks| - 1] == x;
      assert post == rest + [x];
      KeysInFront(pre, k, rest);
      RecencyNoDup(pre + [k] + rest);
      InFrontStep(Recency(pre + [k] + rest), k, rest, x);
    }
  }

  lemma InFrontStep<T>(r: seq<T>, k: T, rest: seq<T>, x: T)
    requires NoDup(r) && x != k
    requires var n := |Keys(rest)|; n < |r| && r[n] == k && Keys(r[..n]) == Keys(rest)
    ensures var t := Touch(r, x); var n := |Keys(rest + [x])|;
      n < |t| && t[n] == k && Keys(t[..n]) == Keys(rest + [x])
  {
    KeysConcat(rest, [x]);
    KeysOfOne(x);
    TouchInFront(r, |Keys(rest)|, x);
  }

  lemma KeysConcat<T>(a: seq<T>, b: seq<T>)
    ensures Keys(a + b) == Keys(a) + Keys(b)
  {
  }

  lemma KeysOfOne<T>(x: T)
    ensures Keys([x]) == {x}
  {
  }

  lemma TouchBehind<T>(r: seq<T>, n: nat, i: nat)
    requires NoDup(r) && i < n < |r|
    ensures var t := Touch(r, r[i]); n < |t| && t[n] == r[n] && Keys(t[..n]) == Keys(r[..n])
  {
    RemoveAt(r, i);
    var a, x, b := r[..i], [r[i]], r[i + 1..n];
    var t := Touch(r, r[i]);
    assert t[..n] == x + (a + b);
    assert r[..n] == a + (x + b);
    KeysConcat(x, a + b);
    KeysConcat(a, b);
    KeysConcat(a, x + b);
    KeysConcat(x, b);
  }

  lemma TouchPast<T>(r: seq<T>, n: nat, x: T)
    requires NoDup(r) && n < |r| && r[n] != x && x !in r[..n]
    ensures var t := Touch(r, x); n + 1 < |t| && t[n + 1] == r[n] && t[..n + 1] == [x] + r[..n]
  {
    if x in r {
      var i :| 0 <= i < |r| && r[i] == x;
      assert i > n by { assert forall j :: 0 <= j < n ==> r[j] in r[..n]; }
      RemoveAt(r, i);
    } else {
      RemoveAbsent(r, x);
    }
  }

  lemma TouchInFront<T>(r: seq<T>, n: nat, x: T)
    requires NoDup(r) && n < |r| && r[n] != x && |Keys(r[..n])| == n
    ensures var front := Keys(r[..n]) + {x}; var t := Touch(r, x);
      |front| < |t| && t[|front|] == r[n] && Keys(t[..|front|]) == front
  {
    if x in r[..n] {
      var i :| 0 <= i < n && r[i] == x;
      TouchBehind(r, n, i);
      assert Keys(r[..n]) + {x} == Keys(r[..n]);
    } else {
      TouchPast(r, n, x);
      KeysConcat([x], r[..n]);
      KeysOfOne(x);
      var front := Keys(r[..n]) + {x};
      assert front == {x} + Keys(r[..n]);
      assert x !in Keys(r[..n]);
      assert |front| == n + 1;
    }
  }

  /**
   A key still hits exactly when fewer than cap distinct other keys were accessed since its last
   access.
   */
  lemma {:induction false} KeptIffFewOthersSince<T>(pre: seq<T>, k: T, post: seq<T>, cap: nat)
    requires cap >= 1 && k !in post
    ensures k in Accesses(pre + [k] + post, cap) <==> |Keys(post)| < cap
  {
    var ks := pre + [k] + post;
    var r := Recency(ks);
    var n := |Keys(post)|;
    CacheIsRecencyPrefix(ks, cap);
    KeysInFront(pre, k, post);
    RecencyNoDup(ks);
    if n < cap {
      assert Take(r, cap)[n] == k;
    } else {
      forall i | 0 <= i < |Take(r, cap)| ensures Take(r, cap)[i] != k {
        assert Take(r, cap)[i] == r[i] && i < n;
      }
    }
  }
}
