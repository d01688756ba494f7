/**
 One upstream request: the retry loop, then the failover chain, then the fallback provider
 (proxy/handler.go, reliability/retry.go). The network is an arbitrary sequence of outcomes; every
 response body is tracked by how often it has been closed.
 */
module Upstream {
  import opened Wrappers

  /**
   What one exchange yields: a response, or an error. An error may come with a response whose body
   the HTTP library has already closed.
   */
  datatype Outcome = Got(status: int) | NetError(withResponse: bool)

  datatype Response = Response(id: nat, status: int)

  datatype RetryConfig = RetryConfig(enabled: bool, maxAttempts: int, initialDelay: nat, maxDelay: nat, multiplier: real)

  predicate IsRetryableError(status: int, err: bool) {
    status in {429, 500, 502, 503, 504, 529} || (err && (status == 0 || status == 408))
  }

  predicate Is2xx(status: int) { 200 <= status < 300 }

  /** An outcome the retry loop tries again after. */
  predicate Failed(o: Outcome) { o.NetError? || IsRetryableError(o.status, false) }

  predicate Success(o: Outcome) { o.Got? && Is2xx(o.status) }

  function Min(a: int, b: int): int { if a < b then a else b }

  // ---- Back-off delays ----

  /** A conversion to a duration cuts the fraction off. */
  function Truncate(x: real): int { if x >= 0.0 then x.Floor else -(-x).Floor }

  predicate Whole(x: real) { x.Floor as real == x }

  function Grown(x: real, m: real): real { x * m }

  /** The delay the loop sleeps after its k-th failure, counting from 0: every delay is cut, then capped. */
  function LoopDelay(c: RetryConfig, k: nat): int {
    if k == 0 then c.initialDelay else Min(Truncate(Grown(LoopDelay(c, k - 1) as real, c.multiplier)), c.maxDelay)
  }

  function Power(b: real, e: nat): real { if e == 0 then 1.0 else b * Power(b, e - 1) }

  /** The closed form offered beside the loop, cut and capped once; attempts count from 1. */
  function BackoffDelay(c: RetryConfig, attempt: nat): int
    requires attempt >= 1
  {
    Min(Truncate(Grown(c.initialDelay as real, Power(c.multiplier, attempt - 1))), c.maxDelay)
  }

  /** The delay that is neither cut nor capped. */
  function Ideal(d: nat, m: real, k: nat): real {
    if k == 0 then d as real else Grown(Ideal(d, m, k - 1), m)
  }

  lemma {:induction false} IdealIsPower(d: nat, m: real, k: nat)
    ensures Ideal(d, m, k) == Grown(d as real, Power(m, k))
  {
    if k > 0 {
      IdealIsPower(d, m, k - 1);
      var p := Power(m, k - 1);
      assert Grown(Grown(d as real, p), m) == Grown(d as real, m * p);
    } else {
      assert Power(m, 0) == 1.0;
    }
  }

  lemma {:induction false} BackoffIsIdeal(c: RetryConfig, k: nat)
    ensures BackoffDelay(c, k + 1) == Min(Truncate(Ideal(c.initialDelay, c.multiplier, k)), c.maxDelay)
  {
    IdealIsPower(c.initialDelay, c.multiplier, k);
    assert Power(c.multiplier, k + 1 - 1) == Power(c.multiplier, k);
  }

  lemma Scaled(x: real, y: real, m: real)
    requires x <= y && m >= 0.0
    ensures Grown(x, m) <= Grown(y, m)
    ensures Grown(0.0, m) == 0.0
  {
  }

  lemma AtLeast(x: real, m: real)
    requires x >= 0.0 && m >= 1.0
    ensures Grown(x, m) >= x
  {
  }

  lemma WholeTimesWhole(x: real, m: real)
    requires Whole(x) && Whole(m)
    ensures Whole(Grown(x, m))
  {
    assert x * m == (x.Floor * m.Floor) as real;
  }

  lemma {:induction false} IdealIsPositive(d: nat, m: real, k: nat)
    requires m >= 0.0
    ensures Ideal(d, m, k) >= 0.0
    ensures m >= 1.0 ==> Ideal(d, m, k) >= d as real
  {
    if k > 0 {
      IdealIsPositive(d, m, k - 1);
      Scaled(0.0, Ideal(d, m, k - 1), m);
      if m >= 1.0 {
        AtLeast(Ideal(d, m, k - 1), m);
      }
    }
  }

  lemma {:induction false} IdealStaysWhole(d: nat, m: real, k: nat)
    requires Whole(m)
    ensures Whole(Ideal(d, m, k))
  {
    if k > 0 {
      IdealStaysWhole(d, m, k - 1);
      WholeTimesWhole(Ideal(d, m, k - 1), m);
    }
  }

  lemma CapBeforeOrAfter(x: real, m: real, cap: nat)
    requires Whole(x) && x >= 0.0 && m >= 0.0 && Whole(m)
    ensures Min(Truncate(Grown(Min(Truncate(x), cap) as real, m)), cap) == Min(Truncate(Grown(x, m)), cap)
  {
    if x > cap as real {
      if m.Floor > 0 {
        Scaled(cap as real, x, m);
        AtLeast(cap as real, m);
      } else {
        assert m == 0.0;
      }
    }
  }

  lemma {:induction false} WholeDelays(c: RetryConfig, k: nat)
    requires c.initialDelay <= c.maxDelay && c.multiplier >= 0.0 && Whole(c.multiplier)
    ensures LoopDelay(c, k) == Min(Truncate(Ideal(c.initialDelay, c.multiplier, k)), c.maxDelay)
  {
    if k > 0 {
      WholeDelays(c, k - 1);
      IdealIsPositive(c.initialDelay, c.multiplier, k - 1);
      IdealStaysWhole(c.initialDelay, c.multiplier, k - 1);
      CapBeforeOrAfter(Ideal(c.initialDelay, c.multiplier, k - 1), c.multiplier, c.maxDelay);
    }
  }

  /**
   With a whole multiplier the loop sleeps the closed-form delay after every failure exactly when the
   initial delay does not exceed the cap; otherwise the very first sleep is uncapped.
   */
  lemma {:induction false} LoopFollowsClosedFormIff(c: RetryConfig)
    requires Whole(c.multiplier) && c.multiplier >= 0.0
    ensures (forall k: nat :: k >= 1 ==> LoopDelay(c, k - 1) == BackoffDelay(c, k)) <==> c.initialDelay <= c.maxDelay
  {
    if c.initialDelay <= c.maxDelay {
      forall k: nat | k >= 1 ensures LoopDelay(c, k - 1) == BackoffDelay(c, k) {
        WholeDelays(c, k - 1);
        BackoffIsIdeal(c, k - 1);
      }
    } else {
      BackoffIsIdeal(c, 0);
      assert LoopDelay(c, 1 - 1) != BackoffDelay(c, 1);
    }
  }

  // ---- Multipliers with a fraction ----

  lemma {:induction false} UnderIdeal(c: RetryConfig, k: nat)
    requires c.multiplier >= 0.0
    ensures 0 <= LoopDelay(c, k) && LoopDelay(c, k) as real <= Ideal(c.initialDelay, c.multiplier, k)
  {
    if k > 0 {
      UnderIdeal(c, k - 1);
      Scaled(0.0, LoopDelay(c, k - 1) as real, c.multiplier);
      Scaled(LoopDelay(c, k - 1) as real, Ideal(c.initialDelay, c.multiplier, k - 1), c.multiplier);
    }
  }

  /** Cutting every delay never makes one longer than the closed form, which cuts once. */
  lemma {:induction false} LoopNeverSleepsLonger(c: RetryConfig, k: nat)
    requires c.multiplier >= 0.0 && (k == 0 ==> c.initialDelay <= c.maxDelay)
    ensures LoopDelay(c, k) <= BackoffDelay(c, k + 1)
  {
    UnderIdeal(c, k);
    BackoffIsIdeal(c, k);
  }

  /** Some ideal delay is not whole, by descent: the multiplier's fraction of a whole start is a smaller whole start. */
  lemma {:induction false} FractionShows(d: nat, m: real) returns (k: nat)
    requires d > 0 && m >= 0.0 && !Whole(m)
    ensures !Whole(Ideal(d, m, k))
    decreases d
  {
    if Whole(Ideal(d, m, 1)) {
      var d' := SmallerStart(d, m);
      var j := FractionShows(d', m);
      IdealOfRest(d, m, d', j);
      var part := Grown(Ideal(d, m, j), m.Floor as real);
      if Whole(Ideal(d, m, j)) && Whole(Ideal(d, m, j + 1)) {
        WholeTimesWhole(Ideal(d, m, j), m.Floor as real);
        WholeDifference(Ideal(d, m, j + 1), part);
        assert false;
      }
      k := if Whole(Ideal(d, m, j)) then j + 1 else j;
    } else {
      k := 1;
    }
  }

  lemma SmallerStart(d: nat, m: real) returns (d': nat)
    requires d > 0 && !Whole(m) && Whole(Ideal(d, m, 1))
    ensures 0 < d' < d && d' as real == Grown(d as real, m - m.Floor as real)
  {
    var f := m - m.Floor as real;
    assert Ideal(d, m, 0) == d as real;
    WholeDifference(Ideal(d, m, 1), (d * m.Floor) as real);
    assert Grown(d as real, f) == Ideal(d, m, 1) - (d * m.Floor) as real;
    FractionOf(d as real, f);
    d' := Grown(d as real, f).Floor;
  }

  lemma FractionOf(d: real, f: real)
    requires d > 0.0 && 0.0 < f < 1.0
    ensures 0.0 < Grown(d, f) < d
  {
    Positive(d, f);
    Positive(d, 1.0 - f);
    assert Grown(d, f) == d - Grown(d, 1.0 - f);
  }

  lemma Positive(x: real, y: real)
    requires x > 0.0 && y > 0.0
    ensures Grown(x, y) > 0.0
  {
  }

  lemma WholeDifference(x: real, y: real)
    requires Whole(x) && Whole(y)
    ensures Whole(x - y)
  {
    assert x - y == (x.Floor - y.Floor) as real;
  }

  lemma Exchanged(x: real, m: real, n: real)
    ensures Grown(Grown(x, m), n) == Grown(Grown(x, n), m)
    ensures Grown(x, m - n) == Grown(x, m) - Grown(x, n)
  {
  }

  lemma {:induction false} IdealOfRest(d: nat, m: real, d': nat, k: nat)
    requires d' as real == Grown(d as real, m - m.Floor as real)
    ensures Ideal(d', m, k) == Ideal(d, m, k + 1) - Grown(Ideal(d, m, k), m.Floor as real)
    ensures Ideal(d', m, k) == Grown(Ideal(d, m, k), m - m.Floor as real)
  {
    Exchanged(Ideal(d, m, k), m, m.Floor as real);
    if k > 0 {
      IdealOfRest(d, m, d', k - 1);
      Exchanged(Ideal(d, m, k - 1), m, m - m.Floor as real);
    }
  }

  lemma LoopGrows(c: RetryConfig, k: nat)
    requires k > 0 && c.multiplier >= 0.0
    ensures LoopDelay(c, k) as real <= Grown(LoopDelay(c, k - 1) as real, c.multiplier)
    ensures Ideal(c.initialDelay, c.multiplier, k) == Grown(Ideal(c.initialDelay, c.multiplier, k - 1), c.multiplier)
  {
    UnderIdeal(c, k - 1);
    Scaled(0.0, LoopDelay(c, k - 1) as real, c.multiplier);
  }

  /** What a cut took off keeps growing with the multiplier. */
  lemma {:induction false} GapGrows(c: RetryConfig, k: nat, n: nat, gap: real)
    requires c.multiplier >= 1.0 && gap >= 0.0
    requires LoopDelay(c, k) as real <= Ideal(c.initialDelay, c.multiplier, k) - gap
    ensures LoopDelay(c, k + n) as real <= Ideal(c.initialDelay, c.multiplier, k + n) - gap - Grown(n as real, Grown(gap, c.multiplier - 1.0))
  {
    if n > 0 {
      GapGrows(c, k, n - 1, gap);
      LoopGrows(c, k + n);
      GapStep(LoopDelay(c, k + n - 1) as real, Ideal(c.initialDelay, c.multiplier, k + n - 1), c.multiplier, gap, n - 1);
    } else {
      Scaled(0.0, 0.0, Grown(gap, c.multiplier - 1.0));
    }
  }

  lemma GapStep(l: real, x: real, m: real, gap: real, n: nat)
    requires m >= 1.0 && gap >= 0.0 && l <= x - gap - Grown(n as real, Grown(gap, m - 1.0))
    ensures Grown(l, m) <= Grown(x, m) - gap - Grown((n + 1) as real, Grown(gap, m - 1.0))
  {
    var step := Grown(gap, m - 1.0);
    var more := Grown(n as real, step);
    NoLess(gap, m - 1.0);
    NoLess(n as real, step);
    Scaled(l, x - gap - more, m);
    GapSum(x, gap, more, m);
    NoLess(more, m - 1.0);
    assert Grown((n + 1) as real, step) == more + step;
  }

  lemma NoLess(x: real, y: real)
    requires x >= 0.0 && y >= 0.0
    ensures Grown(x, y) >= 0.0
  {
  }

  lemma GapSum(x: real, gap: real, more: real, m: real)
    ensures Grown(x - gap - more, m) == Grown(x, m) - gap - Grown(gap, m - 1.0) - more - Grown(more, m - 1.0)
  {
  }

  /** Enough steps of any positive length pass one. */
  lemma Archimedes(step: real) returns (n: nat)
    requires step > 0.0
    ensures Grown(n as real, step) >= 1.0
  {
    n := (1.0 / step).Floor + 1;
    Scaled(1.0 / step, n as real, step);
    assert 1.0 / step * step == 1.0;
  }

  ghost predicate FollowsUnder(d: nat, m: real, cap: nat) {
    forall k: nat :: LoopDelay(RetryConfig(true, 1, d, cap, m), k) == BackoffDelay(RetryConfig(true, 1, d, cap, m), k + 1)
  }

  /**
   For any multiplier of at least 1, the loop sleeps the closed-form delays under every cap the initial
   delay respects exactly when nothing is ever cut off: there is no delay, or the multiplier is whole.
   */
  lemma {:induction false} LoopFollowsUnderEveryCapIff(d: nat, m: real)
    requires m >= 1.0
    ensures (forall cap: nat :: cap >= d ==> FollowsUnder(d, m, cap)) <==> d == 0 || Whole(m)
  {
    if d > 0 && !Whole(m) {
      var cap := SomeCapTells(d, m);
      assert cap >= d && !FollowsUnder(d, m, cap);
    } else {
      forall cap: nat | cap >= d ensures FollowsUnder(d, m, cap) {
        NoCapTells(d, m, cap);
      }
    }
  }

  lemma {:induction false} NoCapTells(d: nat, m: real, cap: nat)
    requires m >= 0.0 && cap >= d && (d == 0 || Whole(m))
    ensures FollowsUnder(d, m, cap)
  {
    var c := RetryConfig(true, 1, d, cap, m);
    forall k: nat ensures LoopDelay(c, k) == BackoffDelay(c, k + 1) {
      BackoffIsIdeal(c, k);
      if d == 0 {
        NothingGrows(m, k);
        UnderIdeal(c, k);
      } else {
        WholeDelays(c, k);
      }
    }
  }

  lemma {:induction false} NothingGrows(m: real, k: nat)
    ensures Ideal(0, m, k) == 0.0
  {
    if k > 0 {
      NothingGrows(m, k - 1);
    }
  }

  lemma {:induction false} SomeCapTells(d: nat, m: real) returns (cap: nat)
    requires m >= 1.0 && d > 0 && !Whole(m)
    ensures cap >= d && !FollowsUnder(d, m, cap)
  {
    var k := FractionShows(d, m);
    var gap := Ideal(d, m, k) - Ideal(d, m, k).Floor as real;
    var n := GapPassesOne(gap, m);
    IdealIsPositive(d, m, k + n);
    cap := Ideal(d, m, k + n).Floor;
    var c := RetryConfig(true, 1, d, cap, m);
    FallsBehind(c, k, n, gap);
    BackoffIsIdeal(c, k + n);
    assert LoopDelay(c, k + n) < BackoffDelay(c, k + n + 1);
  }

  lemma GapPassesOne(gap: real, m: real) returns (n: nat)
    requires m >= 1.0 && !Whole(m) && gap > 0.0
    ensures Grown(n as real, Grown(gap, m - 1.0)) >= 1.0
  {
    assert m > 1.0 by {
      assert m == 1.0 ==> m.Floor as real == m;
    }
    Positive(gap, m - 1.0);
    n := Archimedes(Grown(gap, m - 1.0));
  }

  /** Once a cut has grown to a whole nanosecond, the loop sleeps less. */
  lemma {:induction false} FallsBehind(c: RetryConfig, k: nat, n: nat, gap: real)
    requires c.multiplier >= 1.0 && 0.0 <= gap <= Ideal(c.initialDelay, c.multiplier, k) - Ideal(c.initialDelay, c.multiplier, k).Floor as real
    requires Grown(n as real, Grown(gap, c.multiplier - 1.0)) >= 1.0
    ensures LoopDelay(c, k + n) < Ideal(c.initialDelay, c.multiplier, k + n).Floor
  {
    UnderIdeal(c, k);
    CutOff(LoopDelay(c, k), Ideal(c.initialDelay, c.multiplier, k), gap);
    GapGrows(c, k, n, gap);
    var more := Grown(n as real, Grown(gap, c.multiplier - 1.0));
    BelowFloor(LoopDelay(c, k + n), Ideal(c.initialDelay, c.multiplier, k + n), gap + more);
  }

  lemma CutOff(l: int, x: real, gap: real)
    requires l as real <= x && gap <= x - x.Floor as real
    ensures l as real <= x - gap
  {
    assert l <= x.Floor;
  }

  lemma BelowFloor(l: int, x: real, gap: real)
    requires l as real <= x - gap && gap >= 1.0
    ensures l < x.Floor
  {
  }

  ghost predicate FollowsLoop(c: RetryConfig, slept: seq<int>) {
    forall k :: 0 <= k < |slept| ==> slept[k] == LoopDelay(c, k)
  }

  lemma {:induction false} OneMoreSleep(c: RetryConfig, slept: seq<int>, delay: int)
    requires FollowsLoop(c, slept) && delay == LoopDelay(c, |slept|)
    ensures FollowsLoop(c, slept + [delay])
  {
  }

  /** The step of the retry loop from one delay to the next. */
  method NextDelay(c: RetryConfig, delay: int, ghost k: nat) returns (next: int)
    requires delay == LoopDelay(c, k)
    ensures next == LoopDelay(c, k + 1)
  {
    next := Truncate(Grown(delay as real, c.multiplier));
    if next > c.maxDelay {
      next := c.maxDelay;
    }
  }

  // ---- The network ----

  class Client {
    const outcome: nat -> Outcome
    var sent: nat
    /** closes[i]: how often the body of the i-th exchange has been closed. */
    var closes: seq<nat>

    ghost predicate Valid()
      reads this
    {
      |closes| == sent
    }

    constructor (outcome: nat -> Outcome)
      ensures Valid() && this.outcome == outcome && sent == 0
    {
      this.outcome := outcome;
      sent, closes := 0, [];
    }

    method Do() returns (resp: Option<Response>, err: bool)
      requires Valid()
      modifies this
      ensures Valid() && sent == old(sent) + 1
      ensures closes == old(closes) + [if outcome(old(sent)) == NetError(true) then 1 else 0]
      ensures err <==> outcome(old(sent)).NetError?
      ensures !err ==> resp == Some(Response(old(sent), outcome(old(sent)).status))
      ensures err ==> if outcome(old(sent)).withResponse then resp.Some? && resp.value.id == old(sent) else resp == None
    {
      var id := sent;
      sent := sent + 1;
      match outcome(id)
      case Got(status) =>
        closes := closes + [0];
        return Some(Response(id, status)), false;
      case NetError(withResponse) =>
        closes := closes + [if withResponse then 1 else 0];
        return if withResponse then Some(Response(id, 0)) else None, true;
    }

    method Close(r: Response)
      requires Valid() && r.id < sent
      modifies this`closes
      ensures Valid() && closes == old(closes)[r.id := old(closes)[r.id] + 1]
    {
      closes := closes[r.id := closes[r.id] + 1];
    }
  }

  /**
   How often a body has been closed: an answer once, unless it is still held; the body that came with an
   error once, by the library, and a second time if it came to the failover chain.
   */
  function ClosedTimes(o: Outcome, isHeld: bool, inChain: bool): nat {
    match o
    case Got(_) => if isHeld then 0 else 1
    case NetError(false) => 0
    case NetError(true) => if inChain then 2 else 1
  }

  /** Every exchange so far has been closed that often; those numbered lo to hi - 1 are the chain's. */
  ghost predicate Ledger(outcome: nat -> Outcome, closes: seq<nat>, held: Option<Response>, lo: nat, hi: nat) {
    forall i :: 0 <= i < |closes| ==>
      closes[i] == ClosedTimes(outcome(i), held.Some? && held.value.id == i, lo <= i < hi)
  }

  /** A held response is one that was really received and not closed. */
  ghost predicate Holds(outcome: nat -> Outcome, n: nat, held: Option<Response>) {
    held.Some? ==> held.value.id < n && outcome(held.value.id) == Got(held.value.status)
  }

  /** The number of exchanges of the retry loop. */
  ghost predicate RetryStops(outcome: nat -> Outcome, c: RetryConfig, n: nat) {
    && (forall i :: 0 <= i < n - 1 ==> Failed(outcome(i)))
    && (if !c.enabled then n == 1
        else if c.maxAttempts < 1 then n == 0
        else 1 <= n <= c.maxAttempts && (n == c.maxAttempts || !Failed(outcome(n - 1))))
  }

  /** The loop tries again after an error or one of six statuses, and after nothing else; it is off, or stops by itself, or at the maximum. */
  lemma RetriesOnlyAfterFailures(outcome: nat -> Outcome, c: RetryConfig, n: nat)
    requires RetryStops(outcome, c, n)
    ensures forall i :: 0 <= i < n - 1 ==>
      outcome(i).NetError? || outcome(i).status in {429, 500, 502, 503, 504, 529}
    ensures 0 < n < c.maxAttempts && c.enabled ==> outcome(n - 1).Got? && outcome(n - 1).status !in {429, 500, 502, 503, 504, 529}
    ensures !c.enabled ==> n == 1
    ensures c.enabled ==> n <= (if c.maxAttempts < 0 then 0 else c.maxAttempts)
  {
  }

  /** What the ledger says: every answer is closed once, but the one returned not at all; errors bring nothing new to close, except in the chain. */
  lemma EveryAnswerIsClosedOnce(outcome: nat -> Outcome, closes: seq<nat>, held: Option<Response>, lo: nat, hi: nat, i: nat)
    requires Ledger(outcome, closes, held, lo, hi) && i < |closes|
    ensures outcome(i).Got? ==> closes[i] == if held.Some? && held.value.id == i then 0 else 1
    ensures outcome(i).NetError? ==> closes[i] == if !outcome(i).withResponse then 0 else if lo <= i < hi then 2 else 1
  {
  }

  /** The newest answer of some exchanges: none of them came after it, and it is none that the loop retries after; or there was no answer. */
  lemma NothingAnsweredAfter(outcome: nat -> Outcome, tries: nat, n: nat, held: Option<Response>)
    requires NewestAnswer(outcome, tries, n, held)
    ensures held.Some? ==> held.value.id < n && outcome(held.value.id) == Got(held.value.status)
    ensures held.Some? ==> forall i :: held.value.id < i < n ==> outcome(i).NetError?
    ensures held.Some? && held.value.id == tries - 1 ==> held.value.status !in {429, 500, 502, 503, 504, 529}
    ensures held == None ==> forall i :: tries <= i < n ==> outcome(i).NetError?
  {
  }

  /** How often the loop may try at most. */
  function MaxTries(c: RetryConfig): nat {
    if !c.enabled then 1 else if c.maxAttempts < 1 then 0 else c.maxAttempts
  }

  lemma StopsNoLater(outcome: nat -> Outcome, c: RetryConfig, m: nat, n: nat)
    requires RetryStops(outcome, c, m) && RetryStops(outcome, c, n)
    ensures n <= m
  {
    assert forall i :: 0 <= i < n - 1 ==> Failed(outcome(i));
    assert m >= 1 ==> m == MaxTries(c) || !Failed(outcome(m - 1));
  }

  lemma RetryStopsOnce(outcome: nat -> Outcome, c: RetryConfig, m: nat, n: nat)
    requires RetryStops(outcome, c, m) && RetryStops(outcome, c, n)
    ensures m == n
  {
    StopsNoLater(outcome, c, m, n);
    StopsNoLater(outcome, c, n, m);
  }

  class Call {
    const client: Client
    var lastResp: Option<Response>
    /** The back-off sleeps so far. */
    var slept: seq<int>

    constructor (client: Client)
      ensures this.client == client && lastResp == None && slept == []
    {
      this.client := client;
      lastResp, slept := None, [];
    }

    /** One try of the primary provider; a response worth retrying is closed here. */
    method Operation() returns (status: int, err: bool)
      requires client.Valid()
      requires lastResp == None && Ledger(client.outcome, client.closes, None, 0, 0)
      modifies this`lastResp, client
      ensures client.Valid() && client.sent == old(client.sent) + 1
      ensures var o := client.outcome(old(client.sent));
        && err == Failed(o)
        && status == (if o.Got? then o.status else 0)
        && lastResp == (if Failed(o) then None else Some(Response(old(client.sent), o.status)))
      ensures Ledger(client.outcome, client.closes, lastResp, 0, 0)
    {
      var resp, neterr := client.Do();
      if neterr {
        return 0, true;
      }
      if IsRetryableError(resp.value.status, false) {
        client.Close(resp.value);
        lastResp := None;
        return resp.value.status, true;
      }
      lastResp := resp;
      return resp.value.status, false;
    }

    method RetryWithBackoff(c: RetryConfig) returns (status: int, err: bool, attempts: nat)
      requires client.Valid() && client.sent == 0 && lastResp == None && slept == []
      modifies this, client
      ensures client.Valid() && attempts == client.sent && RetryStops(client.outcome, c, attempts)
      ensures Ledger(client.outcome, client.closes, lastResp, 0, 0) && Holds(client.outcome, attempts, lastResp)
      ensures err <==> attempts > 0 && Failed(client.outcome(attempts - 1))
      ensures lastResp.Some? <==> attempts > 0 && !err
      ensures lastResp.Some? ==> lastResp.value.id == attempts - 1
      ensures forall i :: 0 <= i < attempts && Success(client.outcome(i)) ==> lastResp.Some? && lastResp.value.id == i
      ensures c.enabled && attempts > 0 ==> |slept| == attempts - 1
      ensures FollowsLoop(c, slept)
    {
      attempts := 0;
      if !c.enabled {
        status, err := Operation();
        attempts := 1;
        return;
      }
      var delay: int := c.initialDelay;
      var attempt := 1;
      err := false;
      while attempt <= c.maxAttempts
        invariant client.Valid() && client.sent == attempts == attempt - 1 && |slept| == attempt - 1 && lastResp == None
        invariant attempt == 1 || (attempt <= c.maxAttempts && err)
        invariant attempt == 1 ==> !err
        invariant forall i :: 0 <= i < attempt - 1 ==> Failed(client.outcome(i))
        invariant Ledger(client.outcome, client.closes, None, 0, 0)
        invariant delay == LoopDelay(c, attempt - 1) && FollowsLoop(c, slept)
        decreases c.maxAttempts - attempt
      {
        status, err := Operation();
        attempts := attempt;
        if !err {
          return;
        }
        if !IsRetryableError(status, err) || attempt == c.maxAttempts {
          return;
        }
        OneMoreSleep(c, slept, delay);
        slept := slept + [delay];
        delay := NextDelay(c, delay, attempt - 1);
        attempt := attempt + 1;
      }
      return 0, err, attempts;
    }

    /**
     The failover chain: the first 2xx wins; until then the newest other answer is kept open and
     the one before it is closed.
     */
    method TryChain(chain: seq<string>, ghost tries: nat, first: Option<Response>)
      returns (resp: Option<Response>, won: bool, provider: string)
      requires client.Valid() && client.sent == tries && NewestAnswer(client.outcome, tries, tries, first)
      requires Ledger(client.outcome, client.closes, first, tries, tries + |chain|)
      requires forall i :: 0 <= i < tries ==> !Success(client.outcome(i))
      modifies client
      ensures client.Valid() && tries <= client.sent <= tries + |chain|
      ensures Ledger(client.outcome, client.closes, resp, tries, tries + |chain|) && Holds(client.outcome, client.sent, resp)
      ensures NewestAnswer(client.outcome, tries, client.sent, resp)
      ensures forall i :: 0 <= i < client.sent && Success(client.outcome(i)) ==> won && i == client.sent - 1
      ensures won ==> resp.Some? && Success(client.outcome(resp.value.id)) && resp.value.id == client.sent - 1 >= tries && provider == chain[client.sent - tries - 1]
      ensures !won ==> client.sent == tries + |chain| && provider == ""
    {
      resp, won, provider := first, false, "";
      for k := 0 to |chain|
        invariant client.Valid() && client.sent == tries + k && !won && provider == ""
        invariant Ledger(client.outcome, client.closes, resp, tries, tries + |chain|)
        invariant NewestAnswer(client.outcome, tries, client.sent, resp)
        invariant forall i :: 0 <= i < client.sent ==> !Success(client.outcome(i))
      {
        resp, won := TryOne(tries, tries + |chain|, resp);
        if won {
          return resp, true, chain[k];
        }
      }
    }

    /** One provider of the chain: a new answer replaces the one held so far, which is closed. */
    method TryOne(ghost tries: nat, ghost end: nat, held: Option<Response>) returns (resp: Option<Response>, won: bool)
      requires client.Valid() && Ledger(client.outcome, client.closes, held, tries, end)
      requires tries <= client.sent < end && NewestAnswer(client.outcome, tries, client.sent, held)
      modifies client
      ensures client.Valid() && client.sent == old(client.sent) + 1
      ensures Ledger(client.outcome, client.closes, resp, tries, end)
      ensures NewestAnswer(client.outcome, tries, client.sent, resp)
      ensures won <==> client.outcome(old(client.sent)).Got? && 200 <= client.outcome(old(client.sent)).status < 300
      ensures won ==> resp.Some? && resp.value.id == old(client.sent)
    {
      var r, neterr := client.Do();
      if !neterr {
        if held.Some? {
          client.Close(held.value);
        }
        return r, Is2xx(r.value.status);
      }
      if r.Some? {
        client.Close(r.value);
      }
      return held, false;
    }

    /** The fallback provider, asked last: whatever answers is the result. */
    method AskFallback(ghost tries: nat) returns (resp: Option<Response>)
      requires client.Valid() && Ledger(client.outcome, client.closes, None, tries, client.sent)
      modifies client
      ensures client.Valid() && client.sent == old(client.sent) + 1
      ensures Ledger(client.outcome, client.closes, resp, tries, old(client.sent))
      ensures var o := client.outcome(old(client.sent));
        resp == if o.Got? then Some(Response(old(client.sent), o.status)) else None
    {
      var r, neterr := client.Do();
      return if neterr then None else r;
    }

    /**
     The whole request. `chain` is the failover chain's provider names; `fallback` is the fallback
     provider with a resolved URL, if the fallback is enabled and one was selected.
     */
    method Execute(c: RetryConfig, chain: seq<string>, fallback: Option<string>)
      returns (resp: Option<Response>, status: int, err: bool, provider: string, ghost tries: nat, ghost fellBack: bool)
      requires client.Valid() && client.sent == 0 && lastResp == None && slept == []
      modifies this, client
      ensures client.Valid() && RetryStops(client.outcome, c, tries) && tries <= client.sent <= tries + |chain| + 1
      // Every answer received is closed once, or is the one returned and left open; a response that came
      // with an error is closed once, or twice if it came to the chain.
      ensures Ledger(client.outcome, client.closes, resp, tries, tries + |chain|) && Holds(client.outcome, client.sent, resp)
      ensures resp.Some? ==> status == resp.value.status && !err
      // A 2xx ends the request and is the result.
      ensures forall i :: 0 <= i < client.sent && Success(client.outcome(i)) ==> i == client.sent - 1 && resp.Some? && resp.value.id == i
      // Without a 2xx everything is tried, and the newest answer of the last try and the chain is the result.
      ensures !fellBack ==> NewestAnswer(client.outcome, tries, client.sent, resp)
      ensures (forall i :: 0 <= i < client.sent ==> !Success(client.outcome(i))) ==> tries + |chain| <= client.sent
      // The fallback is asked, once, when neither the last try nor the chain answered.
      ensures fellBack <==> fallback.Some? && tries > 0 && NewestAnswer(client.outcome, tries, tries + |chain|, None)
      ensures fellBack ==> client.sent == tries + |chain| + 1 && (resp.Some? ==> resp.value.id == client.sent - 1 && provider == fallback.value)
      ensures !fellBack ==> client.sent <= tries + |chain|
      // No response means no answer from anybody; it comes with an error unless the retry loop never ran.
      ensures resp == None ==> NewestAnswer(client.outcome, tries, client.sent, None) && status == 0
      ensures resp == None ==> (err <==> !(c.enabled && c.maxAttempts < 1))
    {
      fellBack := false;
      var attempts: nat;
      status, err, attempts := RetryWithBackoff(c);
      tries := attempts;
      if !err && lastResp.Some? && (|chain| == 0 || Is2xx(lastResp.value.status)) {
        return lastResp, lastResp.value.status, false, "", tries, false;
      }
      var won;
      resp, won, provider := TryChain(chain, tries, lastResp);
      if resp.Some? {
        return resp, resp.value.status, false, provider, tries, false;
      }
      if err && fallback.Some? {
        fellBack := true;
        resp := AskFallback(tries);
        if resp.Some? {
          return resp, resp.value.status, false, fallback.value, tries, true;
        }
      }
      return None, 0, err, "", tries, fellBack;
    }
  }

  /** `held` is the newest answer among the last of the tries, unless it failed, and the exchanges after it. */
  ghost predicate NewestAnswer(outcome: nat -> Outcome, tries: nat, n: nat, held: Option<Response>) {
    match held
    case Some(r) =>
      && tries - 1 <= r.id < n && outcome(r.id) == Got(r.status)
      && (r.id == tries - 1 ==> !Failed(outcome(r.id)))
      && forall i :: r.id < i < n ==> outcome(i).NetError?
    case None =>
      && (tries > 0 ==> Failed(outcome(tries - 1)))
      && forall i :: tries <= i < n ==> outcome(i).NetError?
  }
}
