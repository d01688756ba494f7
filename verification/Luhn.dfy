/**
 The Luhn check of card numbers (redactor/patterns.go), against its check-digit formulation
 (ISO/IEC 7812-1, Annex B) and with the errors it detects characterised exactly.
 */
module Luhn {

  type Digit = d: int | 0 <= d < 10

  predicate IsDigit(c: char) { '0' <= c <= '9' }

  function Value(c: char): Digit
    requires IsDigit(c)
  {
    c as int - '0' as int
  }

  /** Everything that is not a digit is dropped, in particular spaces and dashes. */
  function DigitsOf(s: string): seq<Digit> {
    if s == [] then []
    else if IsDigit(s[0]) then [Value(s[0])] + DigitsOf(s[1..])
    else DigitsOf(s[1..])
  }

  /** The digit sum of 2 * d. */
  function Doubled(d: Digit): Digit { if 2 * d > 9 then 2 * d - 9 else 2 * d }

  function Weighted(d: Digit, alt: bool): Digit { if alt then Doubled(d) else d }

  /** Every second digit from the right is doubled; `alt` says whether the last one is. */
  function Sum(ds: seq<Digit>, alt: bool): nat {
    if ds == [] then 0 else Sum(ds[..|ds| - 1], !alt) + Weighted(ds[|ds| - 1], alt)
  }

  predicate Valid(s: string) {
    var ds := DigitsOf(s);
    13 <= |ds| <= 19 && Sum(ds, false) % 10 == 0
  }

  method ValidateLuhn(s: string) returns (ok: bool)
    ensures ok == Valid(s)
  {
    var digits := DigitsOf(s);
    var n := |digits|;
    if n < 13 || n > 19 {
      return false;
    }
    var sum := 0;
    var alt := false;
    var i := n - 1;
    assert digits[..n] == digits;
    while i >= 0
      invariant -1 <= i < n
      invariant sum + Sum(digits[..i + 1], alt) == Sum(digits, false)
    {
      var d: int := digits[i];
      if alt {
        d := d * 2;
        if d > 9 {
          d := d - 9;
        }
      }
      assert digits[..i + 1][..i] == digits[..i];
      sum := sum + d;
      alt := !alt;
      i := i - 1;
    }
    return sum % 10 == 0;
  }

  // ---- The check digit ----

  /** The digit that completes a payload. */
  function CheckDigit(payload: seq<Digit>): Digit { (10 - Sum(payload, true) % 10) % 10 }

  /** A number is valid exactly when its last digit is the check digit of the rest. */
  lemma {:induction false} ValidIffCheckDigit(s: string)
    ensures var ds := DigitsOf(s); var n := |ds|;
      Valid(s) <==> 13 <= n <= 19 && ds[n - 1] == CheckDigit(ds[..n - 1])
  {
    var ds := DigitsOf(s);
    if ds != [] {
      assert Sum(ds, false) == Sum(ds[..|ds| - 1], true) + ds[|ds| - 1];
      Completes(Sum(ds[..|ds| - 1], true), ds[|ds| - 1]);
    }
  }

  lemma Completes(rest: nat, d: Digit)
    ensures (rest + d) % 10 == 0 <==> d == (10 - rest % 10) % 10
  {
  }

  // ---- Separators ----

  lemma {:induction false} DigitsConcat(a: string, b: string)
    ensures DigitsOf(a + b) == DigitsOf(a) + DigitsOf(b)
  {
    if a == [] {
      assert a + b == b;
    } else {
      assert (a + b)[1..] == a[1..] + b;
      DigitsConcat(a[1..], b);
    }
  }

  predicate NoDigits(s: string) { forall i :: 0 <= i < |s| ==> !IsDigit(s[i]) }

  lemma {:induction false} NoDigitsNothing(s: string)
    requires NoDigits(s)
    ensures DigitsOf(s) == []
  {
    if s != [] {
      NoDigitsNothing(s[1..]);
    }
  }

  /** Separators may be inserted anywhere without changing the verdict. */
  lemma SeparatorsDoNotMatter(a: string, separator: string, b: string)
    requires NoDigits(separator)
    ensures Valid(a + separator + b) <==> Valid(a + b)
  {
    DigitsConcat(a + separator, b);
    DigitsConcat(a, separator);
    DigitsConcat(a, b);
    NoDigitsNothing(separator);
    assert DigitsOf(a) + [] == DigitsOf(a);
  }

  // ---- Detected errors ----

  function Odd(n: nat): bool { n % 2 == 1 }

  lemma {:induction false} SumConcat(a: seq<Digit>, b: seq<Digit>, alt: bool)
    ensures Sum(a + b, alt) == Sum(a, alt != Odd(|b|)) + Sum(b, alt)
    decreases |b|
  {
    if b == [] {
      assert a + b == a;
    } else {
      var last := |b| - 1;
      assert (a + b)[..|a + b| - 1] == a + b[..last];
      SumConcat(a, b[..last], !alt);
    }
  }

  /** The sum of a number with a middle part m: only m's own sum depends on m. */
  lemma {:induction false} SumAround(a: seq<Digit>, m: seq<Digit>, b: seq<Digit>)
    ensures Sum(a + m + b, false)
      == Sum(a, Odd(|b|) != Odd(|m|)) + Sum(m, Odd(|b|)) + Sum(b, false)
  {
    SumConcat(a + m, b, false);
    SumConcat(a, m, Odd(|b|));
  }

  lemma {:induction false} SumOfOne(x: Digit, alt: bool)
    ensures Sum([x], alt) == Weighted(x, alt)
  {
    assert [x][..0] == [];
  }

  lemma {:induction false} SumOfTwo(x: Digit, y: Digit, alt: bool)
    ensures Sum([x, y], alt) == Weighted(x, !alt) + Weighted(y, alt)
  {
    assert [x, y][..1] == [x];
    SumOfOne(x, !alt);
  }

  lemma WeightedInjective(x: Digit, y: Digit, alt: bool)
    requires x != y
    ensures Weighted(x, alt) != Weighted(y, alt)
  {
  }

  lemma DigitsDiffer(p: Digit, q: Digit, r: int, s: int)
    requires p != q
    ensures (r + p + s) % 10 != (r + q + s) % 10
  {
  }

  lemma SameRemainder(p: int, q: int, r: int)
    ensures (r + p) % 10 == (r + q) % 10 <==> (p - q) % 10 == 0
  {
  }

  /** In a valid number, with any separators, changing one digit is always detected. */
  lemma SingleDigitChangeDetected(a: string, x: char, y: char, b: string)
    requires IsDigit(x) && IsDigit(y) && x != y && Valid(a + [x] + b)
    ensures !Valid(a + [y] + b)
  {
    DigitsAround(a, [x], b);
    DigitsAround(a, [y], b);
    assert DigitsOf([x]) == [Value(x)] && DigitsOf([y]) == [Value(y)];
    ChangedDigitChangesSum(DigitsOf(a), Value(x), Value(y), DigitsOf(b));
  }

  lemma {:induction false} ChangedDigitChangesSum(p: seq<Digit>, x: Digit, y: Digit, q: seq<Digit>)
    requires x != y
    ensures Sum(p + [x] + q, false) % 10 != Sum(p + [y] + q, false) % 10
  {
    var alt := Odd(|q|);
    SumAround(p, [x], q);
    SumAround(p, [y], q);
    SumOfOne(x, alt);
    SumOfOne(y, alt);
    WeightedInjective(x, y, alt);
    DigitsDiffer(Weighted(x, alt), Weighted(y, alt), Sum(p, alt != Odd(1)), Sum(q, false));
  }

  lemma {:induction false} DigitsAround(a: string, m: string, b: string)
    ensures DigitsOf(a + m + b) == DigitsOf(a) + DigitsOf(m) + DigitsOf(b)
  {
    DigitsConcat(a + m, b);
    DigitsConcat(a, m);
  }

  predicate Blind(x: Digit, y: Digit) { x == y || (x == 0 && y == 9) || (x == 9 && y == 0) }

  /** 0 and 9 are the only unequal digits whose exchange keeps the weighted sum. */
  lemma SwapKeepsWeights(x: Digit, y: Digit, alt: bool)
    ensures (Weighted(x, !alt) + Weighted(y, alt) - (Weighted(y, !alt) + Weighted(x, alt))) % 10 == 0 <==> Blind(x, y)
  {
  }

  lemma {:induction false} SwapKeepsSumIff(p: seq<Digit>, x: Digit, y: Digit, q: seq<Digit>)
    ensures Sum(p + [x, y] + q, false) % 10 == Sum(p + [y, x] + q, false) % 10 <==> Blind(x, y)
  {
    var alt := Odd(|q|);
    SumAround(p, [x, y], q);
    SumAround(p, [y, x], q);
    SumOfTwo(x, y, alt);
    SumOfTwo(y, x, alt);
    SwapKeepsWeights(x, y, alt);
    SameRemainder(Sum([x, y], alt), Sum([y, x], alt), Sum(p, alt) + Sum(q, false));
  }

  /**
   In a valid number, exchanging two neighbouring digits, separators between them allowed, is
   detected except when they are equal or are 0 and 9.
   */
  lemma SwapDetectedIff(a: string, x: char, separator: string, y: char, b: string)
    requires IsDigit(x) && IsDigit(y) && NoDigits(separator)
    requires Valid(a + ([x] + separator + [y]) + b)
    ensures Valid(a + ([y] + separator + [x]) + b) <==> x == y || {x, y} == {'0', '9'}
  {
    PairDigits(x, separator, y);
    PairDigits(y, separator, x);
    DigitsAround(a, [x] + separator + [y], b);
    DigitsAround(a, [y] + separator + [x], b);
    SwapKeepsSumIff(DigitsOf(a), Value(x), Value(y), DigitsOf(b));
    SamePair(x, y);
  }

  lemma SamePair(x: char, y: char)
    ensures {x, y} == {'0', '9'} <==> (x == '0' && y == '9') || (x == '9' && y == '0')
  {
    assert '0' in {'0', '9'} && '9' in {'0', '9'};
    assert x in {x, y} && y in {x, y};
  }

  lemma {:induction false} PairDigits(x: char, separator: string, y: char)
    requires IsDigit(x) && IsDigit(y) && NoDigits(separator)
    ensures DigitsOf([x] + separator + [y]) == [Value(x), Value(y)]
  {
    DigitsAround([x], separator, [y]);
    NoDigitsNothing(separator);
    assert DigitsOf([x]) == [Value(x)] && DigitsOf([y]) == [Value(y)];
  }
}
