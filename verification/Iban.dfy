/**
 The IBAN check (redactor/patterns.go): the number formed by the rearranged string, taken modulo 97,
 against the digit-by-digit fold of ISO/IEC 7064 MOD 97-10, with the errors it detects.
 */
module Iban {

  predicate IsDigit(c: char) { '0' <= c <= '9' }
  predicate IsLetter(c: char) { 'A' <= c <= 'Z' }
  predicate IsCode(c: char) { IsDigit(c) || IsLetter(c) }
  predicate AllCodes(s: string) { forall i :: 0 <= i < |s| ==> IsCode(s[i]) }

  /** A digit's value, or 10 to 35 for a letter. */
  function Code(c: char): (v: nat)
    requires IsCode(c)
    ensures if IsDigit(c) then v < 10 else 10 <= v < 36
  {
    if IsDigit(c) then c as int - '0' as int else c as int - 'A' as int + 10
  }

  function DigitChar(d: nat): char
    requires d < 10
  {
    '0' + d as char
  }

  /** The decimal digits a character contributes. */
  function Expand(c: char): string
    requires IsCode(c)
  {
    if IsDigit(c) then [c] else [DigitChar(Code(c) / 10), DigitChar(Code(c) % 10)]
  }

  function ExpandAll(s: string): (r: string)
    requires AllCodes(s)
    ensures forall i :: 0 <= i < |r| ==> IsDigit(r[i])
  {
    if s == [] then [] else ExpandAll(s[..|s| - 1]) + Expand(s[|s| - 1])
  }

  /** The number a decimal string denotes, of any length. */
  function BigNumber(s: string): nat
    requires forall i :: 0 <= i < |s| ==> IsDigit(s[i])
  {
    if s == [] then 0 else 10 * BigNumber(s[..|s| - 1]) + Code(s[|s| - 1])
  }

  function NoSpaces(s: string): string {
    if s == [] then [] else (if s[0] == ' ' then [] else [s[0]]) + NoSpaces(s[1..])
  }

  function Rearranged(s: string): string
    requires |s| >= 4
  {
    s[4..] + s[..4]
  }

  // ---- The reference: a running remainder, one character at a time ----

  function Base(c: char): nat { if IsDigit(c) then 10 else 100 }

  function Mod97(s: string): (r: nat)
    requires AllCodes(s)
    ensures r < 97
  {
    if s == [] then 0 else (Mod97(s[..|s| - 1]) * Base(s[|s| - 1]) + Code(s[|s| - 1])) % 97
  }

  predicate Valid(s: string) {
    var clean := NoSpaces(s);
    15 <= |clean| <= 34 && AllCodes(clean) && RemainderIsOne(clean)
  }

  predicate RemainderIsOne(clean: string)
    requires |clean| >= 4 && AllCodes(clean)
  {
    Mod97(Rearranged(clean)) == 1
  }

  /** The number of a string of codes: what the check takes the remainder of. */
  function Number(s: string): nat
    requires AllCodes(s)
  {
    if s == [] then 0 else Number(s[..|s| - 1]) * Base(s[|s| - 1]) + Code(s[|s| - 1])
  }

  lemma {:induction false} BigNumberAppend(s: string, c: char)
    requires (forall i :: 0 <= i < |s| ==> IsDigit(s[i])) && IsDigit(c)
    ensures BigNumber(s + [c]) == 10 * BigNumber(s) + Code(c)
  {
    assert (s + [c])[..|s|] == s;
  }

  lemma {:induction false} ExpandedIsNumber(s: string)
    requires AllCodes(s)
    ensures BigNumber(ExpandAll(s)) == Number(s)
  {
    if s != [] {
      var init, c := s[..|s| - 1], s[|s| - 1];
      ExpandedIsNumber(init);
      var e := ExpandAll(init);
      if IsDigit(c) {
        BigNumberAppend(e, c);
      } else {
        var hi, lo := DigitChar(Code(c) / 10), DigitChar(Code(c) % 10);
        BigNumberAppend(e, hi);
        BigNumberAppend(e + [hi], lo);
        assert ExpandAll(s) == (e + [hi]) + [lo];
      }
    }
  }

  lemma ModStep(n: nat, base: nat, v: nat)
    ensures ((n % 97) * base + v) % 97 == (n * base + v) % 97
  {
    var q, r := n / 97, n % 97;
    assert n * base + v == 97 * (q * base) + (r * base + v) by {
      assert n == 97 * q + r;
      assert n * base == (97 * q + r) * base == 97 * q * base + r * base;
    }
    AddMultiple(r * base + v, q * base);
  }

  lemma AddMultiple(x: int, k: int)
    ensures (97 * k + x) % 97 == x % 97
  {
  }

  lemma {:induction false} RemainderOfNumber(s: string)
    requires AllCodes(s)
    ensures Mod97(s) == Number(s) % 97
  {
    if s != [] {
      RemainderOfNumber(s[..|s| - 1]);
      ModStep(Number(s[..|s| - 1]), Base(s[|s| - 1]), Code(s[|s| - 1]));
    }
  }

  method ValidateIBAN(s: string) returns (ok: bool)
    ensures ok == Valid(s)
  {
    var clean := NoSpaces(s);
    var n := |clean|;
    if n < 15 || n > 34 {
      return false;
    }
    var rearranged := clean[4..] + clean[..4];
    RearrangedCodes(clean);
    var allCodes, numeric := ToNumeric(rearranged);
    if !allCodes {
      return false;
    }
    var bigNum := BigNumber(numeric);
    ExpandedIsNumber(rearranged);
    RemainderOfNumber(rearranged);
    return bigNum % 97 == 1;
  }

  /** The loop over the rearranged characters. */
  method ToNumeric(rearranged: string) returns (ok: bool, numeric: string)
    ensures ok <==> AllCodes(rearranged)
    ensures ok ==> numeric == ExpandAll(rearranged)
  {
    numeric := "";
    for i := 0 to |rearranged|
      invariant AllCodes(rearranged[..i]) && numeric == ExpandAll(rearranged[..i])
    {
      var ch := rearranged[i];
      if '0' <= ch <= '9' {
        numeric := numeric + [ch];
      } else if 'A' <= ch <= 'Z' {
        var val := ch as int - 'A' as int + 10;
        numeric := numeric + [DigitChar(val / 10), DigitChar(val % 10)];
      } else {
        return false, numeric;
      }
      ExpandNext(rearranged, i);
    }
    assert rearranged[..|rearranged|] == rearranged;
    ok := true;
  }

  lemma ExpandNext(s: string, i: nat)
    requires i < |s| && AllCodes(s[..i]) && IsCode(s[i])
    ensures AllCodes(s[..i + 1]) && ExpandAll(s[..i + 1]) == ExpandAll(s[..i]) + Expand(s[i])
  {
    var t := s[..i + 1];
    assert t[..|t| - 1] == s[..i];
    assert forall j :: 0 <= j < i ==> t[j] == s[..i][j];
  }

  lemma RearrangedCodes(clean: string)
    requires |clean| >= 4
    ensures AllCodes(clean) <==> AllCodes(Rearranged(clean))
  {
    var r := Rearranged(clean);
    assert forall i :: 0 <= i < |clean| ==> clean[i] == r[if i < 4 then |clean| - 4 + i else i - 4];
  }

  // ---- Check digits and spaces ----

  lemma {:induction false} NumberNext(s: string, c: char)
    requires AllCodes(s) && IsCode(c)
    ensures AllCodes(s + [c]) && Number(s + [c]) == Number(s) * Base(c) + Code(c)
  {
    assert (s + [c])[..|s|] == s;
  }

  lemma {:induction false} NoSpacesConcat(a: string, b: string)
    ensures NoSpaces(a + b) == NoSpaces(a) + NoSpaces(b)
  {
    if a == [] {
      assert a + b == b;
    } else {
      assert (a + b)[1..] == a[1..] + b;
      NoSpacesConcat(a[1..], b);
    }
  }

  /** Spaces may stand anywhere. */
  lemma {:induction false} SpacesDoNotMatter(a: string, b: string)
    ensures Valid(a + " " + b) <==> Valid(a + b)
  {
    NoSpacesConcat(a + " ", b);
    NoSpacesConcat(a, " ");
    NoSpacesConcat(a, b);
    assert " "[1..] == "";
    assert NoSpaces(a) + [] == NoSpaces(a);
  }

  lemma {:induction false} NothingToStrip(s: string)
    requires ' ' !in s
    ensures NoSpaces(s) == s
  {
    if s != [] {
      NothingToStrip(s[1..]);
    }
  }

  lemma Complement(y: nat, dd: nat)
    ensures (y + dd) % 97 == 1 <==> dd % 97 == (98 - y % 97) % 97
  {
    var r, s := y % 97, dd % 97;
    assert y + dd == 97 * (y / 97 + dd / 97) + (r + s);
    AddMultiple(r + s, y / 97 + dd / 97);
    SmallComplement(r, s);
  }

  lemma SmallComplement(r: nat, s: nat)
    requires r < 97 && s < 97
    ensures (r + s) % 97 == 1 <==> s == (98 - r) % 97
  {
  }

  lemma {:induction false} NumberOfCheckDigits(t: string, d: char, e: char)
    requires AllCodes(t) && IsDigit(d) && IsDigit(e)
    ensures AllCodes(t + [d, e]) && Number(t + [d, e]) == Number(t) * 100 + (10 * (d as int - '0' as int) + (e as int - '0' as int))
  {
    NumberNext(t, d);
    NumberNext(t + [d], e);
    assert t + [d, e] == (t + [d]) + [e];
  }

  /**
   The check digits of ISO 13616: behind the two-letter country, two digits complete the rest exactly if they
   are 98 less the remainder by 97 of the number of the account part, the country and two zeros (or differ
   from that by 97).
   */
  lemma {:induction false} ValidIffCheckDigits(country: string, d: char, e: char, account: string)
    requires |country| == 2 && IsDigit(d) && IsDigit(e) && AllCodes(country) && AllCodes(account) && 11 <= |account| <= 30
    ensures AllCodes(account + country + "00")
    ensures Valid(country + [d, e] + account) <==>
      (10 * (d as int - '0' as int) + (e as int - '0' as int)) % 97 == (98 - Number(account + country + "00") % 97) % 97
  {
    var s, t := country + [d, e] + account, account + country;
    NothingToStrip(s);
    assert AllCodes(s);
    assert Rearranged(s) == t + [d, e] by {
      assert s[4..] == account && s[..4] == country + [d, e];
    }
    NumberOfCheckDigits(t, d, e);
    NumberOfCheckDigits(t, '0', '0');
    assert account + country + "00" == t + ['0', '0'];
    RemainderOfNumber(t + [d, e]);
    Complement(Number(t) * 100, 10 * (d as int - '0' as int) + (e as int - '0' as int));
  }

  // ---- Detected errors ----

  function Shift(s: string): (p: nat)
    ensures p >= 1
  {
    if s == [] then 1 else Shift(s[..|s| - 1]) * Base(s[|s| - 1])
  }

  lemma {:induction false} NumberConcat(a: string, b: string)
    requires AllCodes(a) && AllCodes(b)
    ensures AllCodes(a + b) && Number(a + b) == Number(a) * Shift(b) + Number(b)
    decreases |b|
  {
    if b == [] {
      assert a + b == a;
    } else {
      var init, c := b[..|b| - 1], b[|b| - 1];
      assert (a + b)[..|a + b| - 1] == a + init;
      NumberConcat(a, init);
      Distribute(Number(a), Shift(init), Number(init), Base(c));
    }
  }

  lemma Distribute(x: int, p: int, y: int, b: int)
    ensures (x * p + y) * b == x * (p * b) + y * b
  {
  }

  lemma TimesTen(x: int)
    ensures (10 * x) % 97 == 0 <==> x % 97 == 0
  {
    if (10 * x) % 97 == 0 {
      var k := 10 * x / 97;
      assert 10 * x == 97 * k;
      assert x == 97 * (68 * k - 7 * x) + 0 * x;
    }
  }

  /** 97 is prime to every shift, so a shift never hides a difference. */
  lemma {:induction false} ShiftKeepsDifference(x: int, s: string)
    ensures (x * Shift(s)) % 97 == 0 <==> x % 97 == 0
  {
    if s != [] {
      var p := Shift(s[..|s| - 1]);
      ShiftKeepsDifference(x, s[..|s| - 1]);
      if Base(s[|s| - 1]) == 10 {
        assert x * (p * 10) == 10 * (x * p);
        TimesTen(x * p);
      } else {
        assert x * (p * 100) == 10 * (10 * (x * p));
        TimesTen(x * p);
        TimesTen(10 * (x * p));
      }
    }
  }

  lemma SameRemainderIff(m: int, n: int)
    ensures m % 97 == n % 97 <==> (m - n) % 97 == 0
  {
  }

  lemma TailDifference(x: int, y: int, p: int, tail: int)
    ensures (x * p + tail) - (y * p + tail) == (x - y) * p
  {
  }

  predicate Congruent(m: int, n: int) { (m - n) % 97 == 0 }

  /** The remainder of a number n followed by the characters of b. */
  function Followed(n: nat, b: string): nat
    requires AllCodes(b)
  {
    (n * Shift(b) + Number(b)) % 97
  }

  lemma {:induction false} FollowedByTail(x: string, b: string)
    requires AllCodes(x) && AllCodes(b)
    ensures AllCodes(x + b) && Mod97(x + b) == Followed(Number(x), b)
  {
    NumberConcat(x, b);
    RemainderOfNumber(x + b);
  }

  /** A common tail never hides a difference. */
  lemma SameTail(m: nat, n: nat, b: string)
    requires AllCodes(b)
    ensures Followed(m, b) == Followed(n, b) <==> Congruent(m, n)
  {
    var p, tail := Shift(b), Number(b);
    TailDifference(m, n, p, tail);
    SameRemainderIff(m * p + tail, n * p + tail);
    ShiftKeepsDifference(m - n, b);
  }

  lemma {:induction false} SameTailMod(x: string, y: string, b: string)
    requires AllCodes(x) && AllCodes(y) && AllCodes(b)
    ensures AllCodes(x + b) && AllCodes(y + b)
    ensures Mod97(x + b) == Mod97(y + b) <==> Congruent(Number(x), Number(y))
  {
    FollowedByTail(x, b);
    FollowedByTail(y, b);
    SameTail(Number(x), Number(y), b);
  }

  lemma {:induction false} HeadDifference(a: string, m: string, m': string)
    requires AllCodes(a) && AllCodes(m) && AllCodes(m') && Shift(m) == Shift(m')
    ensures AllCodes(a + m) && AllCodes(a + m')
    ensures Number(a + m) - Number(a + m') == Number(m) - Number(m')
  {
    NumberConcat(a, m);
    NumberConcat(a, m');
  }

  /** Two strings that differ only in a middle part of the same width. */
  lemma {:induction false} MiddleDecides(a: string, m: string, m': string, b: string)
    requires AllCodes(a) && AllCodes(m) && AllCodes(m') && AllCodes(b) && Shift(m) == Shift(m')
    ensures AllCodes(a + m + b) && AllCodes(a + m' + b)
    ensures Mod97(a + m + b) == Mod97(a + m' + b) <==> (Number(m) - Number(m')) % 97 == 0
  {
    HeadDifference(a, m, m');
    SameTailMod(a + m, a + m', b);
  }

  lemma NumberOfOne(c: char)
    requires IsCode(c)
    ensures AllCodes([c]) && Number([c]) == Code(c) && Shift([c]) == Base(c)
  {
    assert [c][..0] == [];
  }

  lemma NumberOfTwo(c: char, d: char)
    requires IsCode(c) && IsCode(d)
    ensures AllCodes([c, d]) && Number([c, d]) == Code(c) * Base(d) + Code(d) && Shift([c, d]) == Base(c) * Base(d)
  {
    assert [c, d][..1] == [c];
    NumberOfOne(c);
  }

  predicate SameClass(c: char, d: char) { (IsDigit(c) && IsDigit(d)) || (IsLetter(c) && IsLetter(d)) }

  lemma CodesDiffer(c: char, d: char)
    requires SameClass(c, d) && c != d
    ensures (Code(c) - Code(d)) % 97 != 0
  {
  }

  lemma {:induction false} ChangedMiddle(a: string, c: char, d: char, b: string)
    requires AllCodes(a) && AllCodes(b) && SameClass(c, d) && c != d
    ensures AllCodes(a + [c] + b) && AllCodes(a + [d] + b) && Mod97(a + [c] + b) != Mod97(a + [d] + b)
  {
    NumberOfOne(c);
    NumberOfOne(d);
    MiddleDecides(a, [c], [d], b);
    CodesDiffer(c, d);
  }

  lemma {:induction false} CodesAreNotSpaces(a: string, c: char, b: string)
    requires IsCode(c)
    ensures NoSpaces(a + [c] + b) == NoSpaces(a) + [c] + NoSpaces(b)
  {
    NoSpacesConcat(a + [c], b);
    NoSpacesConcat(a, [c]);
    assert NoSpaces([c]) == [c];
  }

  /** In a valid IBAN, however spaced, replacing a digit by a digit or a letter by a letter is detected. */
  lemma SameClassChangeDetected(a: string, c: char, d: char, b: string)
    requires SameClass(c, d) && c != d && Valid(a + [c] + b)
    ensures !Valid(a + [d] + b)
  {
    CodesAreNotSpaces(a, c, b);
    CodesAreNotSpaces(a, d, b);
    var p, q := NoSpaces(a), NoSpaces(b);
    CodesAround(p, [c], q);
    if |p| >= 4 {
      ChangeInBody(p, c, d, q);
    } else {
      ChangeInHead(p, c, d, q);
    }
  }

  lemma ChangeInBody(p: string, c: char, d: char, q: string)
    requires AllCodes(p) && AllCodes(q) && SameClass(c, d) && c != d && |p| >= 4
    ensures AllCodes(Rearranged(p + [c] + q)) && AllCodes(Rearranged(p + [d] + q))
    ensures Mod97(Rearranged(p + [c] + q)) != Mod97(Rearranged(p + [d] + q))
  {
    var l, r := p[4..], q + p[..4];
    assert Rearranged(p + [c] + q) == l + [c] + r;
    assert Rearranged(p + [d] + q) == l + [d] + r;
    ChangedMiddle(l, c, d, r);
  }

  lemma ChangeInHead(p: string, c: char, d: char, q: string)
    requires AllCodes(p) && AllCodes(q) && SameClass(c, d) && c != d && |p| < 4 <= |p| + 1 + |q|
    ensures AllCodes(Rearranged(p + [c] + q)) && AllCodes(Rearranged(p + [d] + q))
    ensures Mod97(Rearranged(p + [c] + q)) != Mod97(Rearranged(p + [d] + q))
  {
    var k := 3 - |p|;
    var l, r := q[k..] + p, q[..k];
    assert Rearranged(p + [c] + q) == l + [c] + r;
    assert Rearranged(p + [d] + q) == l + [d] + r;
    ChangedMiddle(l, c, d, r);
  }

  lemma CodesAround(a: string, m: string, b: string)
    requires AllCodes(a + m + b)
    ensures AllCodes(a) && AllCodes(m) && AllCodes(b)
  {
    var s := a + m + b;
    assert forall i :: 0 <= i < |a| ==> a[i] == s[i];
    assert forall i :: 0 <= i < |m| ==> m[i] == s[|a| + i];
    assert forall i :: 0 <= i < |b| ==> b[i] == s[|a| + |m| + i];
  }

  /** The digit-letter pairs whose exchange goes unnoticed. */
  predicate Blind(c: char, d: char) {
    (c == '1' && d == 'B') || (c == '2' && d == 'M') || (c == '3' && d == 'X')
  }

  lemma ExchangeDifference(c: char, d: char)
    requires IsCode(c) && IsCode(d)
    ensures (Code(c) * Base(d) + Code(d) - (Code(d) * Base(c) + Code(c))) % 97 == 0
      <==> c == d || Blind(c, d) || Blind(d, c)
  {
    var u: int, v: int := Code(c), Code(d);
    if IsDigit(c) && IsDigit(d) {
      TwoDigits(u, v);
    } else if IsLetter(c) && IsLetter(d) {
      TwoLetters(u, v);
    } else if IsDigit(c) {
      MixedPair(u, v);
      assert u * 100 + v - (v * 10 + u) == 99 * u - 9 * v;
    } else {
      MixedPair(v, u);
      assert u * 10 + v - (v * 100 + u) == -(99 * v - 9 * u);
    }
  }

  lemma TwoDigits(u: int, v: int)
    requires 0 <= u < 10 && 0 <= v < 10
    ensures (u * 10 + v - (v * 10 + u)) % 97 == 0 <==> u == v
  {
    assert u * 10 + v - (v * 10 + u) == 9 * (u - v);
  }

  lemma TwoLetters(u: int, v: int)
    requires 10 <= u < 36 && 10 <= v < 36
    ensures (u * 100 + v - (v * 100 + u)) % 97 == 0 <==> u == v
  {
    assert u * 100 + v - (v * 100 + u) == 97 * (u - v) + 2 * (u - v);
    AddMultiple(2 * (u - v), u - v);
  }

  lemma MixedPair(digit: int, letter: int)
    requires 0 <= digit < 10 <= letter < 36
    ensures (99 * digit - 9 * letter) % 97 == 0 <==> letter == 11 * digit
    ensures (-(99 * digit - 9 * letter)) % 97 == 0 <==> letter == 11 * digit
  {
    var r := 9 * letter - 2 * digit;
    AddMultiple(-r, digit);
    AddMultiple(r, -digit);
    assert 72 <= r <= 315;
    assert r % 97 == 0 <==> r == 97 || r == 194 || r == 291;
    assert (-r) % 97 == 0 <==> r % 97 == 0;
  }

  /**
   Exchanging two neighbours of the rearranged string of a valid IBAN goes unnoticed exactly for
   equal characters and for the pairs 1B, 2M and 3X; two unequal digits, or two unequal letters, are
   always caught.
   */
  lemma {:induction false} ExchangeDetectedIff(s: string, s': string, a: string, c: char, d: char, b: string)
    requires Valid(s) && Rearranged(NoSpaces(s)) == a + [c, d] + b
    requires |NoSpaces(s')| == |NoSpaces(s)| && Rearranged(NoSpaces(s')) == a + [d, c] + b
    ensures Valid(s') <==> c == d || Blind(c, d) || Blind(d, c)
  {
    var x, y := NoSpaces(s), NoSpaces(s');
    RearrangedCodes(x);
    RearrangedCodes(y);
    CodesAround(a, [c, d], b);
    assert [c, d][0] == c && [c, d][1] == d;
    NumberOfTwo(c, d);
    NumberOfTwo(d, c);
    assert Base(c) * Base(d) == Base(d) * Base(c);
    MiddleDecides(a, [c, d], [d, c], b);
    ExchangeDifference(c, d);
  }
}
