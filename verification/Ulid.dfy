/** The public id of a report (submit.ts): ten base-32 digits of the millisecond clock, then sixteen random ones. */
module Ulid {
  import opened Prelude

  type Digit = d: int | 0 <= d < 32

  /** Crockford's alphabet: the digits, and the capitals without I, L, O and U. */
  function Symbol(d: Digit): char {
    if d < 10 then '0' + d as char
    else if d < 18 then 'A' + (d - 10) as char
    else if d < 20 then 'J' + (d - 18) as char
    else if d < 22 then 'M' + (d - 20) as char
    else if d < 27 then 'P' + (d - 22) as char
    else 'V' + (d - 27) as char
  }

  lemma SymbolIsCrockford(d: Digit)
    ensures Symbol(d) == "0123456789ABCDEFGHJKMNPQRSTVWXYZ"[d]
  {
  }

  lemma SymbolsAreOrdered(j: Digit, k: Digit)
    ensures j < k <==> Symbol(j) < Symbol(k)
  {
  }

  function Pow32(n: nat): (p: nat)
    ensures p > 0
  {
    if n == 0 then 1 else 32 * Pow32(n - 1)
  }

  /** The last `length` digits of a number, the most significant one first. */
  function Digits(value: nat, length: nat): (r: seq<Digit>)
    ensures |r| == length
  {
    if length == 0 then [] else Digits(value / 32, length - 1) + [value % 32]
  }

  function Symbols(digits: seq<Digit>): (s: string)
    ensures |s| == |digits|
  {
    seq(|digits|, i requires 0 <= i < |digits| => Symbol(digits[i]))
  }

  function Encoded(value: nat, length: nat): string {
    Symbols(Digits(value, length))
  }

  lemma SymbolsConcat(a: seq<Digit>, b: seq<Digit>)
    ensures Symbols(a + b) == Symbols(a) + Symbols(b)
  {
  }

  method EncodeBase32(value: nat, length: nat) returns (out: string)
    ensures out == Encoded(value, length)
  {
    out := "";
    var rest := value;
    for i := 0 to length
      invariant Encoded(value, length) == Encoded(rest, length - i) + out
    {
      SymbolsConcat(Digits(rest / 32, length - i - 1), [rest % 32]);
      out := [Symbol(rest % 32)] + out;
      rest := rest / 32;
    }
  }

  /** The number some digits stand for. */
  function Value(digits: seq<Digit>): nat {
    if digits == [] then 0 else 32 * Value(digits[..|digits| - 1]) + digits[|digits| - 1]
  }

  lemma ModSplit(value: nat, p: nat)
    requires p > 0
    ensures value % (32 * p) == 32 * (value / 32 % p) + value % 32
  {
    var high := value / 32 / p;
    var mid := value / 32 % p;
    assert value / 32 == p * high + mid;
    assert value == (32 * p) * high + (32 * mid + value % 32) by {
      assert 32 * (p * high) == (32 * p) * high;
    }
    RemainderIsUnique(value, 32 * p, high, 32 * mid + value % 32);
  }

  lemma MulMonotone(n: nat, a: int, b: int)
    requires a <= b
    ensures n * a <= n * b
  {
  }

  lemma Cancel(n: nat, a: int, b: int)
    requires n * a < n * b
    ensures a < b
  {
    if b <= a { MulMonotone(n, b, a); }
  }

  lemma RemainderIsUnique(value: nat, n: nat, q: nat, r: nat)
    requires n > 0 && r < n && value == n * q + r
    ensures value % n == r
  {
    var quotient := value / n;
    assert value == n * quotient + value % n;
    assert n * quotient < n * (q + 1) && n * q < n * (quotient + 1) by {
      assert n * (q + 1) == n * q + n && n * (quotient + 1) == n * quotient + n;
    }
    Cancel(n, quotient, q + 1);
    Cancel(n, q, quotient + 1);
  }

  /** Reading the digits back gives the number below 32^length that the value is congruent to. */
  lemma {:induction false} DigitsReadBack(value: nat, length: nat)
    ensures Value(Digits(value, length)) == value % Pow32(length)
  {
    if length > 0 {
      DigitsReadBack(value / 32, length - 1);
      ModSplit(value, Pow32(length - 1));
      assert Digits(value, length)[..length - 1] == Digits(value / 32, length - 1);
    }
  }

  lemma {:induction false} ValueBound(digits: seq<Digit>)
    ensures Value(digits) < Pow32(|digits|)
  {
    if digits != [] { ValueBound(digits[..|digits| - 1]); }
  }

  /** `a` comes before `b` at the first place where they differ. */
  predicate LexLess(a: string, b: string)
    requires |a| == |b|
  {
    a != "" && (LexLess(a[..|a| - 1], b[..|b| - 1]) || (a[..|a| - 1] == b[..|b| - 1] && a[|a| - 1] < b[|b| - 1]))
  }

  lemma {:induction false} SymbolsCompareAsValues(a: seq<Digit>, b: seq<Digit>)
    requires |a| == |b|
    ensures LexLess(Symbols(a), Symbols(b)) <==> Value(a) < Value(b)
    ensures Symbols(a) == Symbols(b) <==> Value(a) == Value(b)
  {
    if a != [] {
      var fa, fb := a[..|a| - 1], b[..|b| - 1];
      SymbolsCompareAsValues(fa, fb);
      SymbolsAreOrdered(a[|a| - 1], b[|b| - 1]);
      SymbolsAreOrdered(b[|b| - 1], a[|a| - 1]);
      assert Symbols(a)[..|a| - 1] == Symbols(fa) && Symbols(b)[..|b| - 1] == Symbols(fb);
      assert Symbols(a) == Symbols(fa) + [Symbol(a[|a| - 1])];
      assert Symbols(b) == Symbols(fb) + [Symbol(b[|b| - 1])];
    }
  }

  /** The text orders and identifies numbers modulo 32^length; so numbers below that bound exactly. */
  lemma TextOrderIsNumericOrder(v: nat, w: nat, length: nat)
    ensures LexLess(Encoded(v, length), Encoded(w, length)) <==> v % Pow32(length) < w % Pow32(length)
    ensures Encoded(v, length) == Encoded(w, length) <==> v % Pow32(length) == w % Pow32(length)
    ensures v < Pow32(length) && w < Pow32(length) ==>
      (LexLess(Encoded(v, length), Encoded(w, length)) <==> v < w) && (Encoded(v, length) == Encoded(w, length) <==> v == w)
  {
    SymbolsCompareAsValues(Digits(v, length), Digits(w, length));
    DigitsReadBack(v, length);
    DigitsReadBack(w, length);
    if v < Pow32(length) && w < Pow32(length) {
      RemainderIsUnique(v, Pow32(length), 0, v);
      RemainderIsUnique(w, Pow32(length), 0, w);
    }
  }

  /** One past the last ten-digit number, the text starts again from the bottom. */
  lemma ClockWrapsAtTenDigits()
    ensures Pow32(10) == 0x4_0000_0000_0000
    ensures Encoded(Pow32(10), 10) == Encoded(0, 10)
  {
    assert Pow32(5) == 0x200_0000;
    assert Pow32(6) == 32 * Pow32(5) && Pow32(7) == 32 * Pow32(6) && Pow32(8) == 32 * Pow32(7);
    assert Pow32(9) == 32 * Pow32(8) && Pow32(10) == 32 * Pow32(9);
    TextOrderIsNumericOrder(Pow32(10), 0, 10);
    RemainderIsUnique(Pow32(10), Pow32(10), 1, 0);
  }

  lemma {:induction false} LexLessExtends(a: string, b: string, x: string, y: string)
    requires |a| == |b| && |x| == |y| && LexLess(a, b)
    ensures LexLess(a + x, b + y)
    decreases |x|
  {
    if x == "" {
      assert a + x == a && b + y == b;
    } else {
      LexLessExtends(a, b, x[..|x| - 1], y[..|y| - 1]);
      assert (a + x)[..|a + x| - 1] == a + x[..|x| - 1];
      assert (b + y)[..|b + y| - 1] == b + y[..|y| - 1];
    }
  }

  /** Ids minted in different milliseconds sort by their milliseconds, whatever their random parts. */
  lemma IdsSortByCreation(earlier: nat, later: nat, random: string, otherRandom: string)
    requires earlier < later < Pow32(10) && |random| == |otherRandom|
    ensures LexLess(Encoded(earlier, 10) + random, Encoded(later, 10) + otherRandom)
  {
    TextOrderIsNumericOrder(earlier, later, 10);
    LexLessExtends(Encoded(earlier, 10), Encoded(later, 10), random, otherRandom);
  }
}
