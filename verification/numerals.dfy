/** Positional numerals, most significant digit first. */
module Numerals {

  function Pow(b: nat, e: nat): (p: nat)
    ensures b > 0 ==> p > 0
  {
    if e == 0 then 1 else Times(b, Pow(b, e - 1))
  }

  /** Multiplication under a name, so that proofs can leave it alone. */
  function Times(a: nat, b: nat): (p: nat)
    ensures a > 0 && b > 0 ==> p > 0
  {
    MulPositive(a, b);
    a * b
  }

  lemma MulPositive(a: nat, b: nat)
    ensures a * b >= 0 && (a > 0 && b > 0 ==> a * b > 0)
  {
  }

  // Division under names, for the same reason.
  function Quot(n: nat, d: nat): nat requires d > 0 { n / d }

  function Rem(n: nat, d: nat): (r: nat)
    requires d > 0
    ensures r < d
  {
    n % d
  }

  predicate IsNumeral(ds: seq<nat>, base: nat) { forall i :: 0 <= i < |ds| ==> ds[i] < base }

  function Value(ds: seq<nat>, base: nat): nat {
    if ds == [] then 0 else Times(Value(ds[..|ds| - 1], base), base) + ds[|ds| - 1]
  }

  function Digits(n: nat, base: nat): (ds: seq<nat>)
    requires base >= 2
    ensures IsNumeral(ds, base)
    ensures ds != [] ==> ds[0] != 0
    ensures ds == [] <==> n == 0
  {
    if n == 0 then [] else
      DivSmaller(n, base);
      if n < base then [n] else Digits(Quot(n, base), base) + [Rem(n, base)]
  }

  lemma Multiples(x: int, d: int)
    requires d > 0
    ensures (x >= 1 ==> x * d >= d) && (x <= -1 ==> x * d <= -d)
  {
    if x >= 1 { assert (x - 1) * d >= 0; }
    if x <= -1 { assert (-1 - x) * d >= 0; }
  }

  lemma QuotientUnique(n: int, d: int, q: int, r: int)
    requires d > 0 && n == q * d + r && 0 <= r < d
    ensures n / d == q && n % d == r
  {
    var q', r' := n / d, n % d;
    assert n == d * q' + r';
    assert (q - q') * d == r' - r by { assert (q - q') * d == q * d - q' * d; }
    Multiples(q - q', d);
  }

  lemma DivSmaller(n: nat, base: nat)
    requires base >= 2
    ensures n > 0 ==> Quot(n, base) < n
    ensures n == Times(Quot(n, base), base) + Rem(n, base)
    ensures n < base ==> Quot(n, base) == 0 && Rem(n, base) == n
    ensures n >= base ==> Quot(n, base) > 0
  {
    var q, r := n / base, n % base;
    assert n == q * base + r;
    MulAtMost(2, base, q);
    assert q * base == base * q;
    if n < base { QuotientUnique(n, base, 0, n); }
  }

  lemma DivModUnique(q: nat, r: nat, base: nat)
    requires base >= 2 && r < base
    ensures Quot(Times(q, base) + r, base) == q && Rem(Times(q, base) + r, base) == r
  {
    QuotientUnique(Times(q, base) + r, base, q, r);
  }

  lemma {:induction false} ValueOfDigits(n: nat, base: nat)
    requires base >= 2
    ensures Value(Digits(n, base), base) == n
  {
    if n > 0 {
      DivSmaller(n, base);
      if n < base {
        assert Value([n], base) == Times(Value([], base), base) + n;
      } else {
        var front := Digits(Quot(n, base), base);
        ValueOfDigits(Quot(n, base), base);
        assert (front + [Rem(n, base)])[..|front|] == front;
      }
    }
  }

  lemma {:induction false} ValuePositive(ds: seq<nat>, base: nat)
    requires base >= 2 && ds != [] && ds[0] != 0
    ensures Value(ds, base) > 0
  {
    if |ds| > 1 { ValuePositive(ds[..|ds| - 1], base); }
  }

  /** A numeral without leading zeros is the one its value is written as. */
  lemma {:induction false} DigitsOfValue(ds: seq<nat>, base: nat)
    requires base >= 2 && IsNumeral(ds, base) && (ds != [] ==> ds[0] != 0)
    ensures Digits(Value(ds, base), base) == ds
  {
    if ds != [] {
      var front, last := ds[..|ds| - 1], ds[|ds| - 1];
      var q := Value(front, base);
      DigitsOfValue(front, base);
      DivModUnique(q, last, base);
      ValuePositive(ds, base);
      assert ds == front + [last];
      if front != [] {
        ValuePositive(front, base);
        DivSmaller(Value(ds, base), base);
      } else {
        assert Value(ds, base) == last;
      }
    }
  }

  function Zeros(k: nat): (z: seq<nat>)
    ensures |z| == k && forall i :: 0 <= i < k ==> z[i] == 0
  {
    seq(k, _ => 0)
  }

  lemma {:induction false} ZerosInFront(k: nat, ds: seq<nat>, base: nat)
    ensures Value(Zeros(k) + ds, base) == Value(ds, base)
    decreases |ds| + k
  {
    var all := Zeros(k) + ds;
    if ds != [] {
      assert all[..|all| - 1] == Zeros(k) + ds[..|ds| - 1];
      ZerosInFront(k, ds[..|ds| - 1], base);
    } else if k > 0 {
      assert all[..|all| - 1] == Zeros(k - 1) + ds;
      ZerosInFront(k - 1, ds, base);
    }
  }

  /** How many zeros a numeral starts with. */
  function Leading(ds: seq<nat>): (k: nat)
    ensures k <= |ds| && (k < |ds| ==> ds[k] != 0)
  {
    if ds == [] || ds[0] != 0 then 0 else 1 + Leading(ds[1..])
  }

  lemma {:induction false} LeadingIsZero(ds: seq<nat>, i: nat)
    requires i < Leading(ds)
    ensures ds[i] == 0
  {
    if i > 0 { LeadingIsZero(ds[1..], i - 1); }
  }

  lemma LeadingZeros(ds: seq<nat>)
    ensures ds == Zeros(Leading(ds)) + ds[Leading(ds)..]
  {
    var k := Leading(ds);
    forall i | 0 <= i < k ensures ds[i] == 0 { LeadingIsZero(ds, i); }
    assert ds[..k] == Zeros(k);
  }

  lemma {:induction false} LeadingOf(k: nat, ds: seq<nat>)
    requires ds != [] ==> ds[0] != 0
    ensures Leading(Zeros(k) + ds) == k
  {
    var all := Zeros(k) + ds;
    if k > 0 {
      assert all[1..] == Zeros(k - 1) + ds;
      LeadingOf(k - 1, ds);
    }
  }

  // ---- numerals of a fixed length ----

  /** The last `length` digits of `n`. */
  function Last(n: nat, length: nat, base: nat): (ds: seq<nat>)
    requires base >= 2
    ensures |ds| == length && IsNumeral(ds, base)
  {
    if length == 0 then [] else DivSmaller(n, base); Last(Quot(n, base), length - 1, base) + [Rem(n, base)]
  }

  /** A numeral is determined by its length and value. */
  lemma {:induction false} LastOfValue(ds: seq<nat>, base: nat)
    requires base >= 2 && IsNumeral(ds, base)
    ensures Last(Value(ds, base), |ds|, base) == ds
  {
    if ds != [] {
      var front, last := ds[..|ds| - 1], ds[|ds| - 1];
      LastOfValue(front, base);
      DivModUnique(Value(front, base), last, base);
      assert ds == front + [last];
    }
  }

  /** Keeping `length` digits keeps the value exactly if it fits. */
  lemma {:induction false} ValueOfLast(n: nat, length: nat, base: nat)
    requires base >= 2
    ensures n < Pow(base, length) ==> Value(Last(n, length, base), base) == n
    ensures n >= Pow(base, length) ==> Value(Last(n, length, base), base) < n
  {
    hide Times;
    hide Quot;
    hide Rem;
    var ds := Last(n, length, base);
    if length > 0 {
      var q := Quot(n, base);
      DivSmaller(n, base);
      ValueOfLast(q, length - 1, base);
      var front := Last(q, length - 1, base);
      assert ds[..|ds| - 1] == front;
      Scaled(q, Rem(n, base), Pow(base, length - 1), base, Value(front, base));
    }
  }

  lemma Scaled(q: nat, r: nat, p: nat, base: nat, v: nat)
    requires r < base
    ensures Times(q, base) + r < Times(base, p) <==> q < p
    ensures v < q ==> Times(v, base) < Times(q, base)
  {
    if q < p { MulAtMost(q + 1, p, base); } else { MulAtMost(p, q, base); }
    if v < q { MulAtMost(v + 1, q, base); }
  }

  lemma MulAtMost(a: nat, b: nat, c: nat)
    requires a <= b
    ensures a * c <= b * c
  {
  }

  lemma DivDiv(n: nat, a: nat, b: nat)
    requires a > 0 && b > 0
    ensures Quot(Quot(n, a), b) == Quot(n, Times(a, b))
  {
    var m := n / a;
    var q, r1, r2 := m / b, n % a, m % b;
    assert n == a * m + r1;
    assert m == b * q + r2;
    Nested(n, a, b, m, q, r1, r2);
    QuotientUnique(n, a * b, q, a * r2 + r1);
  }

  lemma Nested(n: nat, a: nat, b: nat, m: nat, q: nat, r1: nat, r2: nat)
    requires n == a * m + r1 && m == b * q + r2 && r1 < a && r2 < b
    ensures n == q * (a * b) + (a * r2 + r1) && 0 <= a * r2 + r1 < a * b
  {
    assert a * m == a * (b * q) + a * r2;
    assert a * (b * q) == q * (a * b);
    MulAtMost(r2 + 1, b, a);
    assert (r2 + 1) * a == a * r2 + a;
    assert b * a == a * b;
  }

  /** Digit `k`, counted from the end, by shifting. */
  lemma {:induction false} LastAt(n: nat, length: nat, base: nat, k: nat)
    requires base >= 2 && k < length
    ensures Last(n, length, base)[length - 1 - k] == Rem(Quot(n, Pow(base, k)), base)
  {
    hide Times;
    hide Rem;
    if k == 0 {
      assert Quot(n, 1) == n;
    } else {
      hide Quot;
      LastAt(Quot(n, base), length - 1, base, k - 1);
      DivDiv(n, base, Pow(base, k - 1));
    }
  }
}
