/** Big-endian numerals in any base, shared by the byte codecs, the hashcash and the base-62 ids. */
module Positional {

  type Byte = b: int | 0 <= b < 256
  type Bytes = seq<Byte>

  predicate IsNumeral(base: nat, ds: seq<int>) {
    forall k :: 0 <= k < |ds| ==> 0 <= ds[k] < base
  }

  function Pow(base: nat, n: nat): (p: nat)
    ensures 0 < base ==> 0 < p
  {
    if n == 0 then 1 else base * Pow(base, n - 1)
  }

  function Value(base: nat, ds: seq<int>): int {
    if ds == [] then 0 else Value(base, ds[..|ds| - 1]) * base + ds[|ds| - 1]
  }

  /** The last `n` digits of `v`. */
  function Numeral(base: nat, v: nat, n: nat): (ds: seq<int>)
    requires 0 < base
    ensures |ds| == n && IsNumeral(base, ds)
    decreases n, v
  {
    if n == 0 then []
    else
      Division(v, base);
      Numeral(base, v / base, n - 1) + [v % base]
  }

  lemma Division(v: nat, base: nat)
    requires 0 < base
    ensures 0 <= v / base && 0 <= v % base < base && v == (v / base) * base + v % base
  {
  }

  lemma BelowProduct(x: nat, p: nat, base: nat, d: nat)
    requires d < base
    ensures x < p <==> x * base + d < base * p
  {
    if x < p {
      assert (x + 1) * base <= p * base;
    } else {
      assert x * base >= p * base;
    }
  }

  lemma {:induction false} ValueBounds(base: nat, ds: seq<int>)
    requires 0 < base && IsNumeral(base, ds)
    ensures 0 <= Value(base, ds) < Pow(base, |ds|)
  {
    if ds != [] {
      var front := ds[..|ds| - 1];
      ValueBounds(base, front);
      BelowProduct(Value(base, front), Pow(base, |ds| - 1), base, ds[|ds| - 1]);
    }
  }

  /** Writing the value back gives the same digits. */
  lemma {:induction false} NumeralOfValue(base: nat, ds: seq<int>)
    requires 0 < base && IsNumeral(base, ds)
    ensures Value(base, ds) >= 0 && Numeral(base, Value(base, ds), |ds|) == ds
  {
    ValueBounds(base, ds);
    if ds != [] {
      var front, last := ds[..|ds| - 1], ds[|ds| - 1];
      ValueBounds(base, front);
      NumeralOfValue(base, front);
      DivideDigit(base, Value(base, front), last);
      assert ds == front + [last];
    }
  }

  lemma DivideDigit(base: nat, q: nat, d: nat)
    requires d < base
    ensures (q * base + d) / base == q && (q * base + d) % base == d
  {
    var v := q * base + d;
    Division(v, base);
    BelowProduct(q, v / base, base, d);
    BelowProduct(v / base, q, base, v % base);
  }

  // ----- Remainders -----

  /** `v % m`, by repeated subtraction. */
  function Remainder(v: nat, m: nat): (r: nat)
    requires 0 < m
    ensures r < m
    decreases v
  {
    if v < m then v else Remainder(v - m, m)
  }

  lemma {:induction false} RemainderIsModulo(v: nat, m: nat)
    requires 0 < m
    ensures Remainder(v, m) == v % m
    decreases v
  {
    if v < m {
      SmallModulo(v, m);
    } else {
      RemainderIsModulo(v - m, m);
      OneMore(v - m, m);
    }
  }

  lemma SmallModulo(v: nat, m: nat)
    requires v < m
    ensures v % m == v
  {
    DivideDigit(m, 0, v);
  }

  lemma OneMore(v: nat, m: nat)
    requires 0 < m
    ensures (v + m) % m == v % m
  {
    Division(v, m);
    assert v + m == (v / m + 1) * m + v % m;
    DivideDigit(m, v / m + 1, v % m);
  }

  lemma {:induction false} MultipleVanishes(x: nat, m: nat, v: nat)
    requires 0 < m
    ensures Remainder(x * m + v, m) == Remainder(v, m)
    decreases x
  {
    if x > 0 {
      MultipleVanishes(x - 1, m, v);
      assert x * m + v - m == (x - 1) * m + v;
      assert x * m >= m;
    }
  }

  /** The remainder by a multiple of the base keeps the last digit. */
  lemma {:induction false} SplitRemainder(base: nat, m: nat, v: nat, d: nat)
    requires d < base && 0 < m
    ensures base * m > 0
    ensures Remainder(v * base + d, base * m) == Remainder(v, m) * base + d
    decreases v
  {
    BelowProduct(v, m, base, d);
    if v >= m {
      SplitRemainder(base, m, v - m, d);
      assert v * base + d - base * m == (v - m) * base + d;
    }
  }

  /** Adding may be done before or after taking the remainder. */
  lemma {:induction false} RemainderStep(v: nat, k: nat, m: nat)
    requires 0 < m
    ensures Remainder(Remainder(v, m) + k, m) == Remainder(v + k, m)
    decreases v
  {
    if v >= m {
      RemainderStep(v - m, k, m);
    }
  }

  /** Writing a number with `n` digits keeps it modulo `base^n`. */
  lemma {:induction false} ValueOfNumeral(base: nat, v: nat, n: nat)
    requires 0 < base
    ensures Value(base, Numeral(base, v, n)) == Remainder(v, Pow(base, n))
    decreases n
  {
    if n > 0 {
      Division(v, base);
      ValueOfNumeral(base, v / base, n - 1);
      SplitRemainder(base, Pow(base, n - 1), v / base, v % base);
      var ds := Numeral(base, v, n);
      assert ds[..|ds| - 1] == Numeral(base, v / base, n - 1);
    }
  }

  /** Numerals of equal length and value are equal. */
  lemma SameValue(base: nat, ds: seq<int>, es: seq<int>)
    requires 0 < base && IsNumeral(base, ds) && IsNumeral(base, es) && |ds| == |es|
    requires Value(base, ds) == Value(base, es)
    ensures ds == es
  {
    NumeralOfValue(base, ds);
    NumeralOfValue(base, es);
  }

  /** A numeral only depends on the number modulo `base^n`. */
  lemma SameRemainder(base: nat, v: nat, w: nat, n: nat)
    requires 0 < base && Remainder(v, Pow(base, n)) == Remainder(w, Pow(base, n))
    ensures Numeral(base, v, n) == Numeral(base, w, n)
  {
    ValueOfNumeral(base, v, n);
    ValueOfNumeral(base, w, n);
    SameValue(base, Numeral(base, v, n), Numeral(base, w, n));
  }

  lemma {:induction false} PowAdd(base: nat, m: nat, n: nat)
    ensures Pow(base, m + n) == Pow(base, m) * Pow(base, n)
    decreases m
  {
    if m > 0 {
      PowAdd(base, m - 1, n);
      Associate(base, Pow(base, m - 1), Pow(base, n));
    }
  }

  lemma Associate(x: nat, y: nat, z: nat)
    ensures x * (y * z) == (x * y) * z
  {
  }
}
