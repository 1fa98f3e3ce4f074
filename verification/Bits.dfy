/** Bitwise operations on unsigned words, as functions on natural numbers, and what they mean arithmetically. */
module Bits {

  function Pow2(n: nat): (p: nat)
    ensures p > 0
  {
    if n == 0 then 1 else 2 * Pow2(n - 1)
  }

  function Or(a: nat, b: nat): nat
    decreases a + b
  {
    if a == 0 then b
    else if b == 0 then a
    else 2 * Or(a / 2, b / 2) + (if a % 2 == 1 || b % 2 == 1 then 1 else 0)
  }

  function And(a: nat, b: nat): nat {
    if a == 0 || b == 0 then 0
    else 2 * And(a / 2, b / 2) + (if a % 2 == 1 && b % 2 == 1 then 1 else 0)
  }

  function Quotient(a: nat, d: nat): nat
    requires d > 0
  {
    a / d
  }

  function Modulo(a: nat, d: nat): nat
    requires d > 0
  {
    a % d
  }

  function Times(a: nat, b: nat): nat {
    a * b
  }

  lemma TimesDouble(a: nat, p: nat)
    ensures Times(a, 2 * p) == 2 * Times(a, p)
  {
  }

  function ShiftRight(a: nat, n: nat): nat {
    Quotient(a, Pow2(n))
  }

  lemma {:induction false} PowAdd(a: nat, b: nat)
    ensures Pow2(a + b) == Pow2(a) * Pow2(b)
  {
    if a > 0 {
      PowAdd(a - 1, b);
    }
  }

  lemma {:induction false} PowMonotone(a: nat, b: nat)
    requires a <= b
    ensures Pow2(a) <= Pow2(b)
    ensures a < b ==> Pow2(a) < Pow2(b)
  {
    if a < b {
      PowMonotone(a, b - 1);
    }
  }

  /** The position of the highest set bit. */
  function Log2(v: nat): (k: nat)
    requires v > 0
    ensures Pow2(k) <= v < Pow2(k + 1)
  {
    if v == 1 then 0 else 1 + Log2(v / 2)
  }

  lemma {:induction false} OrAtLeast(a: nat, b: nat)
    ensures Or(a, b) >= a && Or(a, b) >= b
    decreases a + b
  {
    if a != 0 && b != 0 {
      OrAtLeast(a / 2, b / 2);
    }
  }

  lemma {:induction false} OrBelow(a: nat, b: nat, m: nat)
    requires a < Pow2(m) && b < Pow2(m)
    ensures Or(a, b) < Pow2(m)
    decreases m
  {
    if a != 0 && b != 0 {
      OrBelow(a / 2, b / 2, m - 1);
    }
  }

  /** A word below 2^m only touches the low m bits. */
  lemma {:induction false} OrLow(hi: nat, lo: nat, b: nat, m: nat)
    requires lo < Pow2(m) && b < Pow2(m)
    ensures Or(Times(hi, Pow2(m)) + lo, b) == Times(hi, Pow2(m)) + Or(lo, b)
    decreases m
  {
    if m > 0 && b != 0 {
      OrLow(hi, lo / 2, b / 2, m - 1);
      TimesDouble(hi, Pow2(m - 1));
      OrSplit(Times(hi, Pow2(m - 1)), lo, b);
    }
  }

  lemma OrSplit(half: nat, lo: nat, b: nat)
    requires b != 0 && Or(half + lo / 2, b / 2) == half + Or(lo / 2, b / 2)
    ensures Or(2 * half + lo, b) == 2 * half + Or(lo, b)
  {
    var a := 2 * half + lo;
    assert a / 2 == half + lo / 2 && a % 2 == lo % 2;
    if lo == 0 {
      assert Or(0, b / 2) == b / 2;
    }
  }

  /** Masking with 2^k - 1 is the remainder by 2^k. */
  lemma {:induction false} AndMask(x: nat, k: nat)
    ensures And(x, Pow2(k) - 1) == Modulo(x, Pow2(k))
    decreases k
  {
    if k == 0 {
      ModuloEdges(x);
    } else if x == 0 {
      ModuloEdges(Pow2(k));
    } else {
      var p := Pow2(k - 1);
      AndMask(x / 2, k - 1);
      AndHalf(x, p);
      HalfModulo(x, p);
    }
  }

  lemma ModuloEdges(x: nat)
    ensures Modulo(x, 1) == 0
    ensures x > 0 ==> Modulo(0, x) == 0
  {
  }

  lemma AndHalf(x: nat, p: nat)
    requires x > 0 && p > 0
    ensures And(x, 2 * p - 1) == 2 * And(x / 2, p - 1) + x % 2
  {
    assert (2 * p - 1) / 2 == p - 1 && (2 * p - 1) % 2 == 1;
  }

  lemma HalfModulo(x: nat, p: nat)
    requires p > 0
    ensures Modulo(x, 2 * p) == 2 * Modulo(x / 2, p) + x % 2
  {
    var h := x / 2;
    var r := 2 * (h % p) + x % 2;
    assert h == (h / p) * p + h % p;
    assert x == (h / p) * (2 * p) + r;
    Remainder(x, 2 * p, h / p, r);
  }

  /** Quotient and remainder are unique. */
  lemma Remainder(x: nat, d: nat, q: nat, r: nat)
    requires d > 0 && x == q * d + r && r < d
    ensures x / d == q && x % d == r
  {
    var q' := x / d;
    assert x == q' * d + x % d;
    MulStep(q, q', d);
    MulStep(q', q, d);
  }

  lemma MulStep(a: nat, b: nat, d: nat)
    ensures a < b ==> (a + 1) * d <= b * d
  {
  }

  // ----- Bit smearing

  /** `v` has its highest bit at `k`, and its top `t` bits (at most all `k + 1` of them) are ones. */
  ghost predicate TopOnes(v: nat, k: nat, t: nat) {
    Pow2(k + 1) - Pow2(if t <= k + 1 then k + 1 - t else 0) <= v < Pow2(k + 1)
  }

  lemma SmearStep(v: nat, k: nat, t: nat)
    requires t > 0 && TopOnes(v, k, t)
    ensures TopOnes(Or(v, ShiftRight(v, t)), k, 2 * t)
  {
    var w := ShiftRight(v, t);
    if t > k {
      PowMonotone(k + 1, t);
      DivisionBelow(v, Pow2(t));
    } else {
      SmearTop(v, k, t);
    }
  }

  lemma DivisionBelow(v: nat, d: nat)
    requires v < d
    ensures Quotient(v, d) == 0
  {
  }

  lemma SmearTop(v: nat, k: nat, t: nat)
    requires 0 < t <= k && TopOnes(v, k, t)
    ensures TopOnes(Or(v, ShiftRight(v, t)), k, 2 * t)
  {
    hide Or;
    var m := k + 1 - t;
    var w := ShiftRight(v, t);
    PowAdd(t, m);
    var hi := Pow2(t) - 1;
    var lo := v - (Pow2(k + 1) - Pow2(m));
    OneLess(Pow2(t), Pow2(m));
    ShiftedTop(v, k, t);
    OrLow(hi, lo, w, m);
    OrAtLeast(lo, w);
    OrBelow(lo, w, m);
  }

  lemma OneLess(a: nat, b: nat)
    requires a > 0
    ensures Times(a - 1, b) == a * b - b
  {
  }

  /** The shifted word is below 2^m and carries ones in the bits that continue the run. */
  lemma ShiftedTop(v: nat, k: nat, t: nat)
    requires 0 < t <= k && TopOnes(v, k, t)
    ensures var m := k + 1 - t;
      Pow2(m) - Pow2(if t <= m then m - t else 0) <= ShiftRight(v, t) < Pow2(m)
  {
    var m := k + 1 - t;
    PowAdd(t, m);
    if t <= m {
      PowAdd(t, m - t);
      ShiftWide(v, Pow2(t), Pow2(m), Pow2(m - t));
    } else {
      PowMonotone(m, t);
      ShiftNarrow(v, Pow2(t), Pow2(m));
    }
  }

  lemma ShiftWide(v: nat, d: nat, p: nat, q: nat)
    requires d > 0 && p > 0 && p == d * q && d * p - p <= v < d * p
    ensures p - q <= Quotient(v, d) < p
  {
    assert q <= p;
    assert d * (p - q) == d * p - p;
    QuotientBounds(v, d, p - q, p);
  }

  lemma ShiftNarrow(v: nat, d: nat, p: nat)
    requires 0 < p <= d && d * p - p <= v < d * p
    ensures p - 1 <= Quotient(v, d) < p
  {
    assert d * (p - 1) == d * p - d;
    QuotientBounds(v, d, p - 1, p);
  }

  lemma QuotientBounds(v: nat, d: nat, low: nat, high: nat)
    requires d > 0 && high > 0 && d * low <= v < d * high
    ensures low <= Quotient(v, d) < high
  {
    var q := v / d;
    assert v == q * d + v % d;
    if q < low {
      MulStep(q, low, d);
    }
    if q >= high {
      MulStep(high - 1, q, d);
    }
  }
}
