/** Integers held in JavaScript numbers: 53 significant bits, rounded to the nearest, and to the even one of two that are
    equally near (section 6.1.6.1 of ECMA-262). */
module Doubles {
  /** Up to here every integer is a double. */
  const EXACT := 0x20_0000_0000_0000

  /** The distance of neighbouring doubles at `n`. */
  function Ulp(n: nat): (u: nat)
    ensures u > 0
  {
    if n < 0x20_0000_0000_0000 then 1 else 2 * Ulp(n / 2)
  }

  /** The multiple of the unit nearest to `n`, an even multiple when two are. */
  function Nearest(n: nat, unit: nat): nat
    requires unit > 0
  {
    var q, rest := n / unit, n % unit;
    if 2 * rest < unit || (2 * rest == unit && q % 2 == 0) then q * unit else (q + 1) * unit
  }

  /** The double an integer is rounded to. */
  function Double(n: int): (d: int)
    ensures n >= 0 ==> d >= 0
  {
    if n >= 0 then Nearest(n, Ulp(n)) else 0 - Nearest(-n, Ulp(-n))
  }

  // ----- what is not rounded

  lemma MultipleIs(q: nat, unit: nat)
    requires unit > 0
    ensures Nearest(q * unit, unit) == q * unit
  {
    assert (q * unit) / unit == q && (q * unit) % unit == 0 by {
      MultipleDivides(q, unit);
    }
  }

  lemma MultipleDivides(q: nat, unit: nat)
    requires unit > 0
    ensures (q * unit) / unit == q && (q * unit) % unit == 0
  {
    var n := q * unit;
    assert n == unit * (n / unit) + n % unit;
    assert n == unit * q + 0;
    QuotientIs(unit, q, 0, n / unit, n % unit);
  }

  lemma QuotientIs(unit: nat, q: nat, r: nat, q': int, r': int)
    requires r < unit && 0 <= r' < unit && unit * q + r == unit * q' + r'
    ensures q == q' && r == r'
  {
    TimesMonotone(unit, q, q');
    TimesMonotone(unit, q', q);
  }

  lemma TimesMonotone(unit: nat, a: int, b: int)
    ensures a < b ==> unit * a + unit <= unit * b
  {
    if a < b {
      var d := b - a - 1;
      assert unit * b == unit * a + unit + unit * d;
    }
  }

  /** 2 to the power `k`. */
  function Pow2(k: nat): (p: nat)
    ensures p > 0
  {
    if k == 0 then 1 else 2 * Pow2(k - 1)
  }

  /** Below 2 to the power 53 + k, neighbours are at most 2 to the power k apart, and that far a whole number of times. */
  lemma {:induction false} UlpDivides(n: nat, k: nat) returns (q: nat)
    requires n < 0x20_0000_0000_0000 * Pow2(k)
    ensures Pow2(k) == q * Ulp(n)
    decreases k
  {
    if n < 0x20_0000_0000_0000 {
      q := Pow2(k);
    } else {
      assert Pow2(k) == 2 * Pow2(k - 1);
      q := UlpDivides(n / 2, k - 1);
      DoubledProduct(q, Ulp(n / 2));
    }
  }

  lemma DoubledProduct(q: nat, u: nat)
    ensures 2 * (q * u) == q * (2 * u)
  {
  }

  /** A multiple of 2 to the power k below 2 to the power 53 + k is a double. */
  lemma GridIsDouble(m: nat, k: nat)
    requires m < 0x20_0000_0000_0000
    ensures Double(m * Pow2(k)) == m * Pow2(k)
  {
    hide Ulp, Nearest, Pow2;
    var n := m * Pow2(k);
    assert n < 0x20_0000_0000_0000 * Pow2(k) by { ProductBelow(m, 0x20_0000_0000_0000, Pow2(k)); }
    var q := UlpDivides(n, k);
    Regrouped(m, q, Ulp(n));
    MultipleIs(m * q, Ulp(n));
  }

  lemma ProductBelow(m: nat, bound: nat, p: nat)
    requires m < bound && p > 0
    ensures 0 <= m * p < bound * p
  {
  }

  lemma Regrouped(m: nat, q: nat, u: nat)
    ensures m * (q * u) == (m * q) * u
  {
  }

  lemma Pow2Values()
    ensures Pow2(0) == 1 && Pow2(3) == 8 && Pow2(4) == 16 && Pow2(10) == 0x400 && Pow2(12) == 0x1000
  {
    assert Pow2(1) == 2 && Pow2(2) == 4 && Pow2(3) == 8 && Pow2(4) == 16;
    assert Pow2(5) == 32 && Pow2(6) == 64 && Pow2(7) == 128 && Pow2(8) == 256;
    assert Pow2(9) == 512 && Pow2(10) == 1024 && Pow2(11) == 2048 && Pow2(12) == 4096;
  }

  /** Small integers, positive or negative. */
  lemma SmallIsDouble(n: int)
    requires -0x20_0000_0000_0000 < n < 0x20_0000_0000_0000
    ensures Double(n) == n
  {
  }

  lemma Negated(n: int)
    ensures Double(-n) == -Double(n)
  {
    hide Ulp, Nearest;
    if n == 0 {
      SmallIsDouble(0);
    }
  }

  /** Multiples of 1024 below 2^63, positive or negative. */
  lemma KilobytesAreDoubles(n: int)
    requires n % 0x400 == 0 && -0x8000_0000_0000_0000 < n < 0x8000_0000_0000_0000
    ensures Double(n) == n
  {
    hide Double;
    Pow2Values();
    var a := if n < 0 then -n else n;
    assert a == (a / 0x400) * 0x400;
    GridIsDouble(a / 0x400, 10);
    Negated(a);
  }

  /** Multiples of 4096 below 2^65, positive or negative. */
  lemma PagesAreDoubles(n: int)
    requires n % 0x1000 == 0 && -0x2_0000_0000_0000_0000 < n < 0x2_0000_0000_0000_0000
    ensures Double(n) == n
  {
    hide Double;
    Pow2Values();
    var a := if n < 0 then -n else n;
    assert a == (a / 0x1000) * 0x1000;
    GridIsDouble(a / 0x1000, 12);
    Negated(a);
  }

  /** Multiples of 8 below 2^56. */
  lemma EightIsDouble(m: nat)
    requires m < 0x20_0000_0000_0000
    ensures Double(8 * m) == 8 * m
  {
    hide Double;
    Pow2Values();
    GridIsDouble(m, 3);
  }

  // ----- what rounding does

  lemma Times(a: nat, b: nat, u: nat)
    ensures (a + b) * u == a * u + b * u
  {
  }

  /** The result is a multiple of the unit, no more than half a unit away, and an even multiple where two are that near. */
  lemma NearestIs(n: nat, unit: nat) returns (q: nat)
    requires unit > 0
    ensures Nearest(n, unit) == q * unit
    ensures 2 * n <= 2 * Nearest(n, unit) + unit && 2 * Nearest(n, unit) <= 2 * n + unit
    ensures 2 * n == 2 * Nearest(n, unit) + unit || 2 * Nearest(n, unit) == 2 * n + unit ==> q % 2 == 0
  {
    var p, rest := n / unit, n % unit;
    assert n == p * unit + rest;
    Times(p, 1, unit);
    q := if 2 * rest < unit || (2 * rest == unit && p % 2 == 0) then p else p + 1;
  }

  /** The unit of a number from 2 to the power 52 + k up to the next power is 2 to the power k. */
  lemma {:induction false} UlpIs(n: nat, k: nat)
    requires 0x10_0000_0000_0000 * Pow2(k) <= n < 0x20_0000_0000_0000 * Pow2(k)
    ensures Ulp(n) == Pow2(k)
    decreases k
  {
    if k > 0 {
      UlpIs(n / 2, k - 1);
    }
  }

  /** A number with 53 + k bits becomes the nearest multiple of 2 to the power k, the even one of two that are equally near. */
  lemma DoubleIs(n: nat, k: nat) returns (q: nat)
    requires 0x10_0000_0000_0000 * Pow2(k) <= n < 0x20_0000_0000_0000 * Pow2(k)
    ensures Double(n) == q * Pow2(k)
    ensures 2 * n <= 2 * Double(n) + Pow2(k) && 2 * Double(n) <= 2 * n + Pow2(k)
    ensures 2 * n == 2 * Double(n) + Pow2(k) || 2 * Double(n) == 2 * n + Pow2(k) ==> q % 2 == 0
  {
    hide Nearest, Ulp, Pow2;
    UlpIs(n, k);
    q := NearestIs(n, Pow2(k));
  }
}
