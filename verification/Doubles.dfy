// Natural numbers as JavaScript holds them: doubles of IEEE 754, 53 significant bits, rounded to nearest
// with ties to even. Infinity is not modelled.
module Doubles {

  const MAX_SAFE := 9007199254740991

  /** The distance between neighbouring doubles around n. */
  function Unit(n: nat): (u: nat)
    ensures u >= 1
  {
    if n < 0x20_0000_0000_0000 then 1 else 2 * Unit(n / 2)
  }

  function RoundHalfEven(n: nat, u: nat): nat
    requires u >= 1
  {
    var q, r := n / u, n % u;
    if 2 * r < u || (2 * r == u && q % 2 == 0) then q * u else (q + 1) * u
  }

  /** The double nearest to n: the value of a literal, a sum or a product whose exact value is n. */
  function Double(n: nat): nat {
    RoundHalfEven(n, Unit(n))
  }

  lemma {:induction false} SmallIsExact(n: nat)
    requires n <= 9007199254740992
    ensures Double(n) == n
  {
    if n == 9007199254740992 {
      assert Unit(4503599627370496) == 1;
      assert Unit(n) == 2;
    }
  }

  lemma {:induction false} UnitOfLarge(n: nat)
    requires n >= 9007199254740992
    ensures Unit(n) >= 2 && n / Unit(n) >= 4503599627370496
  {
    var half := n / 2;
    if half >= 9007199254740992 {
      UnitOfLarge(half);
      HalvedQuotient(n, Unit(half));
    }
  }

  lemma {:induction false} HalvedQuotient(n: nat, u: nat)
    requires u >= 1
    ensures n / (2 * u) == (n / 2) / u
  {
    var q := n / (2 * u);
    var r := n % (2 * u);
    assert n == 2 * (q * u) + r;
    assert n / 2 == q * u + r / 2 && 0 <= r / 2 < u;
    QuotientIs(n / 2, u, q, r / 2);
  }

  lemma {:induction false} QuotientIs(n: nat, u: nat, q: nat, r: nat)
    requires u >= 1 && r < u && n == q * u + r
    ensures n / u == q && n % u == r
  {
    var p, s := n / u, n % u;
    assert n == p * u + s;
    if p < q {
      NextMultiple(p, q, u);
    } else if q < p {
      NextMultiple(q, p, u);
    }
  }

  lemma {:induction false} NextMultiple(p: nat, q: nat, u: nat)
    requires p < q
    ensures q * u >= p * u + u
  {
    assert q * u == (q - 1) * u + u;
    if q - 1 > p { NextMultiple(p, q - 1, u); }
  }

  /** Rounding never brings an unsafe number back into the safe range. */
  lemma {:induction false} LargeStaysLarge(n: nat)
    requires n >= 9007199254740992
    ensures Double(n) >= 9007199254740992
  {
    UnitOfLarge(n);
    var u := Unit(n);
    var q := n / u;
    assert q * u >= 4503599627370496 * 2 by {
      MultiplyAtLeast(q, u, 4503599627370496, 2);
    }
    assert (q + 1) * u == q * u + u;
  }

  lemma {:induction false} MultiplyAtLeast(q: nat, u: nat, a: nat, b: nat)
    requires q >= a && u >= b
    ensures q * u >= a * b
  {
    assert q * u >= a * u >= a * b;
  }

  /** A rounded result is safe exactly when the exact one is, and then they are the same. */
  lemma {:induction false} SafeExactly(n: nat)
    ensures Double(n) <= MAX_SAFE <==> n <= MAX_SAFE
    ensures n <= MAX_SAFE ==> Double(n) == n
  {
    if n <= MAX_SAFE { SmallIsExact(n); } else { LargeStaysLarge(n); }
  }

  // ---------------------------------------------------------------- how far rounding goes

  /** A number is a double exactly when it is a multiple of the distance between doubles around it. */
  lemma {:induction false} DoubleExactly(n: nat)
    ensures Double(n) == n <==> n % Unit(n) == 0
  {
    var u := Unit(n);
    var q, r := n / u, n % u;
    assert n == q * u + r && (q + 1) * u == q * u + u;
  }

  /** Rounding moves a number by no more than one part in 2^53. */
  lemma {:induction false} RoundingError(n: nat)
    ensures 0x20_0000_0000_0000 * (Double(n) - n) <= n && 0x20_0000_0000_0000 * (n - Double(n)) <= n
  {
    if n < 9007199254740992 {
      SmallIsExact(n);
    } else {
      UnitOfLarge(n);
      var u := Unit(n);
      HalfUnit(n, u);
      var q := n / u;
      assert n >= q * u by { assert n == q * u + n % u; }
      MultiplyAtLeast(q, u, 4503599627370496, u);
    }
  }

  lemma {:induction false} HalfUnit(n: nat, u: nat)
    requires u >= 1
    ensures 2 * (RoundHalfEven(n, u) - n) <= u && 2 * (n - RoundHalfEven(n, u)) <= u
  {
    var q, r := n / u, n % u;
    assert n == q * u + r && (q + 1) * u == q * u + u;
  }

  predicate IsPower(u: nat) {
    u == 1 || (u >= 2 && u % 2 == 0 && IsPower(u / 2))
  }

  lemma {:induction false} UnitIsPower(n: nat)
    ensures IsPower(Unit(n))
    ensures Unit(n) > 1 ==> Unit(n) * 0x10_0000_0000_0000 <= n
    ensures n < Unit(n) * 0x20_0000_0000_0000
  {
    if n >= 0x20_0000_0000_0000 {
      UnitIsPower(n / 2);
      assert Unit(n) / 2 == Unit(n / 2);
    }
  }

  lemma {:induction false} UnitIs(n: nat, u: nat)
    requires IsPower(u) && n < u * 0x20_0000_0000_0000 && (u > 1 ==> u * 0x10_0000_0000_0000 <= n)
    ensures Unit(n) == u
  {
    if u > 1 { UnitIs(n / 2, u / 2); }
  }

  /** A double is a multiple of its unit: rounding twice is rounding once. */
  lemma {:induction false} DoubleIsADouble(n: nat)
    ensures Double(Double(n)) == Double(n)
  {
    if Unit(n) == 1 {
      assert n < 0x20_0000_0000_0000 by { UnitIsPower(n); }
      SmallIsExact(n);
    } else {
      hide IsPower, Unit, RoundHalfEven;
      UnitIsPower(n);
      RoundedMultiple(n, Unit(n));
      MultipleIsExact(Double(n), Unit(n));
    }
  }

  lemma {:induction false} MultipleIsExact(d: nat, u: nat)
    requires u > 1 && IsPower(u) && d == d / u * u && 0x10_0000_0000_0000 <= d / u <= 0x20_0000_0000_0000
    ensures Double(d) == d
  {
    hide Unit, Double;
    DoubleExactly(d);
    var k := d / u;
    if k < 0x20_0000_0000_0000 {
      Scaled(k, 0x20_0000_0000_0000, u);
      MultiplyAtLeast(k, u, 0x10_0000_0000_0000, u);
      UnitIs(d, u);
      QuotientIs(d, u, k, 0);
    } else {
      Doubled(u);
      UnitIs(d, 2 * u);
      QuotientIs(d, 2 * u, 0x10_0000_0000_0000, 0);
    }
  }

  lemma {:induction false} Scaled(k: nat, b: nat, u: nat)
    requires k < b && u > 0
    ensures k * u < b * u
  {
    NextMultiple(k, b, u);
  }

  lemma {:induction false} Doubled(u: nat)
    requires IsPower(u)
    ensures IsPower(2 * u)
  {
    assert 2 * u / 2 == u;
  }

  lemma {:induction false} RoundedMultiple(n: nat, u: nat)
    requires u > 1 && u * 0x10_0000_0000_0000 <= n < u * 0x20_0000_0000_0000
    ensures var d := RoundHalfEven(n, u);
            d % u == 0 && d == d / u * u && 0x10_0000_0000_0000 <= d / u <= 0x20_0000_0000_0000
  {
    var q := n / u;
    assert n == q * u + n % u;
    assert q < 0x20_0000_0000_0000 by { if q >= 0x20_0000_0000_0000 { MultiplyAtLeast(q, u, 0x20_0000_0000_0000, u); } }
    assert q >= 0x10_0000_0000_0000 by {
      if q < 0x10_0000_0000_0000 { NextMultiple(q, 0x10_0000_0000_0000, u); }
    }
    QuotientIs(q * u, u, q, 0);
    QuotientIs((q + 1) * u, u, q + 1, 0);
  }

  /** Below 2^55 doubles are at most four apart. */
  lemma {:induction false} UnitBelow(n: nat)
    requires n < 0x80_0000_0000_0000
    ensures Unit(n) == 1 || Unit(n) == 2 || Unit(n) == 4
  {
    if n >= 0x40_0000_0000_0000 { assert Unit(n) == 2 * Unit(n / 2) == 4 * Unit(n / 2 / 2); }
  }

  // ---------------------------------------------------------------- a hundredth, rounded and floored

  /** The integer nearest to n / d, ties to even. */
  function Nearest(n: nat, d: nat): nat
    requires d >= 1
  {
    var q, r := n / d, n % d;
    if 2 * r < d || (2 * r == d && q % 2 == 0) then q else q + 1
  }

  /** 100 * 2^52 and 100 * 2^53: between them doubles of n / 100 are one apart. */
  const FINE := 0x64 * 0x10_0000_0000_0000
  const COARSE := 0x64 * 0x20_0000_0000_0000

  /** The power of two by which n / 100 is scaled up to 53 bits before the point. */
  function Scale(n: nat, p: nat): (s: nat)
    requires n > 0 && IsPower(p)
    ensures IsPower(s) && s >= 1 && n * s >= FINE
    decreases FINE - n * p
  {
    if n * p >= FINE then p
    else
      Doubled(p);
      assert n * (2 * p) == 2 * (n * p) > n * p by { MultiplyAtLeast(n, p, 1, 1); }
      Scale(n, 2 * p)
  }

  /** The distance between doubles around n / 100 when that has 53 bits or more before the point. */
  function Spacing(n: nat, u: nat): (s: nat)
    requires IsPower(u) && FINE * u <= n
    ensures IsPower(s) && s >= 1 && FINE * s <= n < COARSE * s
    decreases n - u
  {
    if n < COARSE * u then u
    else
      Doubled(u);
      Spacing(n, 2 * u)
  }

  /** `Math.floor(n / 100)`: the quotient is rounded to a double, then floored. */
  function FloorHundredth(n: nat): nat {
    if n == 0 then 0
    else if n < FINE then
      var p := Scale(n, 1);
      Nearest(n * p, 100) / p
    else
      var u := Spacing(n, 1);
      Nearest(n, 100 * u) * u
  }

  lemma {:induction false} NearestError(n: nat, d: nat)
    requires d >= 1
    ensures 2 * (d * Nearest(n, d)) <= 2 * n + d && 2 * n <= 2 * (d * Nearest(n, d)) + d
  {
    var q := n / d;
    assert n == d * q + n % d && d * (q + 1) == d * q + d;
  }

  /** What rounding and flooring may do: the quotient is moved by no more than one part in 2^53. */
  lemma {:induction false} HundredthIsNear(n: nat)
    ensures 0x20_0000_0000_0000 * (100 * FloorHundredth(n)) <= 0x20_0000_0000_0000 * n + n
    ensures 0x20_0000_0000_0000 * n < 0x20_0000_0000_0000 * (100 * (FloorHundredth(n) + 1)) + n + 1
    ensures Double(FloorHundredth(n)) == FloorHundredth(n)
  {
    hide Scale, Spacing, Nearest, Double;
    assert IsPower(1);
    if n == 0 {
      SmallIsExact(0);
    } else if n < FINE {
      FineIsNear(n, Scale(n, 1));
    } else {
      CoarseIsNear(n, Spacing(n, 1));
    }
  }

  lemma {:induction false} CoarseIsNear(n: nat, u: nat)
    requires IsPower(u) && u >= 1 && FINE * u <= n < COARSE * u
    ensures var w := Nearest(n, 100 * u) * u;
            && 0x20_0000_0000_0000 * (100 * w) <= 0x20_0000_0000_0000 * n + n
            && 0x20_0000_0000_0000 * n < 0x20_0000_0000_0000 * (100 * (w + 1)) + n + 1
            && Double(w) == w
  {
    hide Nearest, Double, IsPower;
    var v := Nearest(n, 100 * u);
    NearestError(n, 100 * u);
    assert 100 * u * v == 100 * (v * u);
    CoarseMantissa(n, u);
    QuotientIs(v * u, u, v, 0);
    if u == 1 { SmallIsExact(v * u); } else { MultipleIsExact(v * u, u); }
  }

  lemma {:induction false} CoarseMantissa(n: nat, u: nat)
    requires u >= 1 && FINE * u <= n < COARSE * u
    ensures 0x10_0000_0000_0000 <= Nearest(n, 100 * u) <= 0x20_0000_0000_0000
  {
    var d := 100 * u;
    assert d * 0x10_0000_0000_0000 == FINE * u && d * 0x20_0000_0000_0000 == COARSE * u;
    var q := n / d;
    assert n == d * q + n % d;
    if q < 0x10_0000_0000_0000 { NextMultiple(q, 0x10_0000_0000_0000, d); }
    if q >= 0x20_0000_0000_0000 { MultiplyAtLeast(q, d, 0x20_0000_0000_0000, d); }
  }

  lemma {:induction false} FineIsNear(n: nat, p: nat)
    requires n < FINE && p >= 1 && n * p >= FINE
    ensures var w := Nearest(n * p, 100) / p;
            && 0x20_0000_0000_0000 * (100 * w) <= 0x20_0000_0000_0000 * n + n
            && 0x20_0000_0000_0000 * n < 0x20_0000_0000_0000 * (100 * (w + 1)) + n + 1
            && Double(w) == w
  {
    hide Nearest, Double;
    var v := Nearest(n * p, 100);
    NearestError(n * p, 100);
    Floored(v, p);
    FineOf(n, p, v, v / p);
    SmallIsExact(v / p);
  }

  lemma {:induction false} FineOf(n: nat, p: nat, v: nat, w: nat)
    requires n < FINE && p >= 1 && n * p >= FINE
    requires 2 * (100 * v) <= 2 * (n * p) + 100 && 2 * (n * p) <= 2 * (100 * v) + 100
    requires w * p <= v < w * p + p && (w + 1) * p == w * p + p
    ensures 0x20_0000_0000_0000 * (100 * w) <= 0x20_0000_0000_0000 * n + n
    ensures 0x20_0000_0000_0000 * n < 0x20_0000_0000_0000 * (100 * (w + 1)) + n + 1
    ensures w <= 9007199254740992
  {
    FineBounds(n * p, v, w * p, p);
    Cancelled(w, n, w + 1, p);
    SmallQuotient(w, n);
  }

  lemma {:induction false} SmallQuotient(w: nat, n: nat)
    requires n < FINE && 0x20_0000_0000_0000 * (100 * w) <= 0x20_0000_0000_0000 * n + n
    ensures w <= 9007199254740992
  {
  }

  lemma {:induction false} Floored(v: nat, p: nat)
    requires p >= 1
    ensures v / p * p <= v < v / p * p + p && (v / p + 1) * p == v / p * p + p
  {
    assert v == v / p * p + v % p;
  }

  lemma {:induction false} FineBounds(np: nat, v: nat, wp: nat, p: nat)
    requires np >= FINE && 2 * (100 * v) <= 2 * np + 100 && 2 * np <= 2 * (100 * v) + 100 && wp <= v < wp + p
    ensures 0x20_0000_0000_0000 * (100 * wp) <= 0x20_0000_0000_0000 * np + np
    ensures 0x20_0000_0000_0000 * np < 0x20_0000_0000_0000 * (100 * (wp + p)) + np
  {
  }

  /** Cancels a positive factor from the two bounds. */
  lemma {:induction false} Cancelled(low: nat, n: nat, high: nat, p: nat)
    requires p >= 1
    requires 0x20_0000_0000_0000 * (100 * (low * p)) <= 0x20_0000_0000_0000 * (n * p) + n * p
    requires 0x20_0000_0000_0000 * (n * p) < 0x20_0000_0000_0000 * (100 * (high * p)) + n * p
    ensures 0x20_0000_0000_0000 * (100 * low) <= 0x20_0000_0000_0000 * n + n
    ensures 0x20_0000_0000_0000 * n < 0x20_0000_0000_0000 * (100 * high) + n
  {
    Factored(0x20_0000_0000_0000 * 100, low, 0, p);
    Factored(0x20_0000_0000_0000, n, n, p);
    Factored(0x20_0000_0000_0000 * 100, high, n, p);
    Factored(0x20_0000_0000_0000, n, 0, p);
    CancelFactor(0x20_0000_0000_0000 * 100 * low, 0x20_0000_0000_0000 * n + n, p);
    CancelFactor(0x20_0000_0000_0000 * 100 * high + n, 0x20_0000_0000_0000 * n, p);
  }

  lemma {:induction false} Factored(k: nat, x: nat, y: nat, p: nat)
    ensures (k * x + y) * p == k * (x * p) + y * p
  {
  }

  lemma {:induction false} CancelFactor(x: nat, y: nat, p: nat)
    requires p >= 1
    ensures x * p <= y * p ==> x <= y
  {
    if x > y { NextMultiple(y, x, p); }
  }

  /** A power of two above 50, 25 or 12 is at least 64, 32 or 16. */
  lemma {:induction false} PowerAbove(p: nat)
    requires IsPower(p)
    ensures (p > 50 ==> p >= 64) && (p > 25 ==> p >= 32) && (p > 12 ==> p >= 16) && (p > 8 ==> p >= 16)
  {
    if p <= 64 {
      assert IsPower(p) ==> p == 1 || IsPower(p / 2);
      assert p > 1 && p / 2 > 1 ==> IsPower(p / 2 / 2);
      assert p > 1 && p / 2 > 1 && p / 2 / 2 > 1 ==> IsPower(p / 2 / 2 / 2);
      assert p > 1 && p / 2 > 1 && p / 2 / 2 > 1 && p / 2 / 2 / 2 > 1 ==> IsPower(p / 2 / 2 / 2 / 2);
    }
  }

  /** How much room the remainder by a hundred leaves: enough for the rounding at this scale. */
  lemma {:induction false} RoomToRound(n: nat, p: nat)
    requires Double(n) == n && n < 0xC8_0000_0000_0000 && IsPower(p) && n * p >= FINE
    ensures (100 - n % 100) * p > 50
  {
    hide Double;
    DoubleExactly(n);
    PowerAbove(p);
    hide Unit, IsPower;
    var r := n % 100;
    if n < 0x20_0000_0000_0000 {
      BigScale(n, p, 0x20_0000_0000_0000, 50);
    } else if n < 0x40_0000_0000_0000 {
      BigScale(n, p, 0x40_0000_0000_0000, 25);
      EvenRemainder(n);
    } else {
      BigScale(n, p, 0xC8_0000_0000_0000, 8);
      FourthRemainder(n);
    }
    var rest := 100 - r;
    if p >= 64 { MultiplyAtLeast(rest, p, 1, 64); } else if p >= 32 { MultiplyAtLeast(rest, p, 2, 32); } else { MultiplyAtLeast(rest, p, 4, 16); }
  }

  lemma {:induction false} BigScale(n: nat, p: nat, bound: nat, least: nat)
    requires n < bound && n * p >= FINE && bound * least <= FINE && least >= 1
    ensures p > least
  {
    if p <= least { ProductBelow(n, p, bound, least); }
  }

  lemma {:induction false} ProductBelow(a: nat, b: nat, c: nat, d: nat)
    requires a < c && b <= d && d >= 1
    ensures a * b < c * d
  {
    MultiplyAtLeast(d, a, b, a);
    NextMultiple(a, c, d);
  }

  lemma {:induction false} EvenRemainder(n: nat)
    requires Double(n) == n && 0x20_0000_0000_0000 <= n < 0x40_0000_0000_0000
    ensures n % 100 <= 98
  {
    hide Double, Unit;
    DoubleExactly(n);
    UnitsAbove(n);
    MultipleOfDivisor(n, Unit(n), 2);
    RemainderOfEven(n);
  }

  lemma {:induction false} FourthRemainder(n: nat)
    requires Double(n) == n && n >= 0x40_0000_0000_0000
    ensures n % 100 <= 96
  {
    hide Double, Unit;
    DoubleExactly(n);
    UnitsAbove(n);
    MultipleOfDivisor(n, Unit(n), 4);
    RemainderOfFourth(n);
  }

  lemma {:induction false} RemainderOfEven(n: nat)
    requires n % 2 == 0
    ensures n % 100 <= 98
  {
  }

  lemma {:induction false} RemainderOfFourth(n: nat)
    requires n % 4 == 0
    ensures n % 100 <= 96
  {
  }

  /** Doubles from 2^53, 2^54 and 2^55 on are at least two, four and eight apart. */
  lemma {:induction false} UnitsAbove(n: nat)
    ensures n >= 0x20_0000_0000_0000 ==> Unit(n) % 2 == 0
    ensures n >= 0x40_0000_0000_0000 ==> Unit(n) % 4 == 0
    ensures n >= 0x80_0000_0000_0000 ==> Unit(n) >= 8
  {
    if n >= 0x20_0000_0000_0000 { assert Unit(n) == 2 * Unit(n / 2); }
    if n >= 0x40_0000_0000_0000 { assert Unit(n / 2) == 2 * Unit(n / 2 / 2); }
    if n >= 0x80_0000_0000_0000 { assert Unit(n / 2 / 2) == 2 * Unit(n / 2 / 2 / 2); }
    hide Unit;
  }

  /** Below 100 * 2^49 the floored quotient of a double by a hundred is right. */
  lemma {:induction false} HundredthIsExact(n: nat)
    requires Double(n) == n && n < 0xC8_0000_0000_0000
    ensures FloorHundredth(n) == n / 100
  {
    hide Double, Scale, Nearest;
    assert IsPower(1);
    if n > 0 {
      var p := Scale(n, 1);
      RoomToRound(n, p);
      FlooredExactly(n, p);
    }
  }

  lemma {:induction false} FlooredExactly(n: nat, p: nat)
    requires p >= 1 && (100 - n % 100) * p > 50
    ensures Nearest(n * p, 100) / p == n / 100
  {
    hide Nearest;
    var q, r := n / 100, n % 100;
    var v := Nearest(n * p, 100);
    NearestError(n * p, 100);
    Distributed(q, r, p);
    assert n * p == 100 * (q * p) + r * p;
    assert (100 - r) * p == 100 * p - r * p;
    var qp, rp := q * p, r * p;
    assert v >= qp && v < qp + p;
    QuotientIs(v, p, q, v - qp);
  }

  lemma {:induction false} Distributed(q: nat, r: nat, p: nat)
    ensures (100 * q + r) * p == 100 * (q * p) + r * p
  {
  }

  /** What is missing to the next hundred is more than half a step between doubles at the quotient; where those are
      whole numbers, the quotient is nearer to the lower one, or as near and that is even. */
  predicate RoundsDown(n: nat) {
    if n == 0 then true
    else if n < FINE then (100 - n % 100) * Scale(n, 1) > 50
    else n % 100 < 50 || (n % 100 == 50 && n / 100 % 2 == 0)
  }

  /** Below 100 * 2^53 the floored quotient is right exactly when the quotient does not round up to the next whole
      number. */
  lemma {:induction false} HundredthExactly(n: nat)
    requires n < COARSE
    ensures FloorHundredth(n) == n / 100 <==> RoundsDown(n)
  {
    hide Scale, Nearest;
    assert IsPower(1);
    if 0 < n < FINE {
      var p := Scale(n, 1);
      if (100 - n % 100) * p > 50 { FlooredExactly(n, p); } else { FlooredAbove(n, p); }
    } else if n > 0 {
      assert Spacing(n, 1) == 1;
      CoarseExactly(n);
    }
  }

  lemma {:induction false} CoarseExactly(n: nat)
    ensures Nearest(n, 100) == n / 100 <==> n % 100 < 50 || (n % 100 == 50 && n / 100 % 2 == 0)
  {
  }

  lemma {:induction false} FlooredAbove(n: nat, p: nat)
    requires IsPower(p) && p >= 1 && n < FINE <= n * p && (100 - n % 100) * p <= 50
    ensures Nearest(n * p, 100) / p == n / 100 + 1
  {
    hide Nearest;
    var q, rest := n / 100, 100 - n % 100;
    MultiplyAtLeast(rest, p, 1, 1);
    Distributed(q, n % 100, p);
    assert n * p == 100 * (q * p) + n % 100 * p && rest * p == 100 * p - n % 100 * p;
    assert (q + 1) * p % 2 == 0 by { EvenMultiple(q + 1, p); }
    assert (q + 1) * p == q * p + p;
    TieRoundsUp(n * p, (q + 1) * p, rest * p);
    QuotientIs((q + 1) * p, p, q + 1, 0);
  }

  lemma {:induction false} EvenMultiple(a: nat, p: nat)
    requires p % 2 == 0
    ensures a * p % 2 == 0
  {
    assert a * p == 2 * (a * (p / 2));
  }

  lemma {:induction false} TieRoundsUp(n: nat, v: nat, rest: nat)
    requires n == 100 * v - rest && 0 < rest <= 50 && v % 2 == 0
    ensures Nearest(n, 100) == v
  {
    QuotientIs(n, 100, v - 1, 100 - rest);
  }

  // ---------------------------------------------------------------- the rounded hundredth tells doubles apart

  lemma {:induction false} TwentyFive(p: nat, k: nat)
    requires IsPower(p) && p * k % 25 == 0
    ensures k % 25 == 0
  {
    if p > 1 {
      var half := p / 2;
      assert p * k == 2 * (half * k);
      Halved(half * k);
      TwentyFive(half, k);
    }
  }

  lemma {:induction false} Halved(n: nat)
    requires 2 * n % 25 == 0
    ensures n % 25 == 0
  {
  }

  lemma {:induction false} UnitGrows(c: nat, d: nat)
    requires c <= d
    ensures Unit(d) % Unit(c) == 0
    decreases d
  {
    if c >= 0x20_0000_0000_0000 {
      UnitGrows(c / 2, d / 2);
      TwiceDivides(Unit(d / 2), Unit(c / 2));
    }
  }

  lemma {:induction false} TwiceDivides(a: nat, b: nat)
    requires b >= 1 && a % b == 0
    ensures 2 * a % (2 * b) == 0
  {
    var q := a / b;
    assert a == q * b && 2 * a == q * (2 * b);
    QuotientIs(2 * a, 2 * b, q, 0);
  }

  lemma {:induction false} MultipleOfDivisor(n: nat, a: nat, b: nat)
    requires a >= 1 && b >= 1 && n % a == 0 && a % b == 0
    ensures n % b == 0
  {
    var x, y := n / a, a / b;
    assert n == x * a && a == y * b;
    assert n == x * y * b;
    QuotientIs(n, b, x * y, 0);
  }

  /** Doubles that agree in their remainder by a hundred are at least 25 units apart. */
  lemma {:induction false} FarApart(c: nat, d: nat)
    requires Double(c) == c && Double(d) == d && c < d && c % 100 == d % 100
    ensures d >= c + 25 * Unit(c)
  {
    hide Double, Unit, IsPower;
    DoubleExactly(c);
    DoubleExactly(d);
    UnitGrows(c, d);
    MultipleOfDivisor(d, Unit(d), Unit(c));
    UnitIsPower(c);
    CommonMultiple(c, d, Unit(c));
  }

  lemma {:induction false} CommonMultiple(c: nat, d: nat, u: nat)
    requires IsPower(u) && u >= 1 && c % u == 0 && d % u == 0 && c < d && c % 100 == d % 100
    ensures d >= c + 25 * u
  {
    hide IsPower;
    WholeMultiple(c, u);
    WholeMultiple(d, u);
    SameRemainder(c, d);
    MultiplesApart(c / u, d / u, u);
  }

  lemma {:induction false} WholeMultiple(n: nat, u: nat)
    requires u >= 1 && n % u == 0
    ensures n == n / u * u
  {
  }

  lemma {:induction false} MultiplesApart(x: nat, y: nat, u: nat)
    requires IsPower(u) && u >= 1 && x * u < y * u && (y * u - x * u) % 25 == 0
    ensures y * u >= x * u + 25 * u
  {
    hide IsPower;
    CancelFactor(y, x, u);
    Apart(x, y, u);
    TwentyFive(u, y - x);
    MultiplyAtLeast(y - x, u, 25, u);
  }

  lemma {:induction false} Apart(x: nat, y: nat, u: nat)
    requires x <= y
    ensures (y - x) * u == y * u - x * u == u * (y - x)
  {
  }

  lemma {:induction false} SameRemainder(c: nat, d: nat)
    requires c < d && c % 100 == d % 100
    ensures (d - c) % 25 == 0
  {
    assert d - c == 25 * (4 * (d / 100 - c / 100));
  }

  /** Different doubles differ in the floored quotient by a hundred or in the remainder. */
  lemma {:induction false} HundredthTellsApart(c: nat, d: nat)
    requires Double(c) == c && Double(d) == d && FloorHundredth(c) == FloorHundredth(d) && c % 100 == d % 100
    ensures c == d
  {
    if c < d { NotLess(c, d); }
    if d < c { NotLess(d, c); }
  }

  lemma {:induction false} NotLess(c: nat, d: nat)
    requires Double(c) == c && Double(d) == d && FloorHundredth(c) == FloorHundredth(d) && c % 100 == d % 100
    ensures c >= d
  {
    hide Double, Unit, FloorHundredth, IsPower;
    HundredthIsNear(c);
    HundredthIsNear(d);
    if c < d {
      FarApart(c, d);
      UnitIsPower(c);
      if c < 0x80_0000_0000_0000 {
        HundredthIsExact(c);
        if d < 0xC8_0000_0000_0000 { HundredthIsExact(d); }
      } else {
        UnitsAbove(c);
      }
    }
  }
}
