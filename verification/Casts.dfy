/** The cast of a signed 64-bit integer to a double, rounding to nearest with
    ties to even, as section 4.3.1 of IEEE 754-2008 rounds. */
module Casts {
  import opened Numbers

  const TWO53 := 2 * TWO52

  /** Biased exponent of the doubles from 2^52 to 2^53, which are the integers
      between. */
  const UNIT := 1075

  /** `n / 2^shift` rounded to nearest, ties to even. */
  function Rounded(n: nat, shift: nat): nat {
    var p := Pow2(shift);
    var q, r := n / p, n % p;
    if 2 * r > p || (2 * r == p && q % 2 == 1) then q + 1 else q
  }

  /** How many low bits of `n` do not fit in a 53-bit significand. */
  function Excess(n: nat): nat {
    if n < TWO53 then 0 else 1 + Excess(n / 2)
  }

  /** The bits of `m * 2^(exponent - UNIT)` for a significand that fits. */
  function Scaled(m: nat, exponent: nat): nat
    requires 0 < m < TWO53
    requires m * Pow2(exponent) >= TWO52
    decreases TWO53 - m
  {
    if m >= TWO52 then (1 + exponent) * TWO52 + (m - TWO52)
    else
      assert m * Pow2(exponent) == (2 * m) * Pow2(exponent - 1) by {
        Regroup(m, Pow2(exponent - 1));
      }
      Scaled(2 * m, exponent - 1)
  }

  function NatBits(n: nat): nat {
    if n == 0 then 0
    else if n < TWO52 then
      UnitIsNormal(n);
      Scaled(n, UNIT - 1)
    else
      RoundedRange(n);
      (UNIT + Excess(n)) * TWO52 + (Rounded(n, Excess(n)) - TWO52)
  }

  function Size(i: Micros): nat {
    if i < 0 then 0 - i else i
  }

  /** `i as f64`. */
  function FromInteger(i: Micros): Double {
    NatBitsBounded(Size(i));
    if i < 0 then TWO63 + NatBits(Size(i)) else NatBits(i)
  }

  lemma {:induction false} Pow2Sum(a: nat, b: nat)
    ensures Pow2(a + b) == Pow2(a) * Pow2(b)
    decreases a
  {
    if a > 0 {
      Pow2Sum(a - 1, b);
      Doubled(Pow2(a - 1), Pow2(b));
    }
  }

  lemma Doubled(x: nat, y: nat)
    ensures (2 * x) * y == 2 * (x * y)
  {
  }

  lemma Pow2At52()
    ensures Pow2(52) == TWO52
    ensures Pow2(11) == 2048
  {
    assert Pow2(11) == 2048 by { Pow2Sum(5, 6); assert Pow2(5) == 32 && Pow2(6) == 64; }
    Pow2Sum(2, 11);
    Pow2Sum(13, 13);
    Pow2Sum(26, 26);
  }

  lemma UnitIsNormal(n: nat)
    requires n > 0
    ensures n * Pow2(UNIT - 1) >= TWO52
  {
    Pow2At52();
    Pow2Monotone(52, UNIT - 1);
    MulAtMost(1, n, Pow2(UNIT - 1));
  }

  lemma {:induction false} ExcessRange(n: nat)
    requires n >= TWO52
    ensures TWO52 * Pow2(Excess(n)) <= n < TWO53 * Pow2(Excess(n))
  {
    if n >= TWO53 {
      ExcessRange(n / 2);
      var p := Pow2(Excess(n / 2));
      Regroup(TWO52, p);
      Regroup(TWO53, p);
      assert TWO52 * Pow2(Excess(n)) == 2 * (TWO52 * p);
      assert TWO53 * Pow2(Excess(n)) == 2 * (TWO53 * p);
    }
  }

  lemma CancelFactor(x: nat, y: nat, p: nat)
    requires x * p < y * p
    ensures x < y
  {
    if y <= x { MulAtMost(y, x, p); }
  }

  lemma QuotientRange(n: nat, p: nat, low: nat, high: nat)
    requires p > 0 && low * p <= n < high * p
    ensures low <= n / p < high
  {
    var q := n / p;
    assert n == q * p + n % p && (q + 1) * p == q * p + p;
    CancelFactor(low, q + 1, p);
    CancelFactor(q, high, p);
  }

  lemma RoundedRange(n: nat)
    requires n >= TWO52
    ensures TWO52 <= Rounded(n, Excess(n)) <= TWO53
  {
    ExcessRange(n);
    QuotientRange(n, Pow2(Excess(n)), TWO52, TWO53);
  }

  lemma NatBitsBounded(n: nat)
    requires n <= TWO63
    ensures NatBits(n) < 1100 * TWO52 < TWO63
  {
    if n >= TWO52 {
      RoundedRange(n);
      ExcessRange(n);
      Pow2At52();
      CancelFactor(Pow2(Excess(n)), 2 * 2048 + 1, TWO52);
      assert Pow2(13) == 8192 by { Pow2Sum(2, 11); }
      if Excess(n) > 12 { Pow2Monotone(13, Excess(n)); }
    } else if n > 0 {
      UnitIsNormal(n);
      ScaledExact(n, UNIT - 1);
    }
  }

  /** A significand that fits is represented exactly. */
  lemma {:induction false} ScaledExact(m: nat, exponent: nat)
    requires 0 < m < TWO53 && exponent < 2046
    requires m * Pow2(exponent) >= TWO52
    ensures TWO52 <= Scaled(m, exponent) < (2 + exponent) * TWO52
    ensures m < TWO52 ==> Scaled(m, exponent) < (1 + exponent) * TWO52
    ensures Magnitude(Scaled(m, exponent)) == m * Pow2(exponent)
    decreases TWO53 - m
  {
    var b := Scaled(m, exponent);
    if m >= TWO52 {
      assert b % TWO63 == b && b / TWO52 == 1 + exponent && b % TWO52 == m - TWO52;
    } else {
      assert m * Pow2(exponent) == (2 * m) * Pow2(exponent - 1) by {
        Regroup(m, Pow2(exponent - 1));
      }
      ScaledExact(2 * m, exponent - 1);
    }
  }

  lemma QuotientMonotone(a: nat, b: nat, p: nat)
    requires a <= b && p > 0
    ensures a / p < b / p || (a / p == b / p && a % p <= b % p)
  {
    var qa, qb := a / p, b / p;
    assert a == qa * p + a % p && b == qb * p + b % p;
    assert (qb + 1) * p == qb * p + p;
    CancelFactor(qa, qb + 1, p);
  }

  lemma RoundedMonotone(a: nat, b: nat, shift: nat)
    requires a <= b
    ensures Rounded(a, shift) <= Rounded(b, shift)
  {
    QuotientMonotone(a, b, Pow2(shift));
  }

  lemma ExcessMonotone(a: nat, b: nat)
    requires TWO52 <= a <= b
    ensures Excess(a) <= Excess(b)
  {
    ExcessRange(a);
    ExcessRange(b);
    if Excess(b) < Excess(a) {
      Pow2Monotone(Excess(b) + 1, Excess(a));
      Regroup(TWO52, Pow2(Excess(b)));
      MulAtMost(Pow2(Excess(b) + 1), Pow2(Excess(a)), TWO52);
    }
  }

  lemma {:induction false} NatBitsMonotone(a: nat, b: nat)
    requires a <= b
    ensures NatBits(a) <= NatBits(b)
  {
    hide Rounded;
    hide Excess;
    hide Scaled;
    hide Pow2;
    if a >= TWO52 {
      RoundedRange(a);
      RoundedRange(b);
      ExcessMonotone(a, b);
      if Excess(a) == Excess(b) { RoundedMonotone(a, b, Excess(a)); }
    } else if a > 0 {
      if b >= TWO52 {
        UnitIsNormal(a);
        ScaledExact(a, UNIT - 1);
        RoundedRange(b);
      } else {
        SmallMonotone(a, b);
      }
    }
  }

  lemma SmallMonotone(a: nat, b: nat)
    requires 0 < a <= b < TWO52
    ensures NatBits(a) <= NatBits(b)
  {
    hide Scaled;
    hide Pow2;
    hide Magnitude;
    UnitIsNormal(a);
    UnitIsNormal(b);
    ScaledExact(a, UNIT - 1);
    ScaledExact(b, UNIT - 1);
    MulAtMost(a, b, Pow2(UNIT - 1));
    var x: Double, y: Double := NatBits(a), NatBits(b);
    if y < x { MagnitudeOrder(y, x); }
  }

  lemma NatBitsExact(n: nat)
    requires n <= TWO53
    ensures NatBits(n) < TWO63 && Magnitude(NatBits(n)) == n * Pow2(UNIT - 1)
  {
    hide Magnitude;
    hide Scaled;
    NatBitsBounded(n);
    if n == TWO53 {
      LargestExact();
    } else if n >= TWO52 {
      assert Pow2(0) == 1 && Excess(n) == 0;
      assert Rounded(n, 0) == n;
      UnitExact(n);
    } else if n == 0 {
      ZeroExact();
    } else {
      UnitIsNormal(n);
      ScaledExact(n, UNIT - 1);
    }
  }

  lemma ZeroExact()
    ensures Magnitude(0) == 0
  {
  }

  lemma LargestBits()
    ensures NatBits(TWO53) == 1076 * TWO52
  {
    assert Pow2(0) == 1 && Pow2(1) == 2;
    assert Excess(TWO52) == 0 && Excess(TWO53) == 1;
    assert TWO53 / 2 == TWO52 && TWO53 % 2 == 0;
    assert Rounded(TWO53, 1) == TWO52;
  }

  lemma LargestExact()
    ensures NatBits(TWO53) < TWO63 && Magnitude(NatBits(TWO53)) == TWO53 * Pow2(UNIT - 1)
  {
    hide NatBits;
    LargestBits();
    var b: Double := NatBits(TWO53);
    assert Exponent(b) == 1076 && Fraction(b) == 0;
    Regroup(TWO52, Pow2(UNIT - 1));
    assert Pow2(1075) == 2 * Pow2(1074);
  }

  lemma UnitExact(n: nat)
    requires TWO52 <= n < TWO53
    ensures Magnitude(UNIT * TWO52 + (n - TWO52)) == n * Pow2(UNIT - 1)
  {
    var b: Double := UNIT * TWO52 + (n - TWO52);
    assert b % TWO63 == b && b / TWO52 == UNIT && b % TWO52 == n - TWO52;
  }

  /** The cast keeps integer order. */
  lemma CastKeepsOrder(i: Micros, j: Micros)
    requires i <= j
    ensures Numeric(FromInteger(i)) <= Numeric(FromInteger(j))
  {
    CastMagnitude(i);
    CastMagnitude(j);
    if j < 0 {
      MagnitudeMonotone(Size(j), Size(i));
    } else if i >= 0 {
      MagnitudeMonotone(Size(i), Size(j));
    }
  }

  lemma MagnitudeMonotone(a: nat, b: nat)
    requires a <= b <= TWO63
    ensures NatBits(a) < TWO64 && NatBits(b) < TWO64 && Magnitude(NatBits(a)) <= Magnitude(NatBits(b))
  {
    NatBitsBounded(a);
    NatBitsBounded(b);
    NatBitsMonotone(a, b);
    if NatBits(a) < NatBits(b) { MagnitudeOrder(NatBits(a), NatBits(b)); }
  }

  /** Up to 2^53 in size the cast is exact. */
  lemma CastExact(i: Micros)
    requires -TWO53 <= i <= TWO53
    ensures Numeric(FromInteger(i)) == i * Pow2(UNIT - 1)
  {
    hide Magnitude;
    hide NatBits;
    hide Pow2;
    CastMagnitude(i);
    NatBitsExact(Size(i));
    assert i < 0 ==> 0 - Size(i) * Pow2(UNIT - 1) == i * Pow2(UNIT - 1);
  }

  lemma CastMagnitude(i: Micros)
    ensures NatBits(Size(i)) < 1100 * TWO52
    ensures Magnitude(FromInteger(i)) == Magnitude(NatBits(Size(i)))
    ensures !IsNaN(FromInteger(i))
  {
    NatBitsBounded(Size(i));
    MagnitudeEqual(FromInteger(i), NatBits(Size(i)));
    Fields(FromInteger(i));
  }

  // ── Rounding to nearest ───────────────────────────────────────────────────

  /** The value one integer unit has on the scale of `Magnitude`. */
  function One(): (one: nat)
    ensures one > 0
  {
    Pow2(UNIT - 1)
  }

  /** The pattern of a significand above the units, `TWO53` carrying over. */
  function PatternOf(m: nat, excess: nat): nat
    requires TWO52 <= m <= TWO53
  {
    (UNIT + excess) * TWO52 + (m - TWO52)
  }

  lemma PatternFits(m: nat, excess: nat)
    requires TWO52 <= m <= TWO53 && excess <= 12
    ensures PatternOf(m, excess) < 1100 * TWO52 < TWO63
  {
    MulAtMost(UNIT + excess, UNIT + 12, TWO52);
  }

  lemma PatternExact(m: nat, excess: nat)
    requires TWO52 <= m <= TWO53 && excess <= 12
    ensures PatternOf(m, excess) < TWO63 && Magnitude(PatternOf(m, excess)) == m * Pow2(UNIT - 1 + excess)
  {
    hide Magnitude;
    hide Scaled;
    PatternFits(m, excess);
    if m < TWO53 {
      MulAtMost(1, Pow2(UNIT - 1 + excess), TWO52);
      MulAtMost(TWO52, m, Pow2(UNIT - 1 + excess));
      ScaledExact(m, UNIT - 1 + excess);
      NormalScaled(m, UNIT - 1 + excess);
    } else {
      CarriedExact(excess);
    }
  }

  lemma NormalScaled(m: nat, exponent: nat)
    requires TWO52 <= m < TWO53 && m * Pow2(exponent) >= TWO52
    ensures Scaled(m, exponent) == (1 + exponent) * TWO52 + (m - TWO52)
  {
  }

  lemma CarriedExact(excess: nat)
    requires excess <= 12
    ensures PatternOf(TWO53, excess) < TWO63 && Magnitude(PatternOf(TWO53, excess)) == TWO53 * Pow2(UNIT - 1 + excess)
  {
    PatternFits(TWO53, excess);
    var e := UNIT + excess + 1;
    assert PatternOf(TWO53, excess) == e * TWO52;
    var b: Double := e * TWO52;
    assert b % TWO63 == b && b / TWO52 == e && b % TWO52 == 0;
    var p := Pow2(UNIT - 1 + excess);
    assert Pow2(e - 1) == 2 * p;
    Regroup(TWO52, p);
  }

  lemma ExcessSmall(n: nat)
    requires TWO52 <= n <= TWO63
    ensures Excess(n) <= 12
  {
    ExcessRange(n);
    Pow2At52();
    CancelFactor(Pow2(Excess(n)), 2 * 2048 + 1, TWO52);
    assert Pow2(13) == 8192 by { Pow2Sum(2, 11); }
    if Excess(n) > 12 { Pow2Monotone(13, Excess(n)); }
  }

  function Apart(a: int, b: int): nat {
    if a < b then b - a else a - b
  }

  /** No double lies strictly between two consecutive significands. */
  lemma NoneBetween(g: Double, q: nat, excess: nat)
    requires TWO52 <= q < TWO53 && excess <= 12
    ensures var u := Pow2(UNIT - 1 + excess);
      Magnitude(g) <= q * u || Magnitude(g) >= q * u + u
  {
    hide Magnitude;
    PatternExact(q, excess);
    PatternExact(q + 1, excess);
    var low: Double, high: Double := PatternOf(q, excess), PatternOf(q + 1, excess);
    var bare := g % TWO63;
    var u := Pow2(UNIT - 1 + excess);
    assert high == low + 1 && (q + 1) * u == q * u + u;
    if bare < low {
      MagnitudeOrder(g, low);
    } else if bare == low {
      MagnitudeEqual(g, low);
    } else if bare == high {
      MagnitudeEqual(g, high);
    } else {
      MagnitudeOrder(high, g);
    }
  }

  lemma Split(n: nat, p: nat)
    requires p > 0
    ensures n == (n / p) * p + n % p && n % p < p
  {
  }

  /** Where a large number lies between two consecutive significands. */
  lemma Position(n: nat)
    requires TWO52 <= n <= TWO63
    ensures var p, u := Pow2(Excess(n)), Pow2(UNIT - 1 + Excess(n));
      && TWO52 <= n / p < TWO53 && n % p < p && u == p * One()
      && n * One() == (n / p) * u + (n % p) * One()
  {
    hide Pow2;
    hide Excess;
    var p, o := Pow2(Excess(n)), One();
    ExcessRange(n);
    QuotientRange(n, p, TWO52, TWO53);
    Pow2Sum(Excess(n), UNIT - 1);
    Split(n, p);
    Spread(n / p, p, n % p, o);
    hide *;
  }

  lemma Spread(q: nat, p: nat, r: nat, o: nat)
    ensures (q * p + r) * o == q * (p * o) + r * o
  {
  }

  /** The pattern of a large number is that of its rounded significand. */
  lemma LargeBits(n: nat)
    requires TWO52 <= n <= TWO63
    ensures var m := Rounded(n, Excess(n));
      && TWO52 <= m <= TWO53 && NatBits(n) == PatternOf(m, Excess(n)) && NatBits(n) < TWO63
      && Magnitude(NatBits(n)) == m * Pow2(UNIT - 1 + Excess(n))
  {
    hide Rounded;
    hide Excess;
    hide Magnitude;
    RoundedRange(n);
    ExcessSmall(n);
    PatternExact(Rounded(n, Excess(n)), Excess(n));
  }

  lemma FractionParity(m: nat, excess: nat)
    requires TWO52 <= m <= TWO53 && excess <= 12 && PatternOf(m, excess) < TWO63
    ensures Fraction(PatternOf(m, excess)) % 2 == m % 2
  {
    if m == TWO53 {
      assert PatternOf(m, excess) == (UNIT + excess + 1) * TWO52;
    } else {
      assert PatternOf(m, excess) % TWO52 == m - TWO52;
    }
  }

  /** Of the two neighbours the nearer one is taken, or the even one. */
  lemma RoundedIs(n: nat, shift: nat, o: nat)
    requires o > 0
    ensures var p := Pow2(shift);
      var q, rest, unit := n / p, (n % p) * o, p * o;
      && (2 * rest < unit ==> Rounded(n, shift) == q)
      && (2 * rest > unit ==> Rounded(n, shift) == q + 1)
      && (2 * rest == unit ==> Rounded(n, shift) % 2 == 0 && (Rounded(n, shift) == q || Rounded(n, shift) == q + 1))
  {
    var p, r := Pow2(shift), n % Pow2(shift);
    assert 2 * (r * o) == (2 * r) * o;
    if 2 * r < p { MulLess(2 * r, p, o); }
    if 2 * r > p { MulLess(p, 2 * r, o); }
  }

  lemma NearestOfTwo(x: int, u: int, rest: int, f: int, g: int, even: bool)
    requires 0 <= rest < u <= x && (g <= x || x + u <= g)
    requires 2 * rest < u ==> f == x
    requires 2 * rest > u ==> f == x + u
    requires 2 * rest == u ==> even && (f == x || f == x + u)
    ensures Apart(f, x + rest) <= Apart(g, x + rest) && Apart(f, x + rest) <= x + rest
    ensures Apart(f, x + rest) == Apart(g, x + rest) && f != g ==> even
  {
  }

  /** No double is nearer, and of two as near the one taken is even. */
  lemma NearestLarge(n: nat, g: Double)
    requires TWO52 <= n <= TWO63
    ensures NatBits(n) < TWO63
    ensures var f := NatBits(n);
      && Apart(Magnitude(f), n * One()) <= Apart(Magnitude(g), n * One())
      && Apart(Magnitude(f), n * One()) <= n * One()
      && (Apart(Magnitude(f), n * One()) == Apart(Magnitude(g), n * One()) && Magnitude(f) != Magnitude(g) ==> Fraction(f) % 2 == 0)
  {
    hide Rounded;
    hide Excess;
    hide Magnitude;
    hide NatBits;
    hide PatternOf;
    hide Fraction;
    hide Pow2;
    hide One;
    hide Apart;
    var p, u, o := Pow2(Excess(n)), Pow2(UNIT - 1 + Excess(n)), One();
    var q, m := n / p, Rounded(n, Excess(n));
    Position(n);
    ExcessSmall(n);
    LargeBits(n);
    NoneBetween(g, q, Excess(n));
    RoundedIs(n, Excess(n), o);
    FractionParity(m, Excess(n));
    MulLess(n % p, p, o);
    MulAtMost(1, q, u);
    NextStep(q, u);
    NearestOfTwo(q * u, u, (n % p) * o, Magnitude(NatBits(n)), Magnitude(g), m % 2 == 0);
  }

  lemma NextStep(q: nat, u: nat)
    ensures (q + 1) * u == q * u + u
  {
  }

  lemma NearestSmall(n: nat)
    requires n <= TWO53
    ensures NatBits(n) < TWO63 && Apart(Magnitude(NatBits(n)), n * One()) == 0
  {
    hide Magnitude;
    NatBitsExact(n);
  }

  lemma NearestMagnitude(n: nat, g: Double)
    requires n <= TWO63
    ensures NatBits(n) < TWO63
    ensures var f := NatBits(n);
      && Apart(Magnitude(f), n * One()) <= Apart(Magnitude(g), n * One())
      && Apart(Magnitude(f), n * One()) <= n * One()
      && (Apart(Magnitude(f), n * One()) == Apart(Magnitude(g), n * One()) && Magnitude(f) != Magnitude(g) ==> Fraction(f) % 2 == 0)
  {
    hide Magnitude;
    hide NatBits;
    hide Fraction;
    hide One;
    if n < TWO52 { NearestSmall(n); } else { NearestLarge(n, g); }
  }

  /** The cast takes the nearest double, and of two as near the one whose
      significand is even. */
  lemma CastIsNearest(i: Micros, g: Double)
    requires !IsNaN(g)
    ensures var f := FromInteger(i);
      && Apart(Numeric(f), i * One()) <= Apart(Numeric(g), i * One())
      && (Apart(Numeric(f), i * One()) == Apart(Numeric(g), i * One()) && Numeric(f) != Numeric(g) ==> Fraction(f) % 2 == 0)
  {
    hide Magnitude;
    hide NatBits;
    hide One;
    CastMagnitude(i);
    NearestMagnitude(Size(i), g);
    assert i < 0 ==> i * One() == 0 - Size(i) * One();
    FractionOfSigned(i);
  }

  lemma FractionOfSigned(i: Micros)
    ensures NatBits(Size(i)) < TWO63 && Fraction(FromInteger(i)) == Fraction(NatBits(Size(i)))
  {
    NatBitsBounded(Size(i));
  }
}
