/** The 8-byte sortable forms of doubles and of microsecond counts, and the
    big-endian byte order that carries them into keys.

    A double is its 64 bits read as an unsigned integer; `Numeric` is the number
    it denotes, scaled by 2^1074 so that every finite double is an integer and
    an infinity lies beyond all of them. */
module Numbers {
  import opened ByteOrder

  const TWO52 := 0x10_0000_0000_0000
  const TWO63 := 0x8000_0000_0000_0000
  const TWO64 := 0x1_0000_0000_0000_0000

  type Double = b: int | 0 <= b < TWO64
  type Micros = i: int | -TWO63 <= i < TWO63

  /** The one NaN every NaN is stored as. */
  const NAN: Double := 0x7FF8_0000_0000_0000

  // ── Big-endian bytes ──────────────────────────────────────────────────────

  function Pow256(width: nat): (p: nat)
    ensures p > 0
  {
    if width == 0 then 1 else 256 * Pow256(width - 1)
  }

  function BigEndian(n: nat, width: nat): (s: Bytes)
    ensures |s| == width
  {
    if width == 0 then [] else BigEndian(n / 256, width - 1) + [n % 256]
  }

  function FromBigEndian(s: Bytes): nat {
    if s == [] then 0 else 256 * FromBigEndian(s[..|s| - 1]) + s[|s| - 1]
  }

  lemma {:induction false} BigEndianRoundTrip(n: nat, width: nat)
    requires n < Pow256(width)
    ensures FromBigEndian(BigEndian(n, width)) == n
  {
    if width > 0 {
      BigEndianRoundTrip(n / 256, width - 1);
      var s := BigEndian(n, width);
      assert s[..|s| - 1] == BigEndian(n / 256, width - 1);
    }
  }

  /** Bytes of one width sort as the numbers they spell. */
  lemma {:induction false} BigEndianOrder(a: nat, b: nat, width: nat)
    requires a < Pow256(width) && b < Pow256(width)
    ensures Less(BigEndian(a, width), BigEndian(b, width)) <==> a < b
    ensures BigEndian(a, width) == BigEndian(b, width) <==> a == b
  {
    BigEndianRoundTrip(a, width);
    BigEndianRoundTrip(b, width);
    if width > 0 {
      BigEndianOrder(a / 256, b / 256, width - 1);
      var x, y := BigEndian(a / 256, width - 1), BigEndian(b / 256, width - 1);
      if x == y {
        CommonPrefix(x, [a % 256], [b % 256]);
      } else {
        Trichotomy(x, y);
        if Less(x, y) {
          DecidedEarly(x, y, [a % 256], [b % 256]);
        } else {
          DecidedEarly(y, x, [b % 256], [a % 256]);
          Trichotomy(BigEndian(a, width), BigEndian(b, width));
        }
      }
    }
  }

  lemma WordWidth()
    ensures Pow256(8) == TWO64
    ensures Pow256(4) == 0x1_0000_0000
  {
    assert Pow256(4) == 256 * (256 * (256 * (256 * Pow256(0))));
    assert Pow256(8) == 256 * (256 * (256 * (256 * Pow256(4))));
  }

  // ── Doubles ───────────────────────────────────────────────────────────────

  function Exponent(b: Double): nat {
    (b % TWO63) / TWO52
  }

  function Fraction(b: Double): nat {
    b % TWO52
  }

  predicate IsNaN(b: Double) {
    Exponent(b) == 2047 && Fraction(b) != 0
  }

  /** `f == 0.0`, which both zeros satisfy. */
  predicate IsZero(b: Double) {
    b % TWO63 == 0
  }

  function Pow2(n: nat): (p: nat)
    ensures p > 0
  {
    if n == 0 then 1 else 2 * Pow2(n - 1)
  }

  /** The absolute value the bits denote, times 2^1074. */
  function Magnitude(b: Double): nat {
    if Exponent(b) == 0 then Fraction(b) else (TWO52 + Fraction(b)) * Pow2(Exponent(b) - 1)
  }

  function Numeric(b: Double): int {
    if b >= TWO63 then 0 - Magnitude(b) else Magnitude(b)
  }

  function Canonical(b: Double): Double {
    if IsZero(b) then 0 else if IsNaN(b) then NAN else b
  }

  /** Sign bit set: every bit flipped. Sign bit clear: the sign bit flipped. */
  function Sortable(b: Double): Double {
    if b >= TWO63 then TWO64 - 1 - b else b + TWO63
  }

  function NumberBytes(b: Double): Bytes {
    BigEndian(Sortable(Canonical(b)), 8)
  }

  function MomentBytes(micros: Micros): Bytes {
    BigEndian(micros + TWO63, 8)
  }

  lemma {:induction false} Pow2Monotone(a: nat, b: nat)
    requires a <= b
    ensures Pow2(a) <= Pow2(b)
    decreases b
  {
    if a < b {
      Pow2Monotone(a, b - 1);
    }
  }

  lemma MulLess(x: nat, y: nat, p: nat)
    requires x < y && p > 0
    ensures x * p < y * p
  {
  }

  lemma MulAtMost(x: nat, y: nat, p: nat)
    requires x <= y
    ensures x * p <= y * p && p * x <= p * y
  {
  }

  lemma Regroup(x: nat, y: nat)
    ensures (2 * x) * y == x * (2 * y)
  {
  }

  lemma Fields(b: Double)
    ensures b % TWO63 == Exponent(b) * TWO52 + Fraction(b)
    ensures Fraction(b) < TWO52
  {
    var q := b / TWO63;
    assert b == q * TWO63 + b % TWO63;
  }

  lemma MagnitudeBelow(b: Double)
    ensures Magnitude(b) < TWO52 * Pow2(Exponent(b))
  {
    var e, f := Exponent(b), Fraction(b);
    if e > 0 {
      var p := Pow2(e - 1);
      MulLess(TWO52 + f, 2 * TWO52, p);
      Regroup(TWO52, p);
    }
  }

  lemma MagnitudeAtLeast(b: Double)
    requires Exponent(b) > 0
    ensures TWO52 * Pow2(Exponent(b) - 1) <= Magnitude(b)
  {
    MulAtMost(TWO52, TWO52 + Fraction(b), Pow2(Exponent(b) - 1));
  }

  /** The larger pattern below the sign bit denotes the larger magnitude. */
  lemma MagnitudeOrder(a: Double, b: Double)
    requires a % TWO63 < b % TWO63
    ensures Magnitude(a) < Magnitude(b)
  {
    Fields(a);
    Fields(b);
    if Exponent(a) == Exponent(b) {
      if Exponent(a) > 0 {
        MulLess(TWO52 + Fraction(a), TWO52 + Fraction(b), Pow2(Exponent(a) - 1));
      }
    } else {
      MagnitudeBelow(a);
      MagnitudeAtLeast(b);
      Pow2Monotone(Exponent(a), Exponent(b) - 1);
      MulAtMost(Pow2(Exponent(a)), Pow2(Exponent(b) - 1), TWO52);
    }
  }

  lemma MagnitudeZero(b: Double)
    ensures Magnitude(b) == 0 <==> IsZero(b)
  {
    Fields(b);
    if b % TWO63 != 0 {
      MagnitudeOrder(0, b);
    }
  }

  lemma MagnitudeEqual(a: Double, b: Double)
    requires a % TWO63 == b % TWO63
    ensures Magnitude(a) == Magnitude(b)
  {
    Fields(a);
    Fields(b);
  }

  lemma SortableOrder(a: Double, b: Double)
    requires !IsNaN(a) && !IsNaN(b)
    ensures Sortable(Canonical(a)) < Sortable(Canonical(b)) <==> Numeric(a) < Numeric(b)
    ensures Canonical(a) == Canonical(b) <==> Numeric(a) == Numeric(b)
  {
    hide Magnitude;
    MagnitudeZero(a);
    MagnitudeZero(b);
    if a % TWO63 < b % TWO63 {
      MagnitudeOrder(a, b);
    } else if b % TWO63 < a % TWO63 {
      MagnitudeOrder(b, a);
    } else {
      MagnitudeEqual(a, b);
    }
  }

  /** Stored doubles sort by the numbers they denote; equal numbers, both zeros
      among them, share one form and so do all NaNs, which no number shares. */
  lemma NumberBytesOrder(a: Double, b: Double)
    ensures !IsNaN(a) && !IsNaN(b) ==> (Less(NumberBytes(a), NumberBytes(b)) <==> Numeric(a) < Numeric(b))
    ensures !IsNaN(a) && !IsNaN(b) ==> (NumberBytes(a) == NumberBytes(b) <==> Numeric(a) == Numeric(b))
    ensures IsNaN(a) && IsNaN(b) ==> NumberBytes(a) == NumberBytes(b)
    ensures IsNaN(a) && !IsNaN(b) ==> Less(NumberBytes(b), NumberBytes(a))
  {
    WordWidth();
    BigEndianOrder(Sortable(Canonical(a)), Sortable(Canonical(b)), 8);
    BigEndianOrder(Sortable(Canonical(b)), Sortable(Canonical(a)), 8);
    if !IsNaN(a) && !IsNaN(b) {
      SortableOrder(a, b);
    }
  }

  /** Stored microsecond counts sort by value over the whole signed range. */
  lemma MomentBytesOrder(a: Micros, b: Micros)
    ensures Less(MomentBytes(a), MomentBytes(b)) <==> a < b
    ensures MomentBytes(a) == MomentBytes(b) <==> a == b
  {
    WordWidth();
    BigEndianOrder(a + TWO63, b + TWO63, 8);
  }
}
