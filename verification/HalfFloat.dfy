/**
 Conversion between double and half precision (cborinternal_p.h). A double is its 64 bit
 pattern and a half its 16 bit pattern, both as naturals. Magnitudes are exact: those of
 doubles count units of 2^-1074 and those of halves count units of 2^-24, so that one unit
 of a half is Pow2(1050) units of a double.
 */
module HalfFloats {

  function Pow2(n: nat): (r: nat)
    ensures r >= 1
  {
    if n == 0 then 1 else 2 * Pow2(n - 1)
  }

  lemma {:induction false} Pow2Sum(a: nat, b: nat)
    ensures Pow2(a + b) == Pow2(a) * Pow2(b)
    decreases a
  {
    if a > 0 {
      Pow2Sum(a - 1, b);
      assert Pow2(a + b) == 2 * (Pow2(a - 1) * Pow2(b));
    }
  }

  lemma {:induction false} Pow2Grows(a: nat, b: nat)
    requires a <= b
    ensures Pow2(a) <= Pow2(b)
  {
    Pow2Sum(b - a, a);
    assert Pow2(b - a) * Pow2(a) >= Pow2(a);
  }

  lemma SmallPowers()
    ensures Pow2(10) == 1024 && Pow2(11) == 2048
    ensures Pow2(42) == 0x400_0000_0000 && Pow2(52) == 0x10_0000_0000_0000
  {
    assert Pow2(5) == 32;
    Pow2Sum(5, 5);
    assert Pow2(11) == 2 * Pow2(10);
    Pow2Sum(10, 10);
    Pow2Sum(20, 20);
    assert Pow2(41) == 2 * Pow2(40);
    assert Pow2(42) == 2 * Pow2(41);
    Pow2Sum(42, 10);
  }

  // ----- Doubles (binary64 of IEEE 754)

  type Bits64 = v: nat | v < 0x1_0000_0000_0000_0000

  predicate Negative(v: Bits64) {
    v / 0x8000_0000_0000_0000 == 1
  }

  function Exponent(v: Bits64): (e: nat)
    ensures e < 2048
  {
    v / 0x10_0000_0000_0000 % 2048
  }

  function Fraction(v: Bits64): (f: nat)
    ensures f < 0x10_0000_0000_0000
  {
    v % 0x10_0000_0000_0000
  }

  predicate IsFinite(v: Bits64) {
    Exponent(v) != 2047
  }

  // The magnitude of a finite double in units of 2^-1074.
  function Magnitude(v: Bits64): nat {
    if Exponent(v) == 0 then Fraction(v)
    else (0x10_0000_0000_0000 + Fraction(v)) * Pow2(Exponent(v) - 1)
  }

  // ----- Halves (binary16 of IEEE 754)

  type Bits16 = h: nat | h < 0x1_0000

  const INFINITE_HALF := 31 * 1024

  predicate HalfNegative(h: Bits16) {
    h / 0x8000 == 1
  }

  // Exponent and fraction together; they order the finite magnitudes.
  function Code(h: Bits16): (c: nat)
    ensures c < 0x8000
  {
    h % 0x8000
  }

  // The magnitude of code c in units of 2^-24.
  function Scaled(c: nat): nat {
    if c < 1024 then c else (1024 + c % 1024) * Pow2(c / 1024 - 1)
  }

  datatype Number =
    | Finite(negative: bool, magnitude: nat)
    | Infinite(negative: bool)
    | NotANumber

  // decode_half, with magnitudes in units of 2^-24.
  function DecodeHalf(h: Bits16): Number {
    var exp := h / 1024 % 32;
    var mant := h % 1024;
    if exp == 0 then Finite(h / 0x8000 == 1, mant)
    else if exp != 31 then Finite(h / 0x8000 == 1, (mant + 1024) * Pow2(exp - 1))
    else if mant == 0 then Infinite(h / 0x8000 == 1)
    else NotANumber
  }

  lemma DecodeByCode(h: Bits16)
    ensures DecodeHalf(h).Finite? <==> Code(h) < INFINITE_HALF
    ensures DecodeHalf(h).Finite? ==> DecodeHalf(h) == Finite(HalfNegative(h), Scaled(Code(h)))
    ensures DecodeHalf(h).Infinite? <==> Code(h) == INFINITE_HALF
  {
    hide Pow2;
    var sign := h / 0x8000;
    assert h == sign * 0x8000 + Code(h);
    assert h / 1024 == sign * 32 + Code(h) / 1024;
    assert Code(h) / 1024 == h / 1024 % 32;
    assert Code(h) % 1024 == h % 1024;
  }

  // ----- Rounding

  // c is the code of the greatest finite half not above d units of 2^-1074.
  ghost predicate RoundsDown(d: nat, c: nat) {
    && c < INFINITE_HALF
    && Scaled(c) * Pow2(1050) <= d
    && forall k: nat :: k < INFINITE_HALF && Scaled(k) * Pow2(1050) <= d ==> Scaled(k) <= Scaled(c)
  }

  // One step up in code is one unit in the last place.
  lemma NextScaled(c: nat)
    ensures Scaled(c + 1) == Scaled(c) + (if c < 1024 then 1 else Pow2(c / 1024 - 1))
  {
    if c >= 1024 {
      var e, m := c / 1024, c % 1024;
      if m < 1023 {
        assert (c + 1) / 1024 == e && (c + 1) % 1024 == m + 1;
      } else {
        assert (c + 1) / 1024 == e + 1 && (c + 1) % 1024 == 0;
        assert Pow2(e) == 2 * Pow2(e - 1);
      }
    } else if c == 1023 {
      assert Pow2(0) == 1;
    }
  }

  lemma {:induction false} ScaledGrows(a: nat, b: nat)
    requires a < b
    ensures Scaled(a) < Scaled(b)
    decreases b
  {
    NextScaled(b - 1);
    if a < b - 1 {
      ScaledGrows(a, b - 1);
    }
  }

  lemma FloorRoundsDown(d: nat, c: nat)
    ensures
      && c < INFINITE_HALF && Scaled(c) * Pow2(1050) <= d
      && (c + 1 < INFINITE_HALF ==> d < Scaled(c + 1) * Pow2(1050))
      ==> RoundsDown(d, c)
  {
    hide Pow2, Scaled;
    var unit := Pow2(1050);
    forall k: nat
      ensures k > c ==> Scaled(c + 1) * unit <= Scaled(k) * unit
      ensures k < c ==> Scaled(k) <= Scaled(c)
    {
      if k > c {
        if k > c + 1 {
          ScaledGrows(c + 1, k);
        }
        MultiplyMonotone(Scaled(c + 1), Scaled(k), unit);
      } else if k < c {
        ScaledGrows(k, c);
      }
    }
  }

  lemma MultiplyMonotone(a: nat, b: nat, c: nat)
    requires a <= b
    ensures a * c <= b * c
  {
  }

  // The rounded code is unique.
  lemma RoundsDownUnique(d: nat, c: nat, k: nat)
    ensures RoundsDown(d, c) && RoundsDown(d, k) ==> c == k
  {
    hide Pow2, Scaled;
    if c < k {
      ScaledGrows(c, k);
    } else if k < c {
      ScaledGrows(k, c);
    }
  }

  // d lies between n and n + 1 units of 2^-24 shifted left by s.
  lemma Between(n: nat, q: nat, s: nat, t: nat)
    requires q < Pow2(s)
    ensures n * Pow2(s + t) <= (n * Pow2(s) + q) * Pow2(t) < (n + 1) * Pow2(s + t)
  {
    hide Pow2;
    Pow2Sum(s, t);
    ScaleBetween(n, q, Pow2(s), Pow2(t));
  }

  lemma ScaleBetween(n: nat, q: nat, p: nat, u: nat)
    requires q < p && u >= 1
    ensures n * (p * u) <= (n * p + q) * u < (n + 1) * (p * u)
  {
    assert (n * p + q) * u == n * (p * u) + q * u by {
      Regroup(n, p, u);
      Distribute(n * p, q, u);
    }
    assert (n + 1) * (p * u) == n * (p * u) + p * u by {
      Distribute(n, 1, p * u);
    }
    MultiplyMonotone(q + 1, p, u);
    Distribute(q, 1, u);
  }

  lemma Distribute(a: nat, b: nat, c: nat)
    ensures (a + b) * c == a * c + b * c
  {
  }

  lemma NormalCase(v: Bits64, c: nat)
    requires 1009 <= Exponent(v) <= 1038
    requires c == (Exponent(v) - 1008) * 1024 + Fraction(v) / 0x400_0000_0000
    ensures RoundsDown(Magnitude(v), c)
  {
    hide Pow2;
    var e, f := Exponent(v), Fraction(v);
    var mant := f / 0x400_0000_0000;
    assert mant < 1024;
    assert c / 1024 == e - 1008 && c % 1024 == mant;
    SmallPowers();
    Between(1024 + mant, f % 0x400_0000_0000, 42, e - 1);
    assert (1024 + mant) * Pow2(42) + f % 0x400_0000_0000 == 0x10_0000_0000_0000 + f;
    Pow2Sum(e - 1009, 1050);
    assert 42 + (e - 1) == e - 1009 + 1050;
    Regroup(1024 + mant, Pow2(e - 1009), Pow2(1050));
    Regroup(1024 + mant + 1, Pow2(e - 1009), Pow2(1050));
    assert Scaled(c) == (1024 + mant) * Pow2(e - 1009);
    NextScaled(c);
    assert Scaled(c + 1) == (1024 + mant + 1) * Pow2(e - 1009);
    FloorRoundsDown(Magnitude(v), c);
  }

  lemma Regroup(a: nat, b: nat, c: nat)
    ensures a * b * c == a * (b * c)
  {
  }

  lemma SubnormalCase(v: Bits64, c: nat)
    requires 999 <= Exponent(v) <= 1008
    requires c == (1024 + Fraction(v) / 0x400_0000_0000) / Pow2(1009 - Exponent(v))
    ensures 1 <= c < 1024 && RoundsDown(Magnitude(v), c)
  {
    hide Pow2;
    var e, f := Exponent(v), Fraction(v);
    var s := 1009 - e;
    var high := 1024 + f / 0x400_0000_0000;
    var q := high % Pow2(s);
    SmallPowers();
    assert high < Pow2(11);
    Pow2Grows(s, 10);
    Pow2Grows(1, s);
    assert Pow2(1) == 2 by { assert Pow2(1) == 2 * Pow2(0) && Pow2(0) == 1 by { PowersOne(); } }
    Quotient(high, Pow2(s));
    var low := q * 0x400_0000_0000 + f % 0x400_0000_0000;
    assert q + 1 <= Pow2(s);
    Pow2Sum(s, 42);
    assert low < Pow2(s + 42) by {
      MultiplyMonotone(q + 1, Pow2(s), 0x400_0000_0000);
    }
    Between(c, low, s + 42, e - 1);
    assert s + 42 + (e - 1) == 1050;
    assert c * Pow2(s + 42) + low == 0x10_0000_0000_0000 + f by {
      Regroup(c, Pow2(s), 0x400_0000_0000);
      assert (c * Pow2(s) + q) * 0x400_0000_0000 + f % 0x400_0000_0000 == 0x10_0000_0000_0000 + f;
    }
    NextScaled(c);
    FloorRoundsDown(Magnitude(v), c);
  }

  lemma PowersOne()
    ensures Pow2(0) == 1 && Pow2(1) == 2
  {
  }

  lemma Quotient(n: nat, d: nat)
    requires 2 <= d <= 1024 <= n < 2048
    ensures 1 <= n / d < 1024
    ensures n == n / d * d + n % d
  {
    assert n == n / d * d + n % d;
    if n / d >= 1024 {
      MultiplyMonotone(1024, n / d, d);
    }
  }

  lemma OverflowCase(v: Bits64)
    requires 1039 <= Exponent(v) < 2047
    ensures RoundsDown(Magnitude(v), INFINITE_HALF - 1)
  {
    hide Pow2;
    var c := INFINITE_HALF - 1;
    assert c / 1024 == 30 && c % 1024 == 1023;
    SmallPowers();
    Pow2Sum(11, 29);
    Pow2Sum(40, 1050);
    Pow2Sum(52, 1038);
    Pow2Grows(1038, Exponent(v) - 1);
    assert Scaled(c) < Pow2(40);
    MultiplyMonotone(Scaled(c), Pow2(40), Pow2(1050));
    MultiplyMonotone(Pow2(1038), Pow2(Exponent(v) - 1), Pow2(52));
    MultiplyMonotone(Pow2(52), 0x10_0000_0000_0000 + Fraction(v), Pow2(Exponent(v) - 1));
    FloorRoundsDown(Magnitude(v), c);
  }

  lemma UnderflowCase(v: Bits64)
    requires Exponent(v) < 999
    ensures Magnitude(v) < Pow2(1050) && RoundsDown(Magnitude(v), 0)
  {
    hide Pow2;
    SmallPowers();
    var e, f := Exponent(v), Fraction(v);
    if e == 0 {
      Pow2Grows(52, 1050);
    } else {
      Pow2Grows(e - 1, 997);
      Pow2Sum(53, 997);
      Pow2Sum(1, 52);
      PowersOne();
      assert 0x10_0000_0000_0000 + f < Pow2(53);
      MultiplyMonotone(0x10_0000_0000_0000 + f + 1, Pow2(53), Pow2(e - 1));
      MultiplyMonotone(Pow2(e - 1), Pow2(997), Pow2(53));
      StrictlyLess(0x10_0000_0000_0000 + f, Pow2(e - 1));
    }
    FloorRoundsDown(Magnitude(v), 0);
  }

  lemma StrictlyLess(a: nat, b: nat)
    requires b >= 1
    ensures a * b < (a + 1) * b
  {
  }

  // Rounding down gives a half of magnitude zero exactly below one unit.
  lemma RoundsToZero(d: nat, c: nat)
    requires RoundsDown(d, c)
    ensures c == 0 <==> d < Pow2(1050)
  {
    hide Pow2;
    assert Scaled(0) == 0 && Scaled(1) == 1;
    if c > 0 {
      ScaledGrows(0, c);
      MultiplyMonotone(1, Scaled(c), Pow2(1050));
    }
  }

  /**
   encode_half: every finite double becomes the greatest finite half of no larger
   magnitude. The sign survives unless the magnitude is below the smallest half, when the
   result is the positive zero; this includes the negative zero. A NaN stays one exactly
   when one of the nine leading bits of its fraction is set, and otherwise turns into
   an infinity.
   */
  method EncodeHalf(val: Bits64) returns (half: Bits16)
    ensures IsFinite(val) ==> RoundsDown(Magnitude(val), Code(half))
    ensures IsFinite(val) ==>
              (HalfNegative(half) <==> Negative(val) && Magnitude(val) >= Pow2(1050))
    ensures !IsFinite(val) ==> (HalfNegative(half) <==> Negative(val))
    ensures !IsFinite(val) ==>
              if Fraction(val) >= 0x800_0000_0000 then DecodeHalf(half) == NotANumber
              else DecodeHalf(half) == Infinite(Negative(val))
  {
    hide Pow2, Magnitude, RoundsDown, Code, HalfNegative, DecodeHalf, Scaled, ShiftRight;
    var sign := val / 0x8000_0000_0000_0000 * 0x8000;
    var exp: int := val / 0x10_0000_0000_0000 % 2048;
    var mant := val % 0x10_0000_0000_0000 / 0x400_0000_0000;
    assert mant < 1024 && sign == if Negative(val) then 0x8000 else 0;
    assert exp == Exponent(val) && mant == Fraction(val) / 0x400_0000_0000;
    hide Exponent, Fraction, Negative;
    exp := exp - 1023;
    if exp == 1024 {
      exp := 16;
      mant := mant / 2;
    } else if exp >= 16 {
      OverflowCase(val);
      exp := 15;
      mant := 1023;
    } else if exp >= -14 {
      NormalCase(val, (exp + 15) * 1024 + mant);
    } else if exp >= -24 {
      mant := ShiftRight(1024 + mant, -(exp + 14));
      ShiftRightIs(1024 + Fraction(val) / 0x400_0000_0000, 1009 - Exponent(val));
      SubnormalCase(val, mant);
      exp := -15;
    } else {
      UnderflowCase(val);
      Packed(false, 0, 0, 0);
      return 0;
    }
    half := sign + (exp + 15) * 1024 + mant;
    Packed(Negative(val), exp + 15, mant, half);
    if IsFinite(val) {
      RoundsToZero(Magnitude(val), Code(half));
    }
  }

  // The fields of a half, put together.
  lemma Packed(negative: bool, e: nat, m: nat, h: nat)
    requires e < 32 && m < 1024
    requires h == (if negative then 0x8000 else 0) + e * 1024 + m
    ensures h < 0x1_0000 && Code(h) == e * 1024 + m && HalfNegative(h) == negative
    ensures e == 31 ==> DecodeHalf(h) == if m == 0 then Infinite(negative) else NotANumber
  {
    hide Pow2;
    assert h / 1024 == (if negative then 32 else 0) + e && h % 1024 == m;
  }

  lemma ShiftRightIs(n: nat, s: nat)
    ensures ShiftRight(n, s) == n / Pow2(s)
  {
    hide Pow2;
  }

  function ShiftRight(n: nat, s: nat): (r: nat)
    ensures r <= n
  {
    var p := Pow2(s);
    SmallerQuotient(n, p);
    n / p
  }

  lemma SmallerQuotient(n: nat, p: nat)
    requires p >= 1
    ensures 0 <= n / p <= n
  {
    hide Pow2;
  }

  // A double that is exactly a finite half keeps its magnitude through encoding.
  lemma ExactHalvesSurvive(d: nat, c: nat, k: nat)
    requires RoundsDown(d, c)
    requires k < INFINITE_HALF && d == Scaled(k) * Pow2(1050)
    ensures c == k
  {
    hide Pow2, Scaled;
    var unit := Pow2(1050);
    if k < c {
      ScaledGrows(k, c);
      MultiplyMonotone(Scaled(k) + 1, Scaled(c), unit);
      StrictlyLess(Scaled(k), unit);
    } else if c < k {
      ScaledGrows(c, k);
    }
  }

  // A NaN whose fraction has its last bit only becomes the positive infinity.
  method SmallNanBecomesInfinite() returns (half: Bits16)
    ensures !IsFinite(0x7ff0_0000_0000_0001) && Fraction(0x7ff0_0000_0000_0001) != 0
    ensures DecodeHalf(half) == Infinite(false)
  {
    hide Pow2;
    half := EncodeHalf(0x7ff0_0000_0000_0001);
  }

  // The negative zero loses its sign.
  method NegativeZeroBecomesPositive() returns (half: Bits16)
    ensures Magnitude(0x8000_0000_0000_0000) == 0 && Negative(0x8000_0000_0000_0000)
    ensures DecodeHalf(half) == Finite(false, 0)
  {
    hide Pow2;
    half := EncodeHalf(0x8000_0000_0000_0000);
    assert Exponent(0x8000_0000_0000_0000) == 0;
    RoundsToZero(0, Code(half));
    DecodeByCode(half);
  }
}
