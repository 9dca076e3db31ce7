/** Rounding of a parsed hexadecimal float (lib/abseil-cpp-master/absl/strings/charconv.cc). */
module HexFloat {
  import opened Powers

  // FloatTraits: kTargetMantissaBits, kMaxExponent and kMinNormalExponent.
  datatype FloatTraits = FloatTraits(bits: nat, maxExponent: int, minExponent: int)

  const DOUBLE := FloatTraits(53, 971, -1074)
  const FLOAT := FloatTraits(24, 104, -149)

  const OVERFLOW := 99999
  const UNDERFLOW := -99999

  datatype CalculatedFloat = CalculatedFloat(mantissa: nat, exponent: int)

  ghost predicate WellFormed(f: FloatTraits) {
    && 2 <= f.bits <= 62
    && UNDERFLOW < f.minExponent < f.maxExponent < OVERFLOW
  }

  // --- Rounding to the nearest integer, ties to even -------------------------------------------------------

  function Distance(x: int, y: int): (d: nat)
    ensures d == if x < y then y - x else x - y
  {
    if x < y then y - x else x - y
  }

  // r is n / d rounded to the nearest integer, ties to even.
  ghost predicate Nearest(n: int, d: int, r: int) {
    && 2 * Distance(n, r * d) <= d
    && (2 * Distance(n, r * d) == d ==> r % 2 == 0)
  }

  // The fraction p / q is more than 0 and less than 2.
  predicate IsError(p: nat, q: nat) {
    0 < p < 2 * q
  }

  // r is nearest to (value + error) / d, whatever the error.
  ghost predicate NearestDespiteError(value: nat, d: nat, r: nat) {
    forall p: nat, q: nat :: IsError(p, q) ==> Nearest(value * q + p, d * q, r)
  }

  // value * 2^-shift, bits below the point cut off.
  function Shifted(value: nat, shift: int): nat {
    if shift <= 0 then
      TimesAtMost(0, value, Pow2(-shift));
      value * Pow2(-shift)
    else
      DivideAtMost(value, Pow2(shift));
      value / Pow2(shift)
  }

  // The bits below the point.
  function LowBits(value: nat, shift: nat): nat {
    value % Pow2(shift)
  }

  // static_cast<uint64_t> of a uint128.
  function CastToUint64(x: nat): nat {
    x % TWO_TO_THE_64
  }

  lemma CastKeeps(x: nat)
    requires x < TWO_TO_THE_64 - 1
    ensures CastToUint64(x) == x && CastToUint64(x + 1) == x + 1
  {
  }

  // When the value is exact, the result is nearest, except that from a shift of 128 on it is zero, which is
  // nearest exactly when the value is at most half of 2^shift. When there is an error of more than 0 and less
  // than 2 on top of the value, a result reported exact is nearest whatever the error, but again from a shift
  // of 128 on exactly when value and error stay under one half.
  method ShiftRightAndRound(value: nat, shift: int, inputExact: bool) returns (r: nat, outputExact: bool)
    requires value < TWO_TO_THE_64 * TWO_TO_THE_64 && shift > -128 && Shifted(value, shift) < TWO_TO_THE_64 - 1
    ensures shift <= 0 ==> r == Shifted(value, shift) && outputExact == inputExact
    ensures shift > 0 && inputExact ==>
              outputExact && (Nearest(value, Pow2(shift), r) <==> (shift >= 128 ==> value <= Pow2(shift - 1)))
    ensures shift > 0 && !inputExact && outputExact ==>
              (NearestDespiteError(value, Pow2(shift), r) <==> (shift >= 128 ==> value + 2 <= Pow2(shift - 1)))
    ensures shift > 0 && !outputExact ==>
              r == Shifted(value, shift) && !inputExact && LowBits(value, shift) == Pow2(shift - 1) - 1
  {
    hide Pow2, Shifted, LowBits, CastToUint64, Nearest, NearestDespiteError;
    CastKeeps(Shifted(value, shift));
    if shift <= 0 {
      return CastToUint64(Shifted(value, shift)), inputExact;
    }
    if shift >= 128 {
      ShiftedAway(value, shift);
      return 0, true;
    }
    RoundingMeaning(value, shift);
    outputExact := true;
    var halfwayPoint := Pow2(shift - 1);
    var shiftedBits := LowBits(value, shift);
    var value := Shifted(value, shift);
    if shiftedBits > halfwayPoint {
      return CastToUint64(value + 1), true;
    }
    if shiftedBits == halfwayPoint {
      if value % 2 == 1 || !inputExact {
        value := value + 1;
      }
      return CastToUint64(value), true;
    }
    if !inputExact && shiftedBits == halfwayPoint - 1 {
      outputExact := false;
    }
    r := CastToUint64(value);
  }

  lemma ShiftedAway(value: nat, shift: nat)
    requires value < TWO_TO_THE_64 * TWO_TO_THE_64 && shift >= 128
    ensures Nearest(value, Pow2(shift), 0) <==> value <= Pow2(shift - 1)
    ensures NearestDespiteError(value, Pow2(shift), 0) <==> value + 2 <= Pow2(shift - 1)
  {
    var half := Pow2(shift - 1);
    assert Pow2(shift) == 2 * half;
    hide Pow2;
    if value + 2 <= half {
      forall p: nat, q: nat | IsError(p, q)
        ensures Nearest(value * q + p, 2 * half * q, 0)
      {
        ErrorDown(0, value, half, p, q);
      }
    } else {
      // An error of three halves is too much.
      assert IsError(3, 2) && !Nearest(value * 2 + 3, 2 * half * 2, 0);
    }
  }

  // The smallest exact value that a shift of 128 rounds the wrong way. No caller passes one: a hexadecimal
  // mantissa has 64 bits, and a decimal product either is cut to 58 or 63 bits or has so large an exponent that
  // it is shifted by less than 128.
  lemma OverHalfIsLost()
    ensures var value := 0x8000_0000_0000_0000_0000_0000_0000_0001;
            value < TWO_TO_THE_64 * TWO_TO_THE_64 && !Nearest(value, Pow2(128), 0)
  {
    hide Pow2, Nearest;
    HalfOfAll();
    ShiftedAway(0x8000_0000_0000_0000_0000_0000_0000_0001, 128);
  }

  // The smallest value that it rounds the wrong way because of an error, though reported exact.
  lemma NearHalfIsLost()
    ensures var value := 0x7FFF_FFFF_FFFF_FFFF_FFFF_FFFF_FFFF_FFFF;
            Nearest(value, Pow2(128), 0) && !NearestDespiteError(value, Pow2(128), 0)
  {
    hide Pow2, Nearest, NearestDespiteError;
    HalfOfAll();
    ShiftedAway(0x7FFF_FFFF_FFFF_FFFF_FFFF_FFFF_FFFF_FFFF, 128);
  }

  lemma HalfOfAll()
    ensures Pow2(127) == 0x8000_0000_0000_0000_0000_0000_0000_0000
  {
    hide Pow2;
    Pow2Of64();
    Pow2Sum(64, 64);
    Pow2Positive(128);
  }

  // Whatever has at most 64 bits is rounded the right way, with an error or without.
  lemma NarrowValuesAreKept(value: nat, shift: nat)
    requires value < TWO_TO_THE_64 && shift >= 128
    ensures Nearest(value, Pow2(shift), 0) && NearestDespiteError(value, Pow2(shift), 0)
  {
    hide Pow2, Nearest, NearestDespiteError;
    HalfOfAll();
    Pow2Grows(127, shift - 1);
    ShiftedAway(value, shift);
  }

  // The rounding decision on the bits shifted out, exact and with an error.
  lemma RoundingMeaning(value: nat, shift: nat)
    requires shift > 0
    ensures var d, half, low, up := Pow2(shift), Pow2(shift - 1), LowBits(value, shift), Shifted(value, shift);
            && (low > half || (low == half && up % 2 == 1) ==> Nearest(value, d, up + 1))
            && (low < half || (low == half && up % 2 == 0) ==> Nearest(value, d, up))
            && (low >= half ==> NearestDespiteError(value, d, up + 1))
            && (low + 1 < half ==> NearestDespiteError(value, d, up))
  {
    hide NearestDespiteError, Nearest, Pow2, LowBits, Shifted;
    ShiftSplits(value, shift);
    RoundingExactly(Shifted(value, shift), LowBits(value, shift), Pow2(shift - 1));
    RoundingWithError(Shifted(value, shift), LowBits(value, shift), Pow2(shift - 1));
  }

  lemma ShiftSplits(value: nat, shift: nat)
    requires shift > 0
    ensures Pow2(shift) == 2 * Pow2(shift - 1) && LowBits(value, shift) < Pow2(shift)
    ensures value == Shifted(value, shift) * (2 * Pow2(shift - 1)) + LowBits(value, shift)
  {
    Pow2Positive(shift);
    hide Pow2;
    Recombines(value, Pow2(shift));
  }

  lemma Recombines(n: nat, d: nat)
    requires d > 0
    ensures n == n / d * d + n % d && n % d < d
  {
  }

  lemma RoundingExactly(up: nat, low: nat, half: nat)
    requires low < 2 * half
    ensures low > half || (low == half && up % 2 == 1) ==> Nearest(up * (2 * half) + low, 2 * half, up + 1)
    ensures low < half || (low == half && up % 2 == 0) ==> Nearest(up * (2 * half) + low, 2 * half, up)
  {
    assert (up + 1) * (2 * half) == up * (2 * half) + 2 * half;
  }

  lemma RoundingWithError(up: nat, low: nat, half: nat)
    requires low < 2 * half
    ensures low >= half ==> NearestDespiteError(up * (2 * half) + low, 2 * half, up + 1)
    ensures low + 1 < half ==> NearestDespiteError(up * (2 * half) + low, 2 * half, up)
  {
    hide Nearest;
    forall p: nat, q: nat | IsError(p, q)
      ensures low >= half ==> Nearest((up * (2 * half) + low) * q + p, 2 * half * q, up + 1)
      ensures low + 1 < half ==> Nearest((up * (2 * half) + low) * q + p, 2 * half * q, up)
    {
      if low >= half {
        ErrorUp(up, low, half, p, q);
      } else if low + 1 < half {
        ErrorDown(up, low, half, p, q);
      }
    }
  }

  lemma ErrorUp(up: nat, low: nat, half: nat, p: nat, q: nat)
    requires 0 < p < 2 * q && half <= low < 2 * half
    ensures Nearest((up * (2 * half) + low) * q + p, 2 * half * q, up + 1)
  {
    var x := (up + 1) * (2 * half * q) - ((up * (2 * half) + low) * q + p);
    assert x == (2 * half - low) * q - p by {
      assert (up + 1) * (2 * half * q) == up * (2 * half) * q + 2 * half * q;
      assert (up * (2 * half) + low) * q == up * (2 * half) * q + low * q;
      assert (2 * half - low) * q == 2 * half * q - low * q;
    }
    TimesAtMost(2 * half - low, half, q);
    TimesAtMost(1, 2 * half - low, q);
    TimesAtMost(1, half, q);
    assert 2 * half * q == 2 * (half * q);
  }

  lemma ErrorDown(up: nat, low: nat, half: nat, p: nat, q: nat)
    requires 0 < p < 2 * q && low + 1 < half
    ensures Nearest((up * (2 * half) + low) * q + p, 2 * half * q, up)
  {
    assert (up * (2 * half) + low) * q + p == up * (2 * half * q) + (low * q + p);
    TimesAtMost(low + 2, half, q);
    assert (low + 2) * q == low * q + 2 * q;
    assert 2 * half * q == 2 * (half * q);
  }

  // --- Rounding to the nearest number of the format --------------------------------------------------------

  // mantissa * 2^exponent is a number of the format, disregarding its largest exponent, in the only way.
  ghost predicate IsFloat(f: FloatTraits, mantissa: nat, exponent: int)
    requires WellFormed(f)
  {
    && exponent >= f.minExponent && mantissa < Pow2(f.bits)
    && (exponent == f.minExponent || mantissa >= Pow2(f.bits - 1))
  }

  // mantissa * 2^exponent in units of 2^unit.
  function Scaled(mantissa: nat, exponent: int, unit: int): nat
    requires unit <= exponent
  {
    mantissa * Pow2(exponent - unit)
  }

  function Unit(f: FloatTraits, exponent: int): int {
    if exponent < f.minExponent then exponent else f.minExponent
  }

  // s * 2^x is at least as near to m * 2^e as s' * 2^x' is, and strictly nearer or even if they differ.
  ghost predicate AsNear(f: FloatTraits, m: nat, e: int, s: nat, x: int, s': nat, x': int)
    requires x >= f.minExponent && x' >= f.minExponent
  {
    var unit := Unit(f, e);
    var value, here, there := Scaled(m, e, unit), Scaled(s, x, unit), Scaled(s', x', unit);
    && Distance(value, here) <= Distance(value, there)
    && (Distance(value, here) == Distance(value, there) && here != there ==> s % 2 == 0)
  }

  // roundTiesToEven of section 4.3.1 of IEEE 754-2008, before overflow is looked at.
  ghost predicate IsNearestFloat(f: FloatTraits, m: nat, e: int, s: nat, x: int)
    requires WellFormed(f)
  {
    && IsFloat(f, s, x)
    && forall s': nat, x': int :: IsFloat(f, s', x') ==> AsNear(f, m, e, s, x, s', x')
  }

  function NormalizedShiftSize(f: FloatTraits, mantissaWidth: nat, binaryExponent: int): int {
    var normalShift := mantissaWidth - f.bits;
    var minimumShift := f.minExponent - binaryExponent;
    if normalShift < minimumShift then minimumShift else normalShift
  }

  // What stands for s * 2^x: itself, unless it is zero or above the largest number of the format.
  function Delivered(f: FloatTraits, s: nat, x: int): CalculatedFloat {
    if x > f.maxExponent then CalculatedFloat(0, OVERFLOW)
    else if s == 0 then CalculatedFloat(0, UNDERFLOW)
    else CalculatedFloat(s, x)
  }

  // The rounded mantissa, brought back into range when rounding has carried into a new bit.
  function Carried(f: FloatTraits, mantissa: nat, exponent: int): (nat, int) {
    if mantissa == Pow2(f.bits) then (mantissa / 2, exponent + 1) else (mantissa, exponent)
  }

  // The result says of s * 2^x that it is above the largest number of the format, that it is zero, or which
  // number of the format it is.
  ghost predicate Tells(f: FloatTraits, result: CalculatedFloat, s: nat, x: int)
    requires WellFormed(f) && x >= f.minExponent
  {
    var value, largest := Scaled(s, x, f.minExponent), Scaled(Pow2(f.bits) - 1, f.maxExponent, f.minExponent);
    && (value > largest <==> result == CalculatedFloat(0, OVERFLOW))
    && (value == 0 <==> result == CalculatedFloat(0, UNDERFLOW))
    && (0 < value <= largest ==>
          && f.minExponent <= result.exponent <= f.maxExponent && IsFloat(f, result.mantissa, result.exponent)
          && Scaled(result.mantissa, result.exponent, f.minExponent) == value)
  }

  // A mantissa and an exponent as rounding leaves them: a number of the format, or a carry beyond its mantissas.
  ghost predicate IsRounded(f: FloatTraits, mantissa: nat, exponent: int)
    requires WellFormed(f)
  {
    && exponent >= f.minExponent && mantissa <= Pow2(f.bits)
    && (exponent > f.minExponent ==> mantissa >= Pow2(f.bits - 1))
  }

  method CalculatedFloatFromRawValues(f: FloatTraits, mantissa: nat, exponent: int) returns (result: CalculatedFloat)
    ensures WellFormed(f) && IsRounded(f, mantissa, exponent) ==> Tells(f, result, mantissa, exponent)
    ensures var (s, x) := Carried(f, mantissa, exponent); result == Delivered(f, s, x)
  {
    hide Pow2, Tells, IsRounded;
    if WellFormed(f) && IsRounded(f, mantissa, exponent) {
      RawValuesTell(f, mantissa, exponent);
    }
    var mantissa, exponent := mantissa, exponent;
    if mantissa == Pow2(f.bits) {
      mantissa := mantissa / 2;
      exponent := exponent + 1;
    }
    if exponent > f.maxExponent {
      result := CalculatedFloat(0, OVERFLOW);
    } else if mantissa == 0 {
      result := CalculatedFloat(0, UNDERFLOW);
    } else {
      result := CalculatedFloat(mantissa, exponent);
    }
  }

  // Whatever the mantissa and the exponent, the result stands for the nearest number of the format.
  method CalculateFromParsedHexadecimal(f: FloatTraits, mantissa: nat, exponent: int) returns (result: CalculatedFloat)
    requires WellFormed(f) && 0 < mantissa < TWO_TO_THE_64
    ensures exists s, x :: IsNearestFloat(f, mantissa, exponent, s, x) && Tells(f, result, s, x)
  {
    hide Pow2, BitWidth, IsNearestFloat, Nearest, NearestDespiteError, Delivered, Shifted, Carried, Tells,
         NormalizedShiftSize;
    var mantissaWidth := BitWidth(mantissa);
    var shift := NormalizedShiftSize(f, mantissaWidth, exponent);
    ShiftFits(f, mantissa, exponent);
    var rounded, _ := ShiftRightAndRound(mantissa, shift, true);
    RoundedIsNearest(f, mantissa, exponent, rounded);
    result := CalculatedFloatFromRawValues(f, rounded, exponent + shift);
    ghost var (s, x) := Carried(f, rounded, exponent + shift);
    NearestIsFloat(f, mantissa, exponent, s, x);
    DeliveredTells(f, result, s, x);
    assert IsNearestFloat(f, mantissa, exponent, s, x) && Tells(f, result, s, x);
  }

  lemma ShiftFits(f: FloatTraits, m: nat, e: int)
    requires WellFormed(f) && 0 < m < TWO_TO_THE_64
    ensures var shift := NormalizedShiftSize(f, BitWidth(m), e);
            && shift > -128 && Shifted(m, shift) < TWO_TO_THE_64 - 1
            && (shift >= 128 ==> m <= Pow2(shift - 1))
  {
    hide Pow2, BitWidth;
    var shift := NormalizedShiftSize(f, BitWidth(m), e);
    BitWidthOfWord(m);
    if shift <= 0 {
      LeftShiftFits(f, m, shift);
    } else {
      Pow2Positive(shift);
      AtMostHalf(m, Pow2(shift));
    }
    if shift >= 128 {
      Pow2Of64();
      Pow2Grows(64, shift - 1);
    }
  }

  lemma AtMostHalf(n: nat, d: nat)
    requires d >= 2
    ensures n / d <= n / 2
  {
    if n / d > n / 2 {
      TimesAtMost(n / 2 + 1, n / d, d);
      TimesAtMost(2, d, n / 2 + 1);
    }
  }

  lemma LeftShiftFits(f: FloatTraits, m: nat, shift: int)
    requires WellFormed(f) && 0 < m && BitWidth(m) - f.bits <= shift <= 0
    ensures m * Pow2(-shift) < Pow2(f.bits) <= Pow2(62) < TWO_TO_THE_64 - 1
  {
    hide Pow2;
    Pow2Of64();
    Pow2Positive(64);
    Pow2Positive(63);
    Pow2Sum(BitWidth(m), -shift);
    Pow2Grows(BitWidth(m) - shift, f.bits);
    Pow2Grows(f.bits, 62);
    Scales(m, Pow2(BitWidth(m)), Pow2(-shift));
  }

  // r is the mantissa rounded to the shift.
  ghost predicate Rounds(m: nat, shift: int, r: nat) {
    if shift <= 0 then r == Shifted(m, shift) else Nearest(m, Pow2(shift), r)
  }

  lemma RoundedIsNearest(f: FloatTraits, m: nat, e: int, r: nat)
    requires WellFormed(f) && 0 < m < TWO_TO_THE_64 && Rounds(m, NormalizedShiftSize(f, BitWidth(m), e), r)
    ensures var (s, x) := Carried(f, r, e + NormalizedShiftSize(f, BitWidth(m), e)); IsNearestFloat(f, m, e, s, x)
  {
    hide Pow2, BitWidth, Nearest, Rounds, AsNear, Carried, Scaled, NormalizedShiftSize;
    var shift := NormalizedShiftSize(f, BitWidth(m), e);
    var x := e + shift;
    var (s, y) := Carried(f, r, x);
    WidthOfRounded(f, m, e, r);
    NearestInUnits(f, m, e, r);
    CarryKeeps(f, m, e, r, x);
    forall s': nat, x': int | IsFloat(f, s', x')
      ensures AsNear(f, m, e, s, y, s', x')
    {
      if x' >= x {
        OnGrid(f, m, e, r, x, s', x');
      } else {
        BelowGrid(f, m, e, r, s', x');
      }
    }
  }

  // A carry changes how the result is written, but not what it stands for.
  lemma CarryKeeps(f: FloatTraits, m: nat, e: int, r: nat, x: int)
    requires WellFormed(f) && r <= Pow2(f.bits) && x >= f.minExponent
    requires x > f.minExponent ==> r >= Pow2(f.bits - 1)
    ensures var (s, y) := Carried(f, r, x);
            && IsFloat(f, s, y)
            && (forall s': nat, x': int :: x' >= f.minExponent && AsNear(f, m, e, r, x, s', x') ==>
                                             AsNear(f, m, e, s, y, s', x'))
  {
    CarriedValue(f, r, x, Unit(f, e));
    hide Pow2, Distance, Scaled, Carried;
  }

  lemma CarriedValue(f: FloatTraits, r: nat, x: int, unit: int)
    requires WellFormed(f) && r <= Pow2(f.bits) && x >= f.minExponent && x >= unit
    requires x > f.minExponent ==> r >= Pow2(f.bits - 1)
    ensures var (s, y) := Carried(f, r, x);
            && IsFloat(f, s, y) && y >= x && Scaled(s, y, unit) == Scaled(r, x, unit)
            && (r % 2 == 0 ==> s % 2 == 0)
  {
    hide Pow2, Scaled;
    Pow2Positive(f.bits);
    Pow2Positive(f.bits - 1);
    if r == Pow2(f.bits) {
      HalfTwice(r / 2, x, unit);
      assert r / 2 == Pow2(f.bits - 1);
    }
  }

  lemma HalfTwice(half: nat, x: int, unit: int)
    requires unit <= x
    ensures Scaled(half, x + 1, unit) == Scaled(2 * half, x, unit)
  {
    Pow2Positive(x + 1 - unit);
    hide Pow2;
    Rearrange(half, Pow2(x - unit));
  }

  // On the grid of the result, in the unit of the format, the mantissa is still rounded to nearest.
  lemma NearestInUnits(f: FloatTraits, m: nat, e: int, r: nat)
    requires WellFormed(f) && 0 < m && Rounds(m, NormalizedShiftSize(f, BitWidth(m), e), r)
    ensures var shift, unit := NormalizedShiftSize(f, BitWidth(m), e), Unit(f, e);
            Nearest(Scaled(m, e, unit), Pow2(e + shift - unit), r)
  {
    hide Pow2, BitWidth;
    var shift, unit := NormalizedShiftSize(f, BitWidth(m), e), Unit(f, e);
    if shift > 0 {
      Pow2Sum(shift, e - unit);
      NearestScales(m, Pow2(shift), r, Pow2(e - unit));
    } else {
      Pow2Sum(-shift, e + shift - unit);
      assert m * Pow2(-shift) * Pow2(e + shift - unit) == m * (Pow2(-shift) * Pow2(e + shift - unit));
    }
  }

  lemma NearestScales(n: int, d: int, r: int, k: nat)
    requires Nearest(n, d, r) && k > 0
    ensures Nearest(n * k, d * k, r)
  {
    DistanceScales(n, r * d, k);
    assert r * d * k == r * (d * k);
    TimesAtMost(2 * Distance(n, r * d), d, k);
    assert 2 * Distance(n, r * d) * k == 2 * (Distance(n, r * d) * k);
    if 2 * Distance(n, r * d) < d {
      Scales(2 * Distance(n, r * d), d, k);
    }
  }

  lemma DistanceScales(x: int, y: int, k: nat)
    ensures Distance(x * k, y * k) == Distance(x, y) * k
  {
    if x < y {
      TimesAtMost(x, y, k);
      assert (y - x) * k == y * k - x * k;
    } else {
      TimesAtMost(y, x, k);
      assert (x - y) * k == x * k - y * k;
    }
  }

  // Rounding leaves the width of the format, or carries into one more bit.
  lemma WidthOfRounded(f: FloatTraits, m: nat, e: int, r: nat)
    requires WellFormed(f) && 0 < m && Rounds(m, NormalizedShiftSize(f, BitWidth(m), e), r)
    ensures var x := e + NormalizedShiftSize(f, BitWidth(m), e);
            r <= Pow2(f.bits) && x >= f.minExponent && (x > f.minExponent ==> r >= Pow2(f.bits - 1))
  {
    hide Pow2, Nearest, BitWidth;
    var width := BitWidth(m);
    var shift := NormalizedShiftSize(f, width, e);
    if shift <= 0 {
      LeftShiftFits(f, m, shift);
      if e + shift > f.minExponent {
        Pow2Sum(width - 1, -shift);
        TimesAtMost(Pow2(width - 1), m, Pow2(-shift));
      }
    } else {
      RoundedAtMost(f, m, width, shift, r);
      if e + shift > f.minExponent {
        Pow2Sum(f.bits - 1, shift);
        NearestAtLeast(m, Pow2(shift), r, Pow2(f.bits - 1));
      }
    }
  }

  lemma RoundedAtMost(f: FloatTraits, m: nat, width: nat, shift: nat, r: nat)
    requires m < Pow2(width) && width <= f.bits + shift && Nearest(m, Pow2(shift), r)
    ensures r <= Pow2(f.bits)
  {
    hide Pow2, Nearest;
    Pow2Grows(width, f.bits + shift);
    Pow2Sum(f.bits, shift);
    NearestAtMost(m, Pow2(shift), r, Pow2(f.bits));
  }

  lemma NearestAtMost(n: int, d: int, r: int, k: int)
    requires d > 0 && Nearest(n, d, r) && n <= k * d
    ensures r <= k
  {
    if r > k {
      NextMultiple(k, r, d);
    }
  }

  lemma NearestAtLeast(n: int, d: int, r: int, k: int)
    requires d > 0 && Nearest(n, d, r) && k * d <= n
    ensures k <= r
  {
    if r < k {
      NextMultiple(r, k, d);
    }
  }

  // No multiple of d is nearer than the one rounded to.
  lemma NearestMultiple(n: int, d: int, r: int, k: int)
    requires d > 0 && Nearest(n, d, r)
    ensures Distance(n, r * d) <= Distance(n, k * d)
    ensures Distance(n, r * d) == Distance(n, k * d) && k != r ==> r % 2 == 0
  {
    if r < k {
      NextMultiple(r, k, d);
    } else if k < r {
      NextMultiple(k, r, d);
    }
  }

  // The numbers of the format on the grid of the result.
  lemma OnGrid(f: FloatTraits, m: nat, e: int, r: nat, x: int, s': nat, x': int)
    requires f.minExponent <= x <= x'
    requires Nearest(Scaled(m, e, Unit(f, e)), Pow2(x - Unit(f, e)), r)
    ensures AsNear(f, m, e, r, x, s', x')
  {
    hide Pow2, Nearest;
    var unit := Unit(f, e);
    Pow2Sum(x' - x, x - unit);
    var k := s' * Pow2(x' - x);
    assert Scaled(s', x', unit) == k * Pow2(x - unit);
    NearestMultiple(Scaled(m, e, unit), Pow2(x - unit), r, k);
  }

  // The numbers of the format between two points of the grid of the result lie below the mantissa.
  lemma BelowGrid(f: FloatTraits, m: nat, e: int, r: nat, s': nat, x': int)
    requires WellFormed(f) && 0 < m && IsFloat(f, s', x') && x' < e + NormalizedShiftSize(f, BitWidth(m), e)
    requires Nearest(Scaled(m, e, Unit(f, e)), Pow2(e + NormalizedShiftSize(f, BitWidth(m), e) - Unit(f, e)), r)
    ensures AsNear(f, m, e, r, e + NormalizedShiftSize(f, BitWidth(m), e), s', x')
  {
    hide Pow2, BitWidth, Nearest;
    var unit := Unit(f, e);
    var shift := NormalizedShiftSize(f, BitWidth(m), e);
    var value, grid := Scaled(m, e, unit), Pow2(e + shift - unit);
    var least := Pow2(f.bits - 1);
    AtLeastNormal(f, m, e);
    BelowNormal(f, s', x' - unit, e + shift - unit);
    NearestMultiple(value, grid, r, least);
  }

  lemma BelowNormal(f: FloatTraits, s': nat, i: nat, k: nat)
    requires f.bits > 0 && s' < Pow2(f.bits) && i < k
    ensures s' * Pow2(i) < Pow2(f.bits - 1) * Pow2(k)
  {
    hide Pow2;
    var least := Pow2(f.bits - 1);
    Pow2Positive(f.bits);
    Pow2Positive(i + 1);
    Scales(s', 2 * least, Pow2(i));
    Pow2Grows(i + 1, k);
    TimesAtMost(2 * Pow2(i), Pow2(k), least);
    assert 2 * least * Pow2(i) == 2 * Pow2(i) * least;
  }

  lemma AtLeastNormal(f: FloatTraits, m: nat, e: int)
    requires WellFormed(f) && 0 < m && NormalizedShiftSize(f, BitWidth(m), e) == BitWidth(m) - f.bits
    ensures var unit := Unit(f, e);
            Pow2(f.bits - 1) * Pow2(e + BitWidth(m) - f.bits - unit) <= Scaled(m, e, unit)
  {
    hide Pow2, BitWidth;
    var unit, width := Unit(f, e), BitWidth(m);
    Pow2Sum(f.bits - 1, e + width - f.bits - unit);
    Pow2Sum(width - 1, e - unit);
    TimesAtMost(Pow2(width - 1), m, Pow2(e - unit));
  }

  // Section 4.3.1 leaves no choice: there is only one nearest number, written in only one way.
  lemma NearestIsUnique(f: FloatTraits, m: nat, e: int, s: nat, x: int, t: nat, y: int)
    requires WellFormed(f) && IsNearestFloat(f, m, e, s, x) && IsNearestFloat(f, m, e, t, y)
    ensures s == t && x == y
  {
    hide Pow2, Distance;
    assert AsNear(f, m, e, s, x, t, y) && AsNear(f, m, e, t, y, s, x);
    FloatsDiffer(f, s, x, t, y, Unit(f, e));
    if s != t || x != y {
      if x < y || (x == y && s < t) {
        SomethingBetween(f, m, e, s, x, t, y);
      } else {
        SomethingBetween(f, m, e, t, y, s, x);
      }
    }
  }

  // The order of the numbers of a format is that of exponents, then mantissas.
  lemma FloatsDiffer(f: FloatTraits, s: nat, x: int, t: nat, y: int, unit: int)
    requires WellFormed(f) && IsFloat(f, s, x) && IsFloat(f, t, y) && unit <= f.minExponent
    ensures x < y || (x == y && s < t) ==> Scaled(s, x, unit) < Scaled(t, y, unit)
    ensures y < x || (x == y && t < s) ==> Scaled(t, y, unit) < Scaled(s, x, unit)
  {
    hide Pow2;
    if x < y {
      BelowNormal(f, s, x - unit, y - unit);
      TimesAtMost(Pow2(f.bits - 1), t, Pow2(y - unit));
    } else if y < x {
      BelowNormal(f, t, y - unit, x - unit);
      TimesAtMost(Pow2(f.bits - 1), s, Pow2(x - unit));
    } else if s < t {
      Scales(s, t, Pow2(x - unit));
    } else if t < s {
      Scales(t, s, Pow2(x - unit));
    }
  }

  // Halfway between two numbers with even mantissas there is a nearer one.
  lemma SomethingBetween(f: FloatTraits, m: nat, e: int, s: nat, x: int, t: nat, y: int)
    requires WellFormed(f) && IsFloat(f, s, x) && IsFloat(f, t, y) && s % 2 == 0 && t % 2 == 0
    requires x < y || (x == y && s < t)
    requires var unit := Unit(f, e);
             Distance(Scaled(m, e, unit), Scaled(s, x, unit)) == Distance(Scaled(m, e, unit), Scaled(t, y, unit))
    ensures IsFloat(f, s + 1, x) && !AsNear(f, m, e, s, x, s + 1, x)
  {
    hide Pow2;
    var unit := Unit(f, e);
    var value, grid, k := Scaled(m, e, unit), Pow2(x - unit), t * Pow2(y - x);
    FloatsDiffer(f, s, x, t, y, unit);
    Pow2Positive(f.bits);
    Pow2Positive(f.bits - 1);
    ShiftedMantissa(t, x, y, unit);
    NearerPoint(value, grid, s, k);
  }

  lemma ShiftedMantissa(t: nat, x: int, y: int, unit: int)
    requires unit <= x <= y && t % 2 == 0
    ensures Scaled(t, y, unit) == t * Pow2(y - x) * Pow2(x - unit) && t * Pow2(y - x) % 2 == 0
  {
    hide Pow2;
    Pow2Sum(y - x, x - unit);
    assert t * Pow2(y - x) == 2 * (t / 2 * Pow2(y - x));
  }

  lemma NearerPoint(value: nat, grid: nat, s: nat, k: nat)
    requires grid > 0 && s % 2 == 0 && k % 2 == 0 && s * grid < k * grid
    requires Distance(value, s * grid) == Distance(value, k * grid)
    ensures Distance(value, (s + 1) * grid) < Distance(value, s * grid)
  {
    if k <= s {
      TimesAtMost(k, s, grid);
    }
    assert (s + 1) * grid == s * grid + grid;
    NextMultiple(s + 1, k, grid);
  }

  // --- Overflow --------------------------------------------------------------------------------------------

  // Only a number above the largest one has a larger exponent.
  lemma OverflowMeaning(f: FloatTraits, s: nat, x: int, unit: int)
    requires WellFormed(f) && IsFloat(f, s, x) && unit <= f.minExponent
    ensures x > f.maxExponent <==> Scaled(s, x, unit) > Scaled(Pow2(f.bits) - 1, f.maxExponent, unit)
  {
    hide Pow2, Scaled;
    Pow2Positive(f.bits);
    FloatsDiffer(f, s, x, Pow2(f.bits) - 1, f.maxExponent, unit);
  }

  lemma ZeroMeaning(s: nat, x: int, unit: int)
    requires unit <= x
    ensures Scaled(s, x, unit) == 0 <==> s == 0
  {
    hide Pow2;
    if s > 0 {
      TimesAtMost(1, s, Pow2(x - unit));
    }
  }

  // The guards of the code decide exactly what is to be told.
  lemma DeliveredTells(f: FloatTraits, result: CalculatedFloat, s: nat, x: int)
    requires WellFormed(f) && IsFloat(f, s, x)
    ensures Tells(f, result, s, x) <==> result == Delivered(f, s, x)
  {
    hide Pow2, Scaled;
    OverflowMeaning(f, s, x, f.minExponent);
    ZeroMeaning(s, x, f.minExponent);
    if IsFloat(f, result.mantissa, result.exponent) {
      FloatsDiffer(f, s, x, result.mantissa, result.exponent, f.minExponent);
    }
  }

  lemma NearestIsFloat(f: FloatTraits, m: nat, e: int, s: nat, x: int)
    requires WellFormed(f) && IsNearestFloat(f, m, e, s, x)
    ensures IsFloat(f, s, x)
  {
  }

  lemma RawValuesTell(f: FloatTraits, mantissa: nat, exponent: int)
    requires WellFormed(f) && IsRounded(f, mantissa, exponent)
    ensures var (s, x) := Carried(f, mantissa, exponent); Tells(f, Delivered(f, s, x), mantissa, exponent)
  {
    hide Pow2, Scaled, Delivered, Carried;
    CarriedValue(f, mantissa, exponent, f.minExponent);
    var (s, x) := Carried(f, mantissa, exponent);
    DeliveredTells(f, Delivered(f, s, x), s, x);
  }

  // --- The formats ---------------------------------------------------------------------------------------------

  // binary64 and binary32 of section 3.6 of IEEE 754-2008: 11 of 64 bits and 8 of 32 are for the exponent, so the
  // precision is 53 and 24; with the point behind the first bit of the mantissa, exponents go from 1 - 1023 to
  // 1023, and from 1 - 127 to 127.
  lemma FormatsAreIeee()
    ensures WellFormed(DOUBLE) && WellFormed(FLOAT)
    ensures DOUBLE.bits == 64 - 11 && FLOAT.bits == 32 - 8
    ensures DOUBLE.maxExponent + (DOUBLE.bits - 1) == Pow2(11 - 1) - 1 == 1023
    ensures FLOAT.maxExponent + (FLOAT.bits - 1) == Pow2(8 - 1) - 1 == 127
    ensures DOUBLE.minExponent + (DOUBLE.bits - 1) == 1 - 1023 && FLOAT.minExponent + (FLOAT.bits - 1) == 1 - 127
  {
    assert Pow2(7) == 128 && Pow2(10) == 1024;
  }

  // The largest number of a format is its largest mantissa with its largest exponent, and the smallest positive one
  // is one unit.
  lemma FormatRange(f: FloatTraits, s: nat, x: int)
    requires WellFormed(f) && IsFloat(f, s, x) && x <= f.maxExponent && s > 0
    ensures IsFloat(f, 1, f.minExponent) && IsFloat(f, Pow2(f.bits) - 1, f.maxExponent)
    ensures Scaled(1, f.minExponent, f.minExponent) <= Scaled(s, x, f.minExponent)
            <= Scaled(Pow2(f.bits) - 1, f.maxExponent, f.minExponent)
  {
    Pow2Positive(f.bits);
    Pow2Positive(f.bits - 1);
    hide Pow2;
    OverflowMeaning(f, s, x, f.minExponent);
    TimesAtMost(1, s, Pow2(x - f.minExponent));
    UnitIsOne(f);
  }

  lemma UnitIsOne(f: FloatTraits)
    ensures Scaled(1, f.minExponent, f.minExponent) == 1
  {
  }
}
