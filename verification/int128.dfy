/** Two-word unsigned arithmetic and its long division (lib/abseil-cpp-master/absl/numeric/int128.h, int128.cc). */
module Int128 {
  import opened Powers

  const TWO_TO_THE_128 := TWO_TO_THE_64 * TWO_TO_THE_64

  type Uint64 = x: int | 0 <= x < TWO_TO_THE_64

  // --- Words -----------------------------------------------------------------------------------------------

  function Wrap(x: int): Uint64 {
    x % TWO_TO_THE_64
  }

  function ShiftWordLeft(x: Uint64, amount: nat): Uint64
    requires amount < 64
  {
    x * Pow2(amount) % TWO_TO_THE_64
  }

  function ShiftWordRight(x: Uint64, amount: nat): Uint64
    requires amount < 64
  {
    ShiftIsSmall(x, amount);
    x / Pow2(amount)
  }

  lemma ShiftIsSmall(x: nat, amount: nat)
    ensures 0 <= x / Pow2(amount) <= x
  {
    DivideAtMost(x, Pow2(amount));
  }

  // --- Arithmetic of quotients -----------------------------------------------------------------------------

  // x * a modulo a * b keeps the low part of x.
  lemma ProductModulo(x: nat, a: nat, b: nat)
    requires a > 0 && b > 0
    ensures x * a % (a * b) == x % b * a && x * a / (a * b) == x / b
  {
    assert x == x / b * b + x % b;
    assert x * a == x / b * (a * b) + x % b * a by {
      assert (x / b * b + x % b) * a == x / b * b * a + x % b * a;
    }
    Scales(x % b, b, a);
    QuotientIs(x * a, a * b, x / b, x % b * a);
  }

  // --- Two words -------------------------------------------------------------------------------------------

  datatype Uint128 = Uint128(hi: Uint64, lo: Uint64) {

    function Value(): (v: nat)
      ensures v < TWO_TO_THE_128
    {
      hi * TWO_TO_THE_64 + lo
    }

    predicate Less(that: Uint128) {
      if hi == that.hi then lo < that.lo else hi < that.hi
    }

    predicate AtLeast(that: Uint128) {
      if hi == that.hi then lo >= that.lo else hi >= that.hi
    }

    function Or(that: Uint128): Uint128
      requires BitOr(hi, that.hi) < TWO_TO_THE_64 && BitOr(lo, that.lo) < TWO_TO_THE_64
    {
      Uint128(BitOr(hi, that.hi), BitOr(lo, that.lo))
    }

    function ShiftLeft(amount: nat): (r: Uint128)
      requires amount < 128
      ensures r.Value() == Value() * Pow2(amount) % TWO_TO_THE_128
    {
      hide Pow2, BitOr;
      if amount < 64 then
        if amount != 0 then
          ShiftedLeft(hi, lo, amount);
          Uint128(BitOr(ShiftWordLeft(hi, amount), ShiftWordRight(lo, 64 - amount)), ShiftWordLeft(lo, amount))
        else
          PowerOfZero();
          this
      else
        ShiftedFarLeft(hi, lo, amount);
        Uint128(ShiftWordLeft(lo, amount - 64), 0)
    }

    function ShiftRight(amount: nat): (r: Uint128)
      requires amount < 128
      ensures r.Value() == Value() / Pow2(amount)
    {
      hide Pow2, BitOr;
      if amount < 64 then
        if amount != 0 then
          ShiftedRight(hi, lo, amount);
          Uint128(ShiftWordRight(hi, amount), BitOr(ShiftWordRight(lo, amount), ShiftWordLeft(hi, 64 - amount)))
        else
          PowerOfZero();
          this
      else
        ShiftedFarRight(hi, lo, amount);
        Uint128(0, ShiftWordRight(hi, amount - 64))
    }

    function Plus(that: Uint128): (r: Uint128)
      ensures r.Value() == (Value() + that.Value()) % TWO_TO_THE_128
    {
      WrapOnce(lo + that.lo);
      WrapOnce(hi + that.hi);
      WrapOnce(Wrap(hi + that.hi) + 1);
      hide Wrap;
      var result := Uint128(Wrap(hi + that.hi), Wrap(lo + that.lo));
      var sum := if result.lo < lo then Uint128(Wrap(result.hi + 1), result.lo) else result;
      ModuloIs(Value() + that.Value(), sum.Value());
      sum
    }

    function Minus(that: Uint128): (r: Uint128)
      ensures r.Value() == (Value() - that.Value()) % TWO_TO_THE_128
    {
      WrapOnce(lo - that.lo);
      WrapOnce(hi - that.hi);
      WrapOnce(Wrap(hi - that.hi) - 1);
      hide Wrap;
      var result := Uint128(Wrap(hi - that.hi), Wrap(lo - that.lo));
      var difference := if lo < that.lo then Uint128(Wrap(result.hi - 1), result.lo) else result;
      ModuloIs(Value() - that.Value(), difference.Value());
      difference
    }
  }

  lemma WrapOnce(x: int)
    requires -TWO_TO_THE_64 <= x < 2 * TWO_TO_THE_64
    ensures Wrap(x) == if x < 0 then x + TWO_TO_THE_64 else if x < TWO_TO_THE_64 then x else x - TWO_TO_THE_64
  {
  }

  lemma ModuloIs(v: int, r: nat)
    requires r < TWO_TO_THE_128 && v - r in {-TWO_TO_THE_128, 0, TWO_TO_THE_128}
    ensures r == v % TWO_TO_THE_128
  {
    QuotientIs(v, TWO_TO_THE_128, if v < r then -1 else if v == r then 0 else 1, r);
  }

  const ZERO := Uint128(0, 0)
  const ONE := Uint128(0, 1)

  lemma PowerOfZero()
    ensures Pow2(0) == 1
  {
  }

  // The two-word comparisons are those of the numbers.
  lemma ComparisonMeaning(x: Uint128, y: Uint128)
    ensures x.Less(y) <==> x.Value() < y.Value()
    ensures x.AtLeast(y) <==> x.Value() >= y.Value()
    ensures x == y <==> x.Value() == y.Value()
  {
  }

  // The shifts of a word, with 2^64 split at the amount.
  lemma WordShifts(x: Uint64, amount: nat)
    requires 0 < amount < 64
    ensures var a, b := Pow2(amount), Pow2(64 - amount);
            && a * b == TWO_TO_THE_64
            && ShiftWordLeft(x, amount) == x % b * a && ShiftWordRight(x, amount) == x / a
            && ShiftWordRight(x, amount) < b
  {
    hide Pow2;
    var a, b := Pow2(amount), Pow2(64 - amount);
    Pow2Sum(amount, 64 - amount);
    Pow2Of64();
    ProductModulo(x, a, b);
    QuotientBelow(x, b, a);
  }

  lemma ShiftedLeft(hi: Uint64, lo: Uint64, amount: nat)
    requires 0 < amount < 64
    ensures var high := BitOr(ShiftWordLeft(hi, amount), ShiftWordRight(lo, 64 - amount));
            && high < TWO_TO_THE_64
            && high * TWO_TO_THE_64 + ShiftWordLeft(lo, amount)
               == (hi * TWO_TO_THE_64 + lo) * Pow2(amount) % TWO_TO_THE_128
  {
    hide Pow2, BitOr, ShiftWordLeft, ShiftWordRight;
    var a, b := Pow2(amount), Pow2(64 - amount);
    WordShifts(hi, amount);
    WordShifts(lo, amount);
    WordShifts(lo, 64 - amount);
    OrIsSum(hi % b, ShiftWordRight(lo, 64 - amount), amount);
    NextMultiple(hi % b, b, a);
    LeftShiftValue(hi, lo, a, b);
  }

  lemma LeftShiftValue(hi: nat, lo: nat, a: nat, b: nat)
    requires a > 0 && b > 0 && a * b == TWO_TO_THE_64 && hi < TWO_TO_THE_64 && lo < TWO_TO_THE_64
    ensures (hi % b * a + lo / b) * TWO_TO_THE_64 + lo % b * a == (hi * TWO_TO_THE_64 + lo) * a % TWO_TO_THE_128
  {
    var w := TWO_TO_THE_64;
    ProductModulo(hi, a, b);
    ProductModulo(lo, a, b);
    assert hi * a == hi / b * w + hi % b * a;
    assert lo * a == lo / b * w + lo % b * a;
    assert (hi * w + lo) * a == hi * a * w + lo * a;
    QuotientBelow(lo, a, b);
    NextMultiple(hi % b, b, a);
    NextMultiple(lo % b, b, a);
    QuotientIs((hi * w + lo) * a, TWO_TO_THE_128, hi / b, (hi % b * a + lo / b) * w + lo % b * a);
  }

  lemma ShiftedFarLeft(hi: Uint64, lo: Uint64, amount: nat)
    requires 64 <= amount < 128
    ensures ShiftWordLeft(lo, amount - 64) * TWO_TO_THE_64
            == (hi * TWO_TO_THE_64 + lo) * Pow2(amount) % TWO_TO_THE_128
  {
    hide Pow2;
    var a, w := Pow2(amount - 64), TWO_TO_THE_64;
    Pow2Of64();
    Pow2Sum(amount - 64, 64);
    var low, carry := lo * a % w, lo * a / w;
    assert lo * a == carry * w + low;
    assert (hi * w + lo) * Pow2(amount) == (hi * a + carry) * TWO_TO_THE_128 + low * w by {
      assert (hi * w + lo) * (a * w) == hi * a * (w * w) + lo * a * w;
      assert lo * a * w == carry * (w * w) + low * w;
      assert (hi * a + carry) * (w * w) == hi * a * (w * w) + carry * (w * w);
    }
    QuotientIs((hi * w + lo) * Pow2(amount), TWO_TO_THE_128, hi * a + carry, low * w);
  }

  lemma ShiftedRight(hi: Uint64, lo: Uint64, amount: nat)
    requires 0 < amount < 64
    ensures var low := BitOr(ShiftWordRight(lo, amount), ShiftWordLeft(hi, 64 - amount));
            && low < TWO_TO_THE_64
            && ShiftWordRight(hi, amount) * TWO_TO_THE_64 + low == (hi * TWO_TO_THE_64 + lo) / Pow2(amount)
  {
    hide Pow2, BitOr, ShiftWordLeft, ShiftWordRight;
    var a, b := Pow2(amount), Pow2(64 - amount);
    WordShifts(hi, amount);
    WordShifts(lo, amount);
    WordShifts(hi, 64 - amount);
    OrIsSum(hi % a, ShiftWordRight(lo, amount), 64 - amount);
    NextMultiple(hi % a, a, b);
    RightShiftValue(hi, lo, a, b);
  }

  lemma RightShiftValue(hi: nat, lo: nat, a: nat, b: nat)
    requires a > 0 && b > 0 && a * b == TWO_TO_THE_64 && hi < TWO_TO_THE_64 && lo < TWO_TO_THE_64
    ensures hi / a * TWO_TO_THE_64 + (hi % a * b + lo / a) == (hi * TWO_TO_THE_64 + lo) / a
  {
    var w := TWO_TO_THE_64;
    assert hi == hi / a * a + hi % a && lo == lo / a * a + lo % a;
    assert hi * w + lo == (hi / a * w + (hi % a * b + lo / a)) * a + lo % a by {
      assert hi * w == (hi / a * w) * a + hi % a * b * a by {
        assert (hi / a * a + hi % a) * w == hi / a * a * w + hi % a * w;
        assert hi % a * w == hi % a * b * a;
        assert hi / a * a * w == hi / a * w * a;
      }
    }
    QuotientIs(hi * w + lo, a, hi / a * w + (hi % a * b + lo / a), lo % a);
  }

  lemma ShiftedFarRight(hi: Uint64, lo: Uint64, amount: nat)
    requires 64 <= amount < 128
    ensures ShiftWordRight(hi, amount - 64) == (hi * TWO_TO_THE_64 + lo) / Pow2(amount)
  {
    hide Pow2;
    Pow2Of64();
    Pow2Sum(amount - 64, 64);
    DivideTwice(hi, lo, Pow2(amount - 64), TWO_TO_THE_64);
  }

  lemma DivideTwice(hi: nat, lo: nat, a: nat, w: nat)
    requires a > 0 && lo < w
    ensures (hi * w + lo) / (a * w) == hi / a
  {
    assert hi == hi / a * a + hi % a;
    assert hi * w == hi / a * (a * w) + hi % a * w by {
      assert (hi / a * a + hi % a) * w == hi / a * a * w + hi % a * w;
    }
    NextMultiple(hi % a, a, w);
    QuotientIs(hi * w + lo, a * w, hi / a, hi % a * w + lo);
  }

  // --- The fallback product of four partial products -------------------------------------------------------

  method Times(lhs: Uint128, rhs: Uint128) returns (result: Uint128)
    ensures result.Value() == lhs.Value() * rhs.Value() % TWO_TO_THE_128
  {
    hide Pow2, Wrap, Uint128.Plus, Uint128.ShiftLeft;
    var a32, a00 := lhs.lo / TWO_TO_THE_32, lhs.lo % TWO_TO_THE_32;
    var b32, b00 := rhs.lo / TWO_TO_THE_32, rhs.lo % TWO_TO_THE_32;
    PartialProducts(a32, a00, b32, b00);
    result := Uint128(Wrap(Wrap(Wrap(lhs.hi * rhs.lo) + Wrap(lhs.lo * rhs.hi)) + Wrap(a32 * b32)), Wrap(a00 * b00));
    ghost var first := result;
    var second := Uint128(0, Wrap(a32 * b00)).ShiftLeft(32);
    result := result.Plus(second);
    var third := Uint128(0, Wrap(a00 * b32)).ShiftLeft(32);
    result := result.Plus(third);
    PowerOf32();
    ShiftedPartial(a32 * b00);
    ShiftedPartial(a00 * b32);
    ProductMeaning(lhs.hi, lhs.lo, rhs.hi, rhs.lo, first.Value(), second.Value(), third.Value());
  }

  lemma ProductMeaning(lhi: Uint64, llo: Uint64, rhi: Uint64, rlo: Uint64, first: nat, second: nat, third: nat)
    requires var a32, a00, b32, b00 :=
               llo / TWO_TO_THE_32, llo % TWO_TO_THE_32, rlo / TWO_TO_THE_32, rlo % TWO_TO_THE_32;
             && first ==
                Wrap(Wrap(Wrap(lhi * rlo) + Wrap(llo * rhi)) + Wrap(a32 * b32)) * TWO_TO_THE_64 + Wrap(a00 * b00)
             && second == a32 * b00 * TWO_TO_THE_32 && third == a00 * b32 * TWO_TO_THE_32
    ensures ((first + second) % TWO_TO_THE_128 + third) % TWO_TO_THE_128
            == (lhi * TWO_TO_THE_64 + llo) * (rhi * TWO_TO_THE_64 + rlo) % TWO_TO_THE_128
  {
    hide Wrap;
    var a32, a00, b32, b00 :=
      llo / TWO_TO_THE_32, llo % TWO_TO_THE_32, rlo / TWO_TO_THE_32, rlo % TWO_TO_THE_32;
    PartialProducts(a32, a00, b32, b00);
    WrapOnce(a32 * b32);
    WrapOnce(a00 * b00);
    LowProduct(a32, a00, b32, b00);
    Expands(lhi, llo, rhi, rlo);
    ProductValue(lhi * rhi, lhi * rlo, llo * rhi, a32 * b32, a32 * b00, a00 * b32, a00 * b00, llo * rlo,
                 first, second, third);
  }

  lemma ShiftedPartial(p: nat)
    requires p < TWO_TO_THE_64
    ensures Wrap(p) == p && p * TWO_TO_THE_32 % TWO_TO_THE_128 == p * TWO_TO_THE_32
  {
    WrapOnce(p);
    ModuloIs(p * TWO_TO_THE_32, p * TWO_TO_THE_32);
  }

  lemma PowerOf32()
    ensures Pow2(32) == TWO_TO_THE_32
  {
    assert Pow2(4) == 0x10;
    hide Pow2;
    Pow2Square(4, 0x10);
    Pow2Square(8, 0x100);
    Pow2Square(16, 0x1_0000);
  }

  lemma PartialProducts(a: nat, b: nat, c: nat, d: nat)
    requires a < TWO_TO_THE_32 && b < TWO_TO_THE_32 && c < TWO_TO_THE_32 && d < TWO_TO_THE_32
    ensures 0 <= a * c < TWO_TO_THE_64 && 0 <= a * d < TWO_TO_THE_64
    ensures 0 <= b * c < TWO_TO_THE_64 && 0 <= b * d < TWO_TO_THE_64
  {
    HalfProduct(a, c);
    HalfProduct(a, d);
    HalfProduct(b, c);
    HalfProduct(b, d);
  }

  lemma HalfProduct(x: nat, y: nat)
    requires x < TWO_TO_THE_32 && y < TWO_TO_THE_32
    ensures 0 <= x * y < TWO_TO_THE_64
  {
    TimesAtMost(x, TWO_TO_THE_32, y);
  }

  lemma Expands(a: nat, b: nat, c: nat, d: nat)
    ensures (a * TWO_TO_THE_64 + b) * (c * TWO_TO_THE_64 + d)
            == a * c * TWO_TO_THE_128 + (a * d + b * c) * TWO_TO_THE_64 + b * d
  {
    var w := TWO_TO_THE_64;
    assert (a * w + b) * (c * w + d) == a * w * (c * w + d) + b * (c * w + d);
    assert a * w * (c * w + d) == a * c * (w * w) + a * d * w;
    assert b * (c * w + d) == b * c * w + b * d;
  }

  lemma LowProduct(a32: nat, a00: nat, b32: nat, b00: nat)
    ensures var h := TWO_TO_THE_32;
            (a32 * h + a00) * (b32 * h + b00) == a32 * b32 * TWO_TO_THE_64 + (a32 * b00 + a00 * b32) * h + a00 * b00
  {
    var h := TWO_TO_THE_32;
    assert (a32 * h + a00) * (b32 * h + b00) == a32 * h * (b32 * h + b00) + a00 * (b32 * h + b00);
    assert a32 * h * (b32 * h + b00) == a32 * b32 * (h * h) + a32 * b00 * h;
    assert a00 * (b32 * h + b00) == a00 * b32 * h + a00 * b00;
  }

  // The products are only added up here, whatever they are.
  lemma ProductValue(hh: nat, hl: nat, lh: nat, p: nat, q: nat, r: nat, s: nat, ll: nat,
                     first: nat, second: nat, third: nat)
    requires first == Wrap(Wrap(Wrap(hl) + Wrap(lh)) + p) * TWO_TO_THE_64 + s
    requires second == q * TWO_TO_THE_32 && third == r * TWO_TO_THE_32
    requires ll == p * TWO_TO_THE_64 + (q + r) * TWO_TO_THE_32 + s
    ensures ((first + second) % TWO_TO_THE_128 + third) % TWO_TO_THE_128
            == (hh * TWO_TO_THE_128 + (hl + lh) * TWO_TO_THE_64 + ll) % TWO_TO_THE_128
  {
    var w, m := TWO_TO_THE_64, TWO_TO_THE_128;
    var c0, c1 := Divided(hl, w), Divided(lh, w);
    var c2 := Divided(Wrap(hl) + Wrap(lh), w);
    var c3 := Divided(Wrap(Wrap(hl) + Wrap(lh)) + p, w);
    var c4 := Divided(first + second, m);
    var c5 := Divided((first + second) % m + third, m);
    var sum := ((first + second) % m + third) % m;
    hide Wrap;
    var k := hh + c0 + c1 + c2 + c3 + c4 + c5;
    assert first == (hl + lh + p - (c0 + c1 + c2 + c3) * w) * w + s;
    QuotientIs(hh * m + (hl + lh) * w + ll, m, k, sum);
  }

  ghost function Divided(x: int, m: nat): (q: int)
    requires m > 0
    ensures x % m == x - q * m
  {
    x / m
  }

  // --- The highest bit set ---------------------------------------------------------------------------------

  ghost predicate IsHighestBit(n: nat, k: nat) {
    Pow2(k) <= n < Pow2(k + 1)
  }

  // The highest bit of n is the one of m, by places further up.
  ghost predicate Continues(m: nat, n: nat, places: nat) {
    forall k: nat :: IsHighestBit(m, k) ==> IsHighestBit(n, places + k)
  }

  // STEP(T, n, pos, sh).
  method Halve(n: Uint64, pos: nat, sh: nat) returns (n': Uint64, pos': nat)
    requires sh in {0x20, 0x10, 0x08, 0x04} && pos % (2 * sh) == 0 && 0 < n < Pow2(2 * sh)
    ensures 0 < n' < Pow2(sh) && pos' % sh == 0 && pos <= pos' <= pos + sh
    ensures Continues(n', n, pos' - pos)
  {
    hide Pow2, BitOr, IsHighestBit, ShiftWordRight;
    n', pos' := n, pos;
    NewBit(pos, sh);
    if n >= Pow2(sh) {
      hide Continues;
      BitsAbove(n, sh);
      n' := ShiftWordRight(n, sh);
      pos' := BitOr(pos, sh);
    }
  }

  lemma BitsAbove(n: Uint64, sh: nat)
    requires sh < 64 && Pow2(sh) <= n < Pow2(2 * sh)
    ensures 0 < ShiftWordRight(n, sh) < Pow2(sh)
    ensures Continues(ShiftWordRight(n, sh), n, sh)
  {
    var d := Pow2(sh);
    hide Pow2, IsHighestBit;
    Pow2Sum(sh, sh);
    QuotientBelow(n, d, d);
    QuotientAtLeast(n, d, 1);
    hide ShiftWordRight;
    forall k: nat | IsHighestBit(ShiftWordRight(n, sh), k)
      ensures IsHighestBit(n, sh + k)
    {
      BitAbove(n, sh, k);
    }
  }

  lemma BitAbove(n: Uint64, sh: nat, k: nat)
    requires sh < 64 && IsHighestBit(ShiftWordRight(n, sh), k)
    ensures IsHighestBit(n, sh + k)
  {
    hide Pow2;
    Pow2Sum(k, sh);
    Pow2Sum(k + 1, sh);
    var low, high, d := Pow2(k), Pow2(k + 1), Pow2(sh);
    QuotientBetween(n, d, low, high);
  }

  lemma NewBit(pos: nat, sh: nat)
    requires sh in {0x20, 0x10, 0x08, 0x04} && pos % (2 * sh) == 0
    ensures BitOr(pos, sh) == pos + sh && pos % sh == 0 && (pos + sh) % sh == 0
  {
    hide BitOr;
    assert Pow2(3) == 8 && Pow2(4) == 16 && Pow2(5) == 32 && Pow2(6) == 64;
    hide Pow2;
    OrIsSum(pos / (2 * sh), sh, if sh == 0x20 then 6 else if sh == 0x10 then 5 else if sh == 0x08 then 4 else 3);
    HalfStep(pos, sh);
  }

  lemma HalfStep(pos: nat, sh: nat)
    requires sh > 0 && pos % (2 * sh) == 0
    ensures pos / (2 * sh) * (2 * sh) == pos && pos % sh == 0 && (pos + sh) % sh == 0
  {
    var q := pos / (2 * sh);
    assert pos == q * (2 * sh);
    assert q * (2 * sh) == 2 * q * sh;
    QuotientIs(pos, sh, 2 * q, 0);
    assert (2 * q + 1) * sh == 2 * q * sh + sh;
    QuotientIs(pos + sh, sh, 2 * q + 1, 0);
  }

  // (table >> 4 n) & 3, for a table with one hexadecimal digit for each n below 16.
  const TABLE := 0x3333333322221100

  function Looked(n: nat): nat {
    TABLE / Pow2(4 * n) % 4
  }

  lemma LookedUp(n: nat)
    requires 0 < n < 16
    ensures IsHighestBit(n, Looked(n)) && Looked(n) < 4
  {
    assert Pow2(0) == 1 && Pow2(1) == 2 && Pow2(2) == 4 && Pow2(3) == 8 && Pow2(4) == 16;
    hide Pow2;
    PowersOf16(n);
    var digits := [0, 0, 1, 1, 2, 2, 2, 2, 3, 3, 3, 3, 3, 3, 3, 3];
    assert IsHighestBit(n, digits[n]);
    TableDigit(n, Pow2(4 * n));
  }

  lemma TableDigit(n: nat, p: nat)
    requires 0 < n < 16 && p == [0x1, 0x10, 0x100, 0x1000, 0x1_0000, 0x10_0000, 0x100_0000, 0x1000_0000, 0x1_0000_0000,
                                 0x10_0000_0000, 0x100_0000_0000, 0x1000_0000_0000, 0x1_0000_0000_0000,
                                 0x10_0000_0000_0000, 0x100_0000_0000_0000, 0x1000_0000_0000_0000][n]
    ensures TABLE / p % 4 == [0, 0, 1, 1, 2, 2, 2, 2, 3, 3, 3, 3, 3, 3, 3, 3][n]
  {
    var quotient :=
      [TABLE, 0x333333332222110, 0x33333333222211, 0x3333333322221, 0x333333332222, 0x33333333222, 0x3333333322,
       0x333333332, 0x33333333, 0x3333333, 0x333333, 0x33333, 0x3333, 0x333, 0x33, 0x3][n];
    assert 0 <= TABLE - quotient * p < p;
    QuotientIs(TABLE, p, quotient, TABLE - quotient * p);
  }

  lemma PowersOf16(n: nat)
    requires 0 < n < 16
    ensures Pow2(4 * n) == [0x1, 0x10, 0x100, 0x1000, 0x1_0000, 0x10_0000, 0x100_0000, 0x1000_0000, 0x1_0000_0000,
                            0x10_0000_0000, 0x100_0000_0000, 0x1000_0000_0000, 0x1_0000_0000_0000,
                            0x10_0000_0000_0000, 0x100_0000_0000_0000, 0x1000_0000_0000_0000][n]
  {
    assert Pow2(4) == 16 && Pow2(0) == 1;
    hide Pow2;
    if n > 1 {
      PowersOf16(n - 1);
      Pow2Sum(4, 4 * (n - 1));
    }
  }

  method Fls64(n: Uint64) returns (pos: nat)
    requires n != 0
    ensures IsHighestBit(n, pos)
  {
    hide Pow2, BitOr, IsHighestBit, Looked;
    Pow2Of64();
    PowersOf16(1);
    var m: Uint64;
    m, pos := Halve(n, 0, 0x20);
    m, pos := Halve(m, pos, 0x10);
    m, pos := Halve(m, pos, 0x08);
    m, pos := Halve(m, pos, 0x04);
    LookedUp(m);
    pos := pos + Looked(m);
  }

  // Fls128 is the floor of the binary logarithm.
  method Fls128(n: Uint128) returns (pos: nat)
    requires n.Value() != 0
    ensures IsHighestBit(n.Value(), pos) && pos < 128
  {
    hide Pow2, IsHighestBit;
    if n.hi != 0 {
      pos := Fls64(n.hi);
      HighWord(n, pos);
      pos := pos + 64;
    } else {
      pos := Fls64(n.lo);
    }
    HighestBitBelow(n.Value(), pos);
  }

  lemma HighWord(n: Uint128, pos: nat)
    requires IsHighestBit(n.hi, pos)
    ensures IsHighestBit(n.Value(), pos + 64)
  {
    hide Pow2;
    Pow2Of64();
    Pow2Sum(pos, 64);
    Pow2Sum(pos + 1, 64);
  }

  lemma HighestBitBelow(n: nat, pos: nat)
    requires n < TWO_TO_THE_128 && IsHighestBit(n, pos)
    ensures pos < 128
  {
    hide Pow2;
    Pow2Of64();
    Pow2Sum(64, 64);
    if pos >= 128 {
      Pow2Grows(128, pos);
    }
  }

  // --- Long division ---------------------------------------------------------------------------------------

  // A division of n by d that has k bits of the quotient to go.
  ghost predicate Partly(n: nat, d: nat, q: nat, r: nat, k: nat) {
    n == q * (d * Pow2(k)) + r && r < d * Pow2(k)
  }

  // Aligning the highest bits loses no bit of the divisor, and no higher bit of the quotient.
  lemma Aligned(n: nat, d: nat, high: nat, low: nat)
    requires 0 < d <= n < TWO_TO_THE_128 && IsHighestBit(n, high) && IsHighestBit(d, low) && high < 128
    ensures low <= high && d * Pow2(high - low) < TWO_TO_THE_128 && Partly(n, d, 0, n, high - low + 1)
  {
    hide Pow2;
    if high < low {
      Pow2Grows(high + 1, low);
    }
    Pow2Of64();
    Pow2Sum(64, 64);
    Pow2Sum(low + 1, high - low);
    Pow2Grows(high + 1, 128);
    Scales(d, Pow2(low + 1), Pow2(high - low));
    Pow2Sum(low, high - low + 1);
    TimesAtMost(Pow2(low), d, Pow2(high - low + 1));
  }

  // One more bit of the quotient.
  lemma NextBit(n: nat, d: nat, q: nat, r: nat, k: nat)
    requires Partly(n, d, q, r, k + 1) && d > 0 && n < TWO_TO_THE_128
    ensures 0 <= 2 * q < TWO_TO_THE_128
    ensures if r < d * Pow2(k) then Partly(n, d, 2 * q, r, k) else Partly(n, d, 2 * q + 1, r - d * Pow2(k), k)
  {
    Pow2Positive(k + 1);
    hide Pow2;
    TimesAtMost(1, d, Pow2(k));
    Rearrange(d, Pow2(k));
    NextQuotient(n, d * Pow2(k), q, r);
  }

  lemma NextQuotient(n: nat, e: nat, q: nat, r: nat)
    requires n == q * (2 * e) + r && e > 0
    ensures 2 * q <= n
    ensures n == 2 * q * e + r
    ensures n == (2 * q + 1) * e + (r - e)
  {
    assert q * (2 * e) == 2 * q * e;
    TimesAtMost(1, e, 2 * q);
    assert (2 * q + 1) * e == 2 * q * e + e;
  }

  lemma Halved(d: nat, k: nat)
    ensures k > 0 ==> d * Pow2(k) / Pow2(1) == d * Pow2(k - 1)
  {
    PowerOfOne();
    if k > 0 {
      Pow2Positive(k);
      hide Pow2;
      assert d * Pow2(k) == 2 * (d * Pow2(k - 1));
    }
  }

  lemma PowerOfOne()
    ensures Pow2(1) == 2
  {
  }

  // quotient <<= 1 loses nothing, and quotient |= 1 then adds one.
  lemma LastBit(q: Uint128, doubled: Uint128)
    requires 2 * q.Value() < TWO_TO_THE_128 && doubled.Value() == q.Value() * Pow2(1) % TWO_TO_THE_128
    ensures doubled.Value() == 2 * q.Value()
    ensures BitOr(doubled.hi, 0) < TWO_TO_THE_64 && BitOr(doubled.lo, 1) < TWO_TO_THE_64
    ensures doubled.Or(ONE).Value() == doubled.Value() + 1
  {
    PowerOfOne();
    ModuloIs(2 * q.Value(), 2 * q.Value());
    OrWithZero(doubled.hi);
    OrIsSum(doubled.lo / 2, 1, 1);
  }

  // Shift and subtract: the quotient and the remainder.
  method DivMod(dividend: Uint128, divisor: Uint128) returns (quotient: Uint128, remainder: Uint128)
    requires divisor.Value() != 0
    ensures dividend.Value() == quotient.Value() * divisor.Value() + remainder.Value()
    ensures remainder.Value() < divisor.Value()
  {
    hide Pow2, BitOr, IsHighestBit, Uint128.Minus, Uint128.ShiftLeft, Uint128.ShiftRight, Uint128.Or;
    ComparisonMeaning(dividend, divisor);
    if dividend.Less(divisor) {
      return ZERO, dividend;
    }
    if divisor == dividend {
      return ONE, ZERO;
    }
    var high := Fls128(dividend);
    var low := Fls128(divisor);
    Aligned(dividend.Value(), divisor.Value(), high, low);
    var shift := high - low;
    var denominator := divisor.ShiftLeft(shift);
    quotient, remainder := ZERO, dividend;
    ghost var n, d := dividend.Value(), divisor.Value();
    ModuloIs(d * Pow2(shift), d * Pow2(shift));
    for i := 0 to shift + 1
      invariant i <= shift ==> denominator.Value() == d * Pow2(shift - i)
      invariant Partly(n, d, quotient.Value(), remainder.Value(), shift + 1 - i)
    {
      NextBit(n, d, quotient.Value(), remainder.Value(), shift - i);
      ComparisonMeaning(remainder, denominator);
      LastBit(quotient, quotient.ShiftLeft(1));
      quotient := quotient.ShiftLeft(1);
      if remainder.AtLeast(denominator) {
        ModuloIs(remainder.Value() - denominator.Value(), remainder.Value() - denominator.Value());
        remainder := remainder.Minus(denominator);
        quotient := quotient.Or(ONE);
      }
      Halved(d, shift - i);
      denominator := denominator.ShiftRight(1);
    }
    PowerOfZero();
  }
}
