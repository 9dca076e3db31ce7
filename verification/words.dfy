/** Facts about 64-bit words, bit by bit. Nothing here knows about chess. */
module Words {

  type Word = bv64

  // Exactly one bit is set (is_square, src/board.cc:1106-1110).
  predicate IsSingle(w: Word) {
    w != 0 && w & (w - 1) == 0
  }

  // One shifted left i times, one place at a time: the expression lsb_bitboard << i of the source.
  function BitAt(i: nat): Word {
    if i == 0 then 1 else BitAt(i - 1) << 1
  }

  lemma DoubledBit(i: nat)
    ensures BitAt(i + 1) == BitAt(i) << 1
  {
  }

  lemma EighthBit()
    ensures BitAt(8) == 0x100
  {
    assert BitAt(2) == 4;
    assert BitAt(4) == 16;
    assert BitAt(6) == 64;
  }

  // The two shifts by name, so that a proof may treat them as mere functions.
  function Double(w: Word): Word {
    w << 1
  }

  function Raise(w: Word): Word {
    w << 8
  }

  lemma IsDouble(w: Word)
    ensures Double(w) == w << 1
  {
  }

  lemma IsRaise(w: Word)
    ensures Raise(w) == w << 8
  {
  }

  lemma DoubleRaise(w: Word)
    ensures Double(Raise(w)) == (w << 8) << 1
  {
    hide Double, Raise;
    IsRaise(w);
    assert Double(Raise(w)) == Double(w << 8);
    IsDouble(w << 8);
  }

  lemma RaiseDouble(w: Word)
    ensures Raise(Double(w)) == (w << 1) << 8
  {
    hide Double, Raise;
    IsDouble(w);
    assert Raise(Double(w)) == Raise(w << 1);
    IsRaise(w << 1);
  }

  lemma ShiftsCommute(w: Word)
    ensures Double(Raise(w)) == Raise(Double(w))
  {
    hide Double, Raise;
    DoubleRaise(w);
    RaiseDouble(w);
  }

  lemma DoubleBit(i: nat)
    ensures BitAt(i + 1) == Double(BitAt(i))
  {
  }

  lemma {:induction false} RaiseBit(i: nat)
    ensures BitAt(i + 8) == Raise(BitAt(i))
  {
    if i == 0 {
      EighthBit();
    } else {
      hide BitAt, Double, Raise;
      RaiseBit(i - 1);
      DoubleBit(i - 1);
      DoubleBit(i + 7);
      ShiftsCommute(BitAt(i - 1));
    }
  }

  // Eight bits further on is one byte up.
  lemma RankUp(i: nat)
    ensures BitAt(i + 8) == BitAt(i) << 8
  {
    hide BitAt, Raise;
    RaiseBit(i);
    IsRaise(BitAt(i));
  }

  lemma HighBits()
    ensures BitAt(56) == 0x100_0000_0000_0000
    ensures BitAt(63) == 0x8000_0000_0000_0000
  {
    EighthBit();
    RankUp(8);
    assert BitAt(16) == 0x1_0000;
    RankUp(16);
    assert BitAt(24) == 0x100_0000;
    RankUp(24);
    assert BitAt(32) == 0x1_0000_0000;
    RankUp(32);
    assert BitAt(40) == 0x100_0000_0000;
    RankUp(40);
    assert BitAt(48) == 0x1_0000_0000_0000;
    RankUp(48);
    assert BitAt(58) == BitAt(56) << 2;
    assert BitAt(60) == BitAt(58) << 2;
    assert BitAt(62) == BitAt(60) << 2;
  }

  lemma {:induction false} ZeroStays(i: nat)
    requires i < 64 && BitAt(i) == 0
    ensures BitAt(63) == 0
    decreases 63 - i
  {
    hide BitAt;
    if i < 63 {
      DoubledBit(i);
      ZeroStays(i + 1);
    }
  }

  lemma BitIsNonZero(i: nat)
    requires i < 64
    ensures BitAt(i) != 0
  {
    hide BitAt;
    HighBits();
    if BitAt(i) == 0 {
      ZeroStays(i);
    }
  }

  lemma Doubling(w: Word)
    requires IsSingle(w)
    ensures if w == 1 then w >> 1 == 0 else IsSingle(w >> 1) && w == (w >> 1) << 1 && w >> 1 < w
    ensures w << 1 == 0 || (IsSingle(w << 1) && (w << 1) >> 1 == w && w < w << 1)
  {
  }

  lemma {:induction false} BitAtIsSingle(i: nat)
    requires i < 64
    ensures IsSingle(BitAt(i))
    ensures i > 0 ==> BitAt(i) >> 1 == BitAt(i - 1)
  {
    if i > 0 {
      BitAtIsSingle(i - 1);
      Doubling(BitAt(i - 1));
      BitIsNonZero(i);
    }
  }

  // The index of the highest set bit, -1 for the empty word.
  function HighestBit(w: Word): (i: int)
    ensures -1 <= i
    ensures w == 0 <==> i == -1
    decreases w
  {
    if w == 0 then -1 else Halving(w); HighestBit(w >> 1) + 1
  }

  lemma Halving(w: Word)
    requires w != 0
    ensures w >> 1 < w
  {
  }

  lemma {:induction false} HighestBitOfBitAt(i: nat)
    requires i < 64
    ensures HighestBit(BitAt(i)) == i
  {
    BitAtIsSingle(i);
    if i > 0 {
      HighestBitOfBitAt(i - 1);
    } else {
      assert BitAt(0) >> 1 == 0;
    }
  }

  lemma {:induction false} SingleIsBitAt(w: Word)
    requires IsSingle(w)
    ensures 0 <= HighestBit(w) < 64 && w == BitAt(HighestBit(w))
    decreases w
  {
    hide IsSingle;
    Doubling(w);
    if w == 1 {
      assert HighestBit(w >> 1) == -1;
    } else {
      SingleIsBitAt(w >> 1);
      assert HighestBit(w) == HighestBit(w >> 1) + 1;
      if HighestBit(w >> 1) == 63 {
        TopBit();
      }
    }
  }

  lemma TopBit()
    ensures BitAt(63) << 1 == 0
  {
    hide BitAt;
    HighBits();
  }

  // --- Intersections with a single bit -------------------------------------------------------------
  //
  // Each fact is proved on the word operators themselves first and then restated with Meet.

  predicate Meet(a: Word, b: Word) {
    a & b != 0
  }

  lemma MeetSym(a: Word, b: Word)
    ensures Meet(a, b) <==> Meet(b, a)
  {
  }

  lemma AndOrLeft(a: Word, b: Word, x: Word)
    requires x & a != 0
    ensures x & (a | b) != 0
  {
  }

  lemma AndOrRight(a: Word, b: Word, x: Word)
    requires x & b != 0
    ensures x & (a | b) != 0
  {
  }

  lemma AndOrNeither(a: Word, b: Word, x: Word)
    requires x & a == 0 && x & b == 0
    ensures x & (a | b) == 0
  {
  }

  lemma AndOr(a: Word, b: Word, x: Word)
    ensures x & (a | b) != 0 <==> x & a != 0 || x & b != 0
  {
    if x & a != 0 {
      AndOrLeft(a, b, x);
    } else if x & b != 0 {
      AndOrRight(a, b, x);
    } else {
      AndOrNeither(a, b, x);
    }
  }

  lemma MeetOr(x: Word, a: Word, b: Word)
    ensures Meet(x, a | b) <==> Meet(x, a) || Meet(x, b)
  {
    AndOr(a, b, x);
  }

  lemma AndAnd(a: Word, b: Word, x: Word)
    requires IsSingle(x)
    ensures x & (a & b) != 0 <==> x & a != 0 && x & b != 0
  {
  }

  lemma MeetAnd(x: Word, a: Word, b: Word)
    requires IsSingle(x)
    ensures Meet(x, a & b) <==> Meet(x, a) && Meet(x, b)
  {
    AndAnd(a, b, x);
  }

  lemma AndXor(a: Word, b: Word, x: Word)
    requires IsSingle(x)
    ensures x & (a ^ b) != 0 <==> (x & a != 0) != (x & b != 0)
  {
  }

  lemma MeetXor(x: Word, a: Word, b: Word)
    requires IsSingle(x)
    ensures Meet(x, a ^ b) <==> Meet(x, a) != Meet(x, b)
  {
    AndXor(a, b, x);
  }

  lemma AndNot(x: Word, a: Word)
    requires IsSingle(x)
    ensures x & a == 0 || x & !a == 0
    ensures x & a != 0 || x & !a != 0
  {
  }

  lemma MeetNot(x: Word, a: Word)
    requires IsSingle(x)
    ensures Meet(x, !a) <==> !Meet(x, a)
  {
    AndNot(x, a);
  }

  lemma SinglesMeet(x: Word, y: Word)
    requires IsSingle(x) && IsSingle(y)
    ensures Meet(x, y) <==> x == y
  {
  }

  // --- The lowest set bit ----------------------------------------------------------------------------

  function ClearLsb(w: Word): Word {
    w & (w - 1)
  }

  function Lsb(w: Word): Word {
    w ^ (w & (w - 1))
  }

  lemma LsbIsSingle(w: Word)
    requires w != 0
    ensures IsSingle(Lsb(w))
  {
  }

  lemma LsbIsInside(w: Word)
    requires w != 0
    ensures Meet(Lsb(w), w)
  {
  }

  lemma AndClearLsb(w: Word, x: Word)
    requires w != 0 && IsSingle(x)
    ensures x & (w & (w - 1)) != 0 <==> x & w != 0 && x != w ^ (w & (w - 1))
  {
  }

  lemma MeetClearLsb(w: Word, x: Word)
    requires w != 0 && IsSingle(x)
    ensures Meet(x, ClearLsb(w)) <==> Meet(x, w) && x != Lsb(w)
  {
    AndClearLsb(w, x);
  }

  lemma LsbIsLeast(w: Word, x: Word)
    requires w != 0 && IsSingle(x) && Meet(x, w)
    ensures !(x < Lsb(w))
  {
  }

  lemma {:induction false} BitAtMonotonic(i: nat, j: nat)
    requires i < j < 64
    ensures BitAt(i) < BitAt(j)
  {
    BitAtIsSingle(j - 1);
    BitAtIsSingle(j);
    Doubling(BitAt(j - 1));
    if i < j - 1 {
      BitAtMonotonic(i, j - 1);
    }
  }

  // --- Shifts by a whole rank ---------------------------------------------------------------------------

  lemma VerticalKeepsSingle(w: Word)
    requires IsSingle(w)
    ensures w << 8 == 0 || (IsSingle(w << 8) && (w << 8) >> 8 == w)
    ensures w >> 8 == 0 || IsSingle(w >> 8)
  {
  }

  lemma TopStep(a: Word, b: Word)
    requires b == a << 1 && a << 8 == 0
    ensures b << 8 == 0
  {
  }

  // The top rank leaves the board.
  lemma {:induction false} TopByte(i: nat)
    requires 56 <= i < 64
    ensures BitAt(i) << 8 == 0
  {
    hide BitAt;
    if i == 56 {
      HighBits();
    } else {
      TopByte(i - 1);
      DoubledBit(i - 1);
      TopStep(BitAt(i - 1), BitAt(i));
    }
  }

  lemma ByteUp(i: nat)
    requires i < 64
    ensures BitAt(i) << 8 == if i < 56 then BitAt(i + 8) else 0
  {
    hide BitAt;
    if i < 56 {
      RankUp(i);
    } else {
      TopByte(i);
    }
  }

  lemma {:induction false} BottomByte(i: nat)
    requires i < 8
    ensures BitAt(i) < 0x100
  {
    hide BitAt;
    EighthBit();
    BitAtMonotonic(i, 8);
  }

  lemma ByteDown(i: nat)
    requires i < 64
    ensures BitAt(i) >> 8 == if 8 <= i then BitAt(i - 8) else 0
  {
    hide BitAt;
    if 8 <= i {
      ByteUp(i - 8);
      BitAtIsSingle(i - 8);
      BitAtIsSingle(i);
      VerticalKeepsSingle(BitAt(i - 8));
    } else {
      BottomByte(i);
    }
  }
}
