/** Bitboards (src/board.cc:1096-1233): a 64-bit word with one bit per square, the a8 square in the most
    significant bit and the h1 square in the least significant one. Every operation is given its meaning
    in terms of squares; no other module looks inside a word. */
module Bitboards {
  import opened Geometry
  import opened Words

  const BOARD_SIZE := 8

  function Index(s: Square): nat
    requires OnBoard(s)
  {
    s.rank * BOARD_SIZE + BOARD_SIZE - s.file - 1
  }

  // The Bitboard of the source: a 64-bit word.
  datatype Bitboard = Bitboard(word: Word) {

    // The conversion to bool.
    predicate Any() {
      word != 0
    }

    predicate IsSquare() {
      IsSingle(word)
    }

    // The conversion to bool of this & that.
    predicate Meets(that: Bitboard) {
      Meet(word, that.word)
    }

    function Or(that: Bitboard): Bitboard {
      Bitboard(word | that.word)
    }

    function And(that: Bitboard): Bitboard {
      Bitboard(word & that.word)
    }

    function Xor(that: Bitboard): Bitboard {
      Bitboard(word ^ that.word)
    }

    function Not(): Bitboard {
      Bitboard(!word)
    }

    // this & this - 1
    function LsbCleared(): Bitboard {
      Bitboard(ClearLsb(word))
    }
  }

  // The board with a single bit, for the square s; empty when s is off the board.
  function Bit(s: Square): Bitboard {
    if OnBoard(s) then Bitboard(BitAt(Index(s))) else EMPTY
  }

  const EMPTY := Bitboard(0)

  // The set of squares a board stands for.
  predicate Has(bb: Bitboard, s: Square) {
    OnBoard(s) && Bit(s).Meets(bb)
  }

  ghost function Squares(bb: Bitboard): set<Square> {
    set s | s in AllSquares() && Has(bb, s)
  }

  function CoordinatesToSquare(file: int, rank: int): Bitboard
    requires 0 <= file < 8 && 0 <= rank < 8
    ensures CoordinatesToSquare(file, rank) == Bit(Square(file, rank))
  {
    Bitboard(BitAt(rank * BOARD_SIZE + BOARD_SIZE - file - 1))
  }

  function StrToSquare(name: string): Bitboard
    requires |name| == 2 && 'a' <= name[0] <= 'h' && '1' <= name[1] <= '8'
    ensures StrToSquare(name) == Bit(Square(name[0] as int - 'a' as int, name[1] as int - '1' as int))
  {
    CoordinatesToSquare(name[0] as int - 'a' as int, name[1] as int - '1' as int)
  }

  // --- Bits and squares ------------------------------------------------------------------------------

  lemma MeetsIsMeet(x: Bitboard, a: Bitboard)
    ensures x.Meets(a) <==> Meet(x.word, a.word)
  {
  }

  lemma MeetsOr(x: Bitboard, a: Bitboard, b: Bitboard)
    ensures x.Meets(a.Or(b)) <==> x.Meets(a) || x.Meets(b)
  {
    hide Bitboard.Meets, Bitboard.Or, Meet;
    MeetsIsMeet(x, a);
    MeetsIsMeet(x, b);
    MeetsIsMeet(x, a.Or(b));
    OrIsOr(a, b);
    MeetOr(x.word, a.word, b.word);
  }

  lemma OrIsOr(a: Bitboard, b: Bitboard)
    ensures a.Or(b).word == a.word | b.word
  {
  }

  lemma MeetsAnd(x: Bitboard, a: Bitboard, b: Bitboard)
    requires x.IsSquare()
    ensures x.Meets(a.And(b)) <==> x.Meets(a) && x.Meets(b)
  {
    hide Bitboard.Meets, Bitboard.And, Meet, IsSingle;
    MeetsIsMeet(x, a);
    MeetsIsMeet(x, b);
    MeetsIsMeet(x, a.And(b));
    AndIsAnd(a, b);
    MeetAnd(x.word, a.word, b.word);
  }

  lemma AndIsAnd(a: Bitboard, b: Bitboard)
    ensures a.And(b).word == a.word & b.word
  {
  }

  lemma MeetsXor(x: Bitboard, a: Bitboard, b: Bitboard)
    requires x.IsSquare()
    ensures x.Meets(a.Xor(b)) <==> x.Meets(a) != x.Meets(b)
  {
    hide Bitboard.Meets, Bitboard.Xor, Meet, IsSingle;
    MeetsIsMeet(x, a);
    MeetsIsMeet(x, b);
    MeetsIsMeet(x, a.Xor(b));
    XorIsXor(a, b);
    MeetXor(x.word, a.word, b.word);
  }

  lemma XorIsXor(a: Bitboard, b: Bitboard)
    ensures a.Xor(b).word == a.word ^ b.word
  {
  }

  lemma MeetsNot(x: Bitboard, a: Bitboard)
    requires x.IsSquare()
    ensures x.Meets(a.Not()) <==> !x.Meets(a)
  {
    hide Bitboard.Meets, Bitboard.Not, Meet, IsSingle;
    MeetsIsMeet(x, a);
    MeetsIsMeet(x, a.Not());
    NotIsNot(a);
    MeetNot(x.word, a.word);
  }

  lemma NotIsNot(a: Bitboard)
    ensures a.Not().word == !a.word
  {
  }

  lemma MeetsLsbCleared(x: Bitboard, a: Bitboard)
    requires a.Any() && x.IsSquare()
    ensures x.Meets(a.LsbCleared()) <==> x.Meets(a) && x != OnlyLsb(a)
  {
    hide Bitboard.Meets, Bitboard.LsbCleared, Meet, IsSingle, OnlyLsb, Lsb, ClearLsb;
    MeetsIsMeet(x, a);
    MeetsIsMeet(x, a.LsbCleared());
    LsbClearedIs(a);
    OnlyLsbIs(a);
    MeetClearLsb(a.word, x.word);
  }

  lemma LsbClearedIs(a: Bitboard)
    ensures a.LsbCleared().word == ClearLsb(a.word)
  {
  }

  // Exactly the lowest set bit.
  function OnlyLsb(a: Bitboard): Bitboard {
    a.Xor(a.LsbCleared())
  }

  lemma OnlyLsbIs(a: Bitboard)
    ensures OnlyLsb(a).word == Lsb(a.word)
  {
  }

  lemma OnlyLsbIsSquare(a: Bitboard)
    requires a.Any()
    ensures OnlyLsb(a).IsSquare()
  {
    hide OnlyLsb, IsSingle, Lsb;
    OnlyLsbIs(a);
    LsbIsSingle(a.word);
  }

  lemma OnlyLsbIsInside(a: Bitboard)
    requires a.Any()
    ensures OnlyLsb(a).Meets(a)
  {
    hide OnlyLsb, Meet, Lsb;
    OnlyLsbIs(a);
    LsbIsInside(a.word);
  }

  lemma OrHas(a: Bitboard, b: Bitboard)
    ensures forall s :: Has(a.Or(b), s) <==> Has(a, s) || Has(b, s)
  {
    hide Bit, Bitboard.Meets, Bitboard.Or;
    forall s: Square
      ensures Has(a.Or(b), s) <==> Has(a, s) || Has(b, s)
    {
      MeetsOr(Bit(s), a, b);
    }
  }

  lemma AndHas(a: Bitboard, b: Bitboard)
    ensures forall s :: Has(a.And(b), s) <==> Has(a, s) && Has(b, s)
  {
    hide Bit, Bitboard.Meets, Bitboard.And, Bitboard.IsSquare;
    forall s: Square | OnBoard(s)
      ensures Has(a.And(b), s) <==> Has(a, s) && Has(b, s)
    {
      BitIsSquare(s);
      MeetsAnd(Bit(s), a, b);
    }
  }

  lemma XorHas(a: Bitboard, b: Bitboard)
    ensures forall s :: Has(a.Xor(b), s) <==> Has(a, s) != Has(b, s)
  {
    hide Bit, Bitboard.Meets, Bitboard.Xor, Bitboard.IsSquare;
    forall s: Square | OnBoard(s)
      ensures Has(a.Xor(b), s) <==> Has(a, s) != Has(b, s)
    {
      BitIsSquare(s);
      MeetsXor(Bit(s), a, b);
    }
  }

  lemma NotHas(a: Bitboard)
    ensures forall s :: Has(a.Not(), s) <==> OnBoard(s) && !Has(a, s)
  {
    hide Bit, Bitboard.Meets, Bitboard.Not, Bitboard.IsSquare;
    forall s: Square | OnBoard(s)
      ensures Has(a.Not(), s) <==> !Has(a, s)
    {
      BitIsSquare(s);
      MeetsNot(Bit(s), a);
    }
  }

  lemma BitIsSquare(s: Square)
    requires OnBoard(s)
    ensures Bit(s).IsSquare() && Bit(s).Any()
  {
    BitAtIsSingle(Index(s));
  }

  // is_square: a board is one bit exactly when it stands for a square.
  lemma IsSquareMeaning(b: Bitboard)
    ensures b.IsSquare() <==> exists s :: OnBoard(s) && b == Bit(s)
  {
    if b.IsSquare() {
      BitOfSquareOf(b);
    }
    if s: Square :| OnBoard(s) && b == Bit(s) {
      BitIsSquare(s);
    }
  }

  function SquareIndex(b: Bitboard): int {
    HighestBit(b.word)
  }

  method SquareIdx(square: Bitboard) returns (res: int)
    ensures res == SquareIndex(square)
  {
    res := -1;
    var rest := square.word;
    while rest != 0
      invariant res + HighestBit(rest) == HighestBit(square.word) - 1
      decreases rest
    {
      Halving(rest);
      rest := rest >> 1;
      res := res + 1;
    }
  }

  function RankIdx(b: Bitboard): int
    requires b.Any()
  {
    SquareIndex(b) / 8
  }

  function FileIdx(b: Bitboard): int
    requires b.Any()
  {
    7 - SquareIndex(b) % 8
  }

  // The coordinates of a single-bit board.
  function SquareOf(b: Bitboard): Square {
    if b.Any() then Square(FileIdx(b), RankIdx(b)) else Square(-1, -1)
  }

  lemma SquareOfBit(s: Square)
    requires OnBoard(s)
    ensures SquareOf(Bit(s)) == s
  {
    BitIsSquare(s);
    HighestBitOfBitAt(Index(s));
  }

  lemma BitOfSquareOf(b: Bitboard)
    requires b.IsSquare()
    ensures OnBoard(SquareOf(b)) && Bit(SquareOf(b)) == b
  {
    SingleIsBitAt(b.word);
  }

  // The layout: rank and file are recovered from the word, a8 is the most significant bit and h1 the least.
  lemma LayoutMeaning(file: int, rank: int)
    requires 0 <= file < 8 && 0 <= rank < 8
    ensures SquareOf(CoordinatesToSquare(file, rank)) == Square(file, rank)
    ensures CoordinatesToSquare(0, 7).word == 0x8000_0000_0000_0000 && CoordinatesToSquare(7, 0).word == 1
  {
    hide Bit;
    SquareOfBit(Square(file, rank));
    HighBits();
  }

  lemma HasBit(s: Square)
    requires OnBoard(s)
    ensures forall t :: Has(Bit(s), t) <==> s == t
  {
    hide Bit, Meet, IsSingle;
    forall t: Square | OnBoard(t)
      ensures Has(Bit(s), t) <==> s == t
    {
      BitIsSquare(s);
      BitIsSquare(t);
      SinglesMeet(Bit(t).word, Bit(s).word);
      SquareOfBit(s);
      SquareOfBit(t);
    }
  }

  lemma HasIsOnBoard(bb: Bitboard)
    ensures forall s :: Has(bb, s) ==> OnBoard(s)
  {
  }

  lemma EmptyHas()
    ensures forall s :: !Has(EMPTY, s)
    ensures Squares(EMPTY) == {}
  {
  }

  // a & b is nonzero exactly when the two boards share a square.
  lemma MeetsMeaning(a: Bitboard, b: Bitboard)
    ensures a.Meets(b) <==> exists s :: Has(a, s) && Has(b, s)
  {
    hide Bit, Has, Bitboard.Meets, Bitboard.And;
    AndHas(a, b);
    MeetsIsAny(a, b);
    if a.Meets(b) {
      var low := SplitLowest(a.And(b));
      assert Has(a, low);
    } else {
      EmptyHas();
      NothingLeft(a.And(b));
    }
  }

  lemma MeetsIsAny(a: Bitboard, b: Bitboard)
    ensures a.Meets(b) <==> a.And(b).Any()
  {
    hide Bitboard.Meets, Bitboard.And, Meet;
    MeetsIsMeet(a, b);
    AndIsAnd(a, b);
    MeetIsNonZero(a.word, b.word);
  }

  // A word is determined by its squares.
  lemma Extensional(a: Bitboard, b: Bitboard)
    requires forall s :: Has(a, s) <==> Has(b, s)
    ensures a == b
  {
    hide Has, Bitboard.Xor, Bitboard.Any;
    XorHas(a, b);
    if a.Xor(b).Any() {
      var low := SplitLowest(a.Xor(b));
    }
    NoDifference(a, b);
  }

  lemma NoDifference(a: Bitboard, b: Bitboard)
    ensures !a.Xor(b).Any() ==> a == b
  {
  }

  // Testing a word against the bit of a square, in either order.
  lemma MeetsSquare(bb: Bitboard, s: Square)
    ensures Bit(s).Meets(bb) <==> Has(bb, s)
    ensures bb.Meets(Bit(s)) <==> Has(bb, s)
  {
    hide Meet, BitAt;
    MeetSym(bb.word, Bit(s).word);
    if !OnBoard(s) {
      ZeroMeetsNothing(bb.word);
    }
  }

  lemma ZeroMeetsNothing(w: Word)
    ensures !Meet(0, w)
  {
  }

  lemma MeetIsNonZero(a: Word, b: Word)
    ensures Meet(a, b) <==> a & b != 0
  {
  }

  // --- Enumerating and counting bits ---------------------------------------------------------------------

  // The lowest set bit stands for the occupied square of least index, and clearing it removes that square.
  lemma SplitLowest(bb: Bitboard) returns (low: Square)
    requires bb.Any()
    ensures Has(bb, low) && Bit(low) == OnlyLsb(bb)
    ensures forall s :: Has(bb.LsbCleared(), s) <==> Has(bb, s) && s != low
    ensures forall s :: Has(bb, s) ==> Index(low) <= Index(s)
  {
    hide Bit, Bitboard.Meets, Bitboard.Any, Bitboard.IsSquare, Bitboard.LsbCleared, OnlyLsb, SquareOf;
    OnlyLsbIsSquare(bb);
    OnlyLsbIsInside(bb);
    BitOfSquareOf(OnlyLsb(bb));
    low := SquareOf(OnlyLsb(bb));
    forall s: Square | OnBoard(s)
      ensures Has(bb.LsbCleared(), s) <==> Has(bb, s) && s != low
      ensures Has(bb, s) ==> Index(low) <= Index(s)
    {
      BitIsSquare(s);
      SquareOfBit(s);
      MeetsLsbCleared(Bit(s), bb);
      if Has(bb, s) {
        LeastIndex(bb, low, s);
      }
    }
  }

  lemma LeastIndex(bb: Bitboard, low: Square, s: Square)
    requires bb.Any() && OnBoard(low) && Bit(low) == OnlyLsb(bb) && Has(bb, s)
    ensures Index(low) <= Index(s)
  {
    hide Bit, Meet, IsSingle, OnlyLsb, Lsb, BitAt, Bitboard.Any, Bitboard.IsSquare;
    BitIsSquare(s);
    OnlyLsbIs(bb);
    WordOfBit(s);
    WordOfBit(low);
    NotBelowLsb(bb, Bit(s));
    if Index(s) < Index(low) {
      BitAtMonotonic(Index(s), Index(low));
    }
  }

  lemma NotBelowLsb(bb: Bitboard, x: Bitboard)
    requires bb.Any() && x.IsSquare() && x.Meets(bb)
    ensures !(x.word < Lsb(bb.word))
  {
    hide Meet, IsSingle, Lsb;
    LsbIsLeast(bb.word, x.word);
  }

  lemma WordOfBit(s: Square)
    requires OnBoard(s)
    ensures Bit(s).word == BitAt(Index(s))
  {
  }

  // `squares` lists some squares in the order of their indices, all below those of `rest`.
  ghost predicate Ascending(squares: seq<Square>, rest: Bitboard) {
    && (forall i :: 0 <= i < |squares| ==> OnBoard(squares[i]))
    && (forall i, j :: 0 <= i < j < |squares| ==> Index(squares[i]) < Index(squares[j]))
    && (forall i, s :: 0 <= i < |squares| && Has(rest, s) ==> Index(squares[i]) < Index(s))
  }

  lemma AscendingStep(squares: seq<Square>, rest: Bitboard, low: Square)
    requires rest.Any() && Ascending(squares, rest) && Has(rest, low)
    requires forall s :: Has(rest.LsbCleared(), s) <==> Has(rest, s) && s != low
    requires forall s :: Has(rest, s) ==> Index(low) <= Index(s)
    ensures Ascending(squares + [low], rest.LsbCleared())
  {
    hide Bit, Bitboard.Meets, Bitboard.Any, Bitboard.LsbCleared;
    forall i, s | 0 <= i < |squares + [low]| && Has(rest.LsbCleared(), s)
      ensures Index((squares + [low])[i]) < Index(s)
    {
      if i == |squares| {
        SquareOfBit(s);
        SquareOfBit(low);
        assert Has(rest, s) && s != low;
      }
    }
  }

  // bitboard_split yields every set bit once, lowest first.
  method BitboardSplit(bb: Bitboard) returns (res: seq<Bitboard>, ghost squares: seq<Square>)
    ensures |squares| == |res| == |Squares(bb)| && NoDuplicates(squares)
    ensures forall i :: 0 <= i < |res| ==> OnBoard(squares[i]) && res[i] == Bit(squares[i])
    ensures forall s :: s in squares <==> Has(bb, s)
    ensures forall i, j :: 0 <= i < j < |res| ==> Index(squares[i]) < Index(squares[j])
    ensures forall s :: OnBoard(s) ==> (Bit(s) in res <==> Has(bb, s))
  {
    hide Bit, Has, Bitboard.Any, Bitboard.Xor, Bitboard.LsbCleared, Index;
    HasIsOnBoard(bb);
    res, squares := [], [];
    var rest := bb;
    while rest.Any()
      invariant |squares| == |res| && Ascending(squares, rest)
      invariant forall i :: 0 <= i < |res| ==> res[i] == Bit(squares[i])
      invariant forall s :: Has(bb, s) <==> s in squares || Has(rest, s)
      decreases |Squares(rest)|
    {
      var bbWithLsbCleared := rest.LsbCleared();
      var bbWithOnlyLsb := rest.Xor(bbWithLsbCleared);
      ghost var low := SplitLowest(rest);
      HasIsOnBoard(rest);
      AscendingStep(squares, rest, low);
      assert Squares(rest) == Squares(bbWithLsbCleared) + {low};
      res := res + [bbWithOnlyLsb];
      squares := squares + [low];
      rest := bbWithLsbCleared;
    }
    NothingLeft(rest);
    HasIsOnBoard(bb);
    assert forall s :: s in squares <==> s in Squares(bb);
    SetOfSequenceSize(squares, Squares(bb));
    SplitContains(bb, res, squares);
  }

  lemma SplitContains(bb: Bitboard, res: seq<Bitboard>, squares: seq<Square>)
    requires |res| == |squares| && forall i :: 0 <= i < |res| ==> OnBoard(squares[i]) && res[i] == Bit(squares[i])
    requires forall s :: s in squares <==> Has(bb, s)
    ensures forall s :: OnBoard(s) ==> (Bit(s) in res <==> Has(bb, s))
  {
    hide Bit, Has;
    forall s | OnBoard(s)
      ensures Bit(s) in res <==> Has(bb, s)
    {
      if i :| 0 <= i < |res| && res[i] == Bit(s) {
        SquareOfBit(s);
        SquareOfBit(squares[i]);
      }
      if i :| 0 <= i < |squares| && squares[i] == s {
        assert res[i] == Bit(s);
      }
    }
  }

  lemma NothingLeft(bb: Bitboard)
    requires !bb.Any()
    ensures bb == EMPTY && forall s :: !Has(bb, s)
  {
    EmptyHas();
  }

  lemma {:induction false} SetOfSequenceSize<T>(xs: seq<T>, s: set<T>)
    requires NoDuplicates(xs) && forall x :: x in xs <==> x in s
    ensures |xs| == |s|
  {
    if xs != [] {
      var last := |xs| - 1;
      assert forall x :: x in xs <==> x in xs[..last] || x == xs[last];
      SetOfSequenceSize(xs[..last], s - {xs[last]});
    } else {
      assert s == {};
    }
  }

  method PopCount(bb: Bitboard) returns (res: int)
    ensures res == |Squares(bb)|
  {
    hide Bit, Has, Bitboard.Any, Bitboard.LsbCleared;
    res := 0;
    var rest := bb;
    while rest.Any()
      invariant res + |Squares(rest)| == |Squares(bb)|
      decreases |Squares(rest)|
    {
      ghost var low := SplitLowest(rest);
      HasIsOnBoard(rest);
      assert Squares(rest) == Squares(rest.LsbCleared()) + {low};
      rest := rest.LsbCleared();
      res := res + 1;
    }
    NothingLeft(rest);
    EmptyHas();
  }

  // --- Direction functions ------------------------------------------------------------------------------

  function NorthOf(b: Bitboard): Bitboard
    requires b.IsSquare()
  {
    Bitboard(b.word << 8)
  }

  function SouthOf(b: Bitboard): Bitboard
    requires b.IsSquare()
  {
    Bitboard(b.word >> 8)
  }

  function EastOf(b: Bitboard): Bitboard
    requires b.IsSquare()
  {
    if FileIdx(b) == 7 then EMPTY else Bitboard(b.word >> 1)
  }

  function WestOf(b: Bitboard): Bitboard
    requires b.IsSquare()
  {
    if FileIdx(b) == 0 then EMPTY else Bitboard(b.word << 1)
  }

  function NortheastOf(b: Bitboard): Bitboard
    requires b.IsSquare()
  {
    VerticalKeepsSingle(b.word);
    var north := NorthOf(b);
    if north.Any() then EastOf(north) else EMPTY
  }

  function NorthwestOf(b: Bitboard): Bitboard
    requires b.IsSquare()
  {
    VerticalKeepsSingle(b.word);
    var north := NorthOf(b);
    if north.Any() then WestOf(north) else EMPTY
  }

  function SoutheastOf(b: Bitboard): Bitboard
    requires b.IsSquare()
  {
    VerticalKeepsSingle(b.word);
    var south := SouthOf(b);
    if south.Any() then EastOf(south) else EMPTY
  }

  function SouthwestOf(b: Bitboard): Bitboard
    requires b.IsSquare()
  {
    VerticalKeepsSingle(b.word);
    var south := SouthOf(b);
    if south.Any() then WestOf(south) else EMPTY
  }

  function StepOf(d: Direction, b: Bitboard): Bitboard
    requires b.IsSquare()
  {
    match d
    case North => NorthOf(b)
    case South => SouthOf(b)
    case East => EastOf(b)
    case West => WestOf(b)
    case Northeast => NortheastOf(b)
    case Northwest => NorthwestOf(b)
    case Southeast => SoutheastOf(b)
    case Southwest => SouthwestOf(b)
  }

  // The direction functions in coordinates: file 0 is the a-file, rank 0 the first rank.
  lemma DirectionMeaning(file: int, rank: int)
    requires 0 <= file < 8 && 0 <= rank < 8
    ensures var b := CoordinatesToSquare(file, rank);
            && b.IsSquare()
            && NorthOf(b) == Bit(Square(file, rank + 1)) && SouthOf(b) == Bit(Square(file, rank - 1))
            && EastOf(b) == Bit(Square(file + 1, rank)) && WestOf(b) == Bit(Square(file - 1, rank))
            && NortheastOf(b) == Bit(Square(file + 1, rank + 1)) && NorthwestOf(b) == Bit(Square(file - 1, rank + 1))
            && SoutheastOf(b) == Bit(Square(file + 1, rank - 1)) && SouthwestOf(b) == Bit(Square(file - 1, rank - 1))
  {
    hide Bit, Bitboard.IsSquare, NorthOf, SouthOf, EastOf, WestOf, NortheastOf, NorthwestOf, SoutheastOf, SouthwestOf;
    forall d: Direction { StepIsAlong(d, Square(file, rank)); }
    BitIsSquare(Square(file, rank));
    StepNames(Bit(Square(file, rank)));
  }

  lemma StepNames(b: Bitboard)
    requires b.IsSquare()
    ensures StepOf(North, b) == NorthOf(b) && StepOf(South, b) == SouthOf(b)
    ensures StepOf(East, b) == EastOf(b) && StepOf(West, b) == WestOf(b)
    ensures StepOf(Northeast, b) == NortheastOf(b) && StepOf(Northwest, b) == NorthwestOf(b)
    ensures StepOf(Southeast, b) == SoutheastOf(b) && StepOf(Southwest, b) == SouthwestOf(b)
  {
  }

  // Every direction function is a coordinate step: 0 off the board and no wrap-around.
  lemma StepIsAlong(d: Direction, s: Square)
    requires OnBoard(s)
    ensures Bit(s).IsSquare() && StepOf(d, Bit(s)) == Bit(Along(s, d, 1))
    ensures Bit(Along(s, d, 1)).Any() <==> OnBoard(Along(s, d, 1))
  {
    hide BitAt, HighestBit, IsSingle, Bit;
    var north, south := Along(s, North, 1), Along(s, South, 1);
    VerticalStep(s);
    HorizontalStep(s);
    if OnBoard(north) {
      HorizontalStep(north);
    }
    if OnBoard(south) {
      HorizontalStep(south);
    }
    AnyBit(north);
    AnyBit(south);
    AnyBit(Along(s, d, 1));
  }

  lemma AnyBit(s: Square)
    ensures Bit(s).Any() <==> OnBoard(s)
    ensures !OnBoard(s) ==> Bit(s) == EMPTY
  {
    if OnBoard(s) {
      BitIsSquare(s);
    }
  }

  lemma VerticalStep(s: Square)
    requires OnBoard(s)
    ensures Bit(s).IsSquare()
    ensures NorthOf(Bit(s)) == Bit(Along(s, North, 1))
    ensures SouthOf(Bit(s)) == Bit(Along(s, South, 1))
  {
    hide BitAt;
    BitIsSquare(s);
    ByteUp(Index(s));
    ByteDown(Index(s));
  }

  lemma HorizontalStep(s: Square)
    requires OnBoard(s)
    ensures Bit(s).IsSquare()
    ensures EastOf(Bit(s)) == Bit(Along(s, East, 1))
    ensures WestOf(Bit(s)) == Bit(Along(s, West, 1))
  {
    hide Bit, EastOf, WestOf, Bitboard.IsSquare;
    BitIsSquare(s);
    EastStep(s);
    WestStep(s);
  }

  lemma EastStep(s: Square)
    requires OnBoard(s) && Bit(s).IsSquare()
    ensures EastOf(Bit(s)) == Bit(Square(s.file + 1, s.rank))
  {
    hide BitAt, SquareIndex;
    FileOfBit(s);
    if s.file < 7 {
      HalvedBit(Index(s));
    }
  }

  lemma WestStep(s: Square)
    requires OnBoard(s) && Bit(s).IsSquare()
    ensures WestOf(Bit(s)) == Bit(Square(s.file - 1, s.rank))
  {
    hide BitAt, SquareIndex;
    FileOfBit(s);
    if s.file > 0 {
      DoubledBit(Index(s));
    }
  }

  lemma FileOfBit(s: Square)
    requires OnBoard(s) && Bit(s).Any()
    ensures FileIdx(Bit(s)) == s.file
  {
    hide Bit, FileIdx, RankIdx, Bitboard.Any;
    SquareOfBit(s);
  }

  lemma HalvedBit(i: nat)
    requires 0 < i < 64
    ensures BitAt(i) >> 1 == BitAt(i - 1)
  {
    BitAtIsSingle(i);
  }

  // --- Rank masks -----------------------------------------------------------------------------------------

  // The squares of a rank on the first `files` files, joined as src/board.cc:25-36 does.
  function MaskUpTo(files: nat, rank: int): Bitboard
    requires 1 <= files <= 8 && 0 <= rank < 8
  {
    if files == 1 then CoordinatesToSquare(0, rank)
    else MaskUpTo(files - 1, rank).Or(CoordinatesToSquare(files - 1, rank))
  }

  function RankMask(rank: int): Bitboard
    requires 0 <= rank < 8
  {
    MaskUpTo(8, rank)
  }

  lemma {:induction false} MaskHas(files: nat, rank: int)
    requires 1 <= files <= 8 && 0 <= rank < 8
    ensures forall s :: Has(MaskUpTo(files, rank), s) <==> OnBoard(s) && s.rank == rank && s.file < files
  {
    hide Bit, CoordinatesToSquare, Bitboard.Meets, Bitboard.Or;
    HasBit(Square(files - 1, rank));
    if files > 1 {
      MaskHas(files - 1, rank);
      OrHas(MaskUpTo(files - 1, rank), CoordinatesToSquare(files - 1, rank));
    }
  }
}
