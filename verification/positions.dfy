/** The data of a Board (src/board.h:134-160) as a value, the Move that carries such a value
    (src/board.h:255-267), and what it means for them to stand for a game and a ply of chess. */
module Positions {
  import opened Geometry
  import opened Wrappers
  import opened Bitboards
  import opened Chess

  // The twelve bitboards.
  datatype Placement = Placement(
    whitePawns: Bitboard, whiteRooks: Bitboard, whiteKnights: Bitboard,
    whiteBishops: Bitboard, whiteQueens: Bitboard, whiteKing: Bitboard,
    blackPawns: Bitboard, blackRooks: Bitboard, blackKnights: Bitboard,
    blackBishops: Bitboard, blackQueens: Bitboard, blackKing: Bitboard)
  {
    function WhitePieces(): Bitboard {
      whitePawns.Or(whiteKnights).Or(whiteBishops).Or(whiteRooks).Or(whiteQueens).Or(whiteKing)
    }

    function BlackPieces(): Bitboard {
      blackPawns.Or(blackKnights).Or(blackBishops).Or(blackRooks).Or(blackQueens).Or(blackKing)
    }

    // The bitboard of a colour and piece.
    function Of(m: Man): Bitboard {
      match m
      case Man(White, Pawn) => whitePawns
      case Man(White, Rook) => whiteRooks
      case Man(White, Knight) => whiteKnights
      case Man(White, Bishop) => whiteBishops
      case Man(White, Queen) => whiteQueens
      case Man(White, King) => whiteKing
      case Man(Black, Pawn) => blackPawns
      case Man(Black, Rook) => blackRooks
      case Man(Black, Knight) => blackKnights
      case Man(Black, Bishop) => blackBishops
      case Man(Black, Queen) => blackQueens
      case Man(Black, King) => blackKing
    }

    // The bitboards show exactly these men.
    ghost predicate Shows(men: Men) {
      && (forall s :: s in men ==> OnBoard(s))
      && (forall s, m :: Has(Of(m), s) <==> s in men && men[s] == m)
    }

    // No two bitboards share a bit.
    ghost predicate Disjoint() {
      forall s, m, n :: Has(Of(m), s) && Has(Of(n), s) ==> m == n
    }
  }

  datatype Position = Position(
    placement: Placement, isWhitesMove: bool, enPassantSquare: Option<Bitboard>,
    whiteHasRightToCastleKingside: bool, whiteHasRightToCastleQueenside: bool,
    blackHasRightToCastleKingside: bool, blackHasRightToCastleQueenside: bool,
    fiftyMoveClock: int, numMoves: int)
  {
    function SideToMove(): Color {
      if isWhitesMove then White else Black
    }

    function AllPieces(): Bitboard {
      placement.WhitePieces().Or(placement.BlackPieces())
    }

    function Friends(side: Color): Bitboard {
      if side == White then placement.WhitePieces() else placement.BlackPieces()
    }

    function Enemies(side: Color): Bitboard {
      if side == White then placement.BlackPieces() else placement.WhitePieces()
    }

    function CastlingRights(): Rights {
      Rights(whiteHasRightToCastleKingside, whiteHasRightToCastleQueenside,
             blackHasRightToCastleKingside, blackHasRightToCastleQueenside)
    }

    ghost predicate Shows(men: Men) {
      placement.Shows(men)
    }

    ghost predicate StandsFor(g: Game) {
      && Shows(g.men)
      && SideToMove() == g.turn
      && EpIs(enPassantSquare, g.ep)
      && CastlingRights() == g.rights
      && fiftyMoveClock == g.clock
      && numMoves == g.number
    }
  }

  ghost predicate EpIs(b: Option<Bitboard>, ep: Option<Square>) {
    match ep
    case None => b == None
    case Some(e) => OnBoard(e) && b == Some(Bit(e))
  }

  datatype Move = Move(srcSquare: Bitboard, dstSquare: Bitboard, pieceMoving: Piece, moveType: MoveType,
                       boardState: Position)

  function PieceOn(men: Men, s: Square): Piece {
    if s in men then men[s].piece else Pawn
  }

  // The Move by which the program writes the ply y of a board of men.
  function Encode(p: Position, men: Men, y: Ply): Move {
    Move(Bit(y.src), Bit(y.dst), PieceOn(men, y.src), y.kind, p)
  }

  function PlyOf(m: Move): Ply {
    Ply(SquareOf(m.srcSquare), SquareOf(m.dstSquare), m.moveType)
  }

  lemma PlyOfEncode(p: Position, men: Men, y: Ply)
    requires OnBoard(y.src) && OnBoard(y.dst)
    ensures PlyOf(Encode(p, men, y)) == y
  {
    SquareOfBit(y.src);
    SquareOfBit(y.dst);
  }

  // --- Masks ------------------------------------------------------------------------------------------

  // Which squares the masks of src/board.cc:180-197 contain.
  lemma MasksShow(p: Position, men: Men, side: Color)
    requires p.Shows(men)
    ensures forall s :: Has(p.Friends(side), s) <==> Friendly(men, side, s)
    ensures forall s :: Has(p.Enemies(side), s) <==> Friendly(men, Other(side), s)
    ensures forall s :: Has(p.AllPieces(), s) <==> s in men
  {
    hide Has, Placement.WhitePieces, Placement.BlackPieces, Placement.Of;
    WhiteMask(p.placement, men);
    BlackMask(p.placement, men);
    OrHas(p.placement.WhitePieces(), p.placement.BlackPieces());
  }

  lemma SixBoards(a: Bitboard, b: Bitboard, c: Bitboard, d: Bitboard, e: Bitboard, f: Bitboard)
    ensures forall s :: Has(a.Or(b).Or(c).Or(d).Or(e).Or(f), s) <==>
                        Has(a, s) || Has(b, s) || Has(c, s) || Has(d, s) || Has(e, s) || Has(f, s)
  {
    hide Has, Bitboard.Or;
    OrHas(a, b);
    OrHas(a.Or(b), c);
    OrHas(a.Or(b).Or(c), d);
    OrHas(a.Or(b).Or(c).Or(d), e);
    OrHas(a.Or(b).Or(c).Or(d).Or(e), f);
  }

  lemma WhiteMask(p: Placement, men: Men)
    requires p.Shows(men)
    ensures forall s :: Has(p.WhitePieces(), s) <==> Friendly(men, White, s)
  {
    hide Has, Bitboard.Or;
    SixBoards(p.whitePawns, p.whiteKnights, p.whiteBishops, p.whiteRooks, p.whiteQueens, p.whiteKing);
    ColourMask(p, men, White);
  }

  lemma BlackMask(p: Placement, men: Men)
    requires p.Shows(men)
    ensures forall s :: Has(p.BlackPieces(), s) <==> Friendly(men, Black, s)
  {
    hide Has, Bitboard.Or;
    SixBoards(p.blackPawns, p.blackKnights, p.blackBishops, p.blackRooks, p.blackQueens, p.blackKing);
    ColourMask(p, men, Black);
  }

  lemma ColourMask(p: Placement, men: Men, c: Color)
    requires p.Shows(men)
    ensures forall s :: Friendly(men, c, s) <==>
                        Has(p.Of(Man(c, Pawn)), s) || Has(p.Of(Man(c, Knight)), s) || Has(p.Of(Man(c, Bishop)), s) ||
                        Has(p.Of(Man(c, Rook)), s) || Has(p.Of(Man(c, Queen)), s) || Has(p.Of(Man(c, King)), s)
  {
    hide Has, Placement.Of;
    forall s: Square
      ensures Friendly(men, c, s) <==>
              Has(p.Of(Man(c, Pawn)), s) || Has(p.Of(Man(c, Knight)), s) || Has(p.Of(Man(c, Bishop)), s) ||
              Has(p.Of(Man(c, Rook)), s) || Has(p.Of(Man(c, Queen)), s) || Has(p.Of(Man(c, King)), s)
    {
      if Friendly(men, c, s) {
        assert Has(p.Of(men[s]), s);
        match men[s].piece {
          case Pawn => case Rook => case Knight => case Bishop => case Queen => case King =>
        }
      }
    }
  }

  // Disjoint bitboards always show a board of men, and only one.
  lemma SomeMen(p: Placement) returns (men: Men)
    requires p.Disjoint()
    ensures p.Shows(men)
    ensures forall other :: p.Shows(other) ==> other == men
  {
    hide Has, Placement.Of;
    forall m: Man { HasIsOnBoard(p.Of(m)); }
    men := map s | s in AllSquares() && (exists m :: Has(p.Of(m), s)) :: (var m :| Has(p.Of(m), s); m);
    forall s, m
      ensures Has(p.Of(m), s) <==> s in men && men[s] == m
    {
      if Has(p.Of(m), s) {
        assert s in AllSquares();
      }
      if s in men {
        assert Has(p.Of(men[s]), s);
      }
    }
    forall other | p.Shows(other)
      ensures other == men
    {
      forall s
        ensures s in other <==> s in men
      {
        if s in other {
          assert Has(p.Of(other[s]), s);
        }
      }
      forall s | s in men
        ensures other[s] == men[s]
      {
        assert Has(p.Of(men[s]), s);
      }
    }
  }

  lemma ShownIsDisjoint(p: Placement, men: Men)
    requires p.Shows(men)
    ensures p.Disjoint()
  {
    hide Has, Placement.Of;
    forall s, m, n | Has(p.Of(m), s) && Has(p.Of(n), s)
      ensures m == n
    {
      assert men[s] == m;
    }
  }

  // --- A Board for every game ------------------------------------------------------------------------------

  // Every set of squares of the board is a bitboard.
  lemma SomeBitboard(squares: set<Square>) returns (b: Bitboard)
    requires forall s :: s in squares ==> OnBoard(s)
    ensures forall s :: Has(b, s) <==> s in squares
    decreases squares
  {
    hide Has, Bit, Bitboard.Or;
    if squares == {} {
      b := EMPTY;
      EmptyHas();
    } else {
      var s :| s in squares;
      var rest := SomeBitboard(squares - {s});
      HasBit(s);
      OrHas(rest, Bit(s));
      b := rest.Or(Bit(s));
    }
  }

  lemma SquaresOfMan(men: Men, m: Man) returns (b: Bitboard)
    requires forall s :: s in men ==> OnBoard(s)
    ensures forall s :: Has(b, s) <==> s in men && men[s] == m
  {
    hide Has;
    b := SomeBitboard(set s | s in men && men[s] == m);
  }

  // The converse of SomeMen: every board of men is shown by some twelve bitboards.
  lemma SomePlacement(men: Men) returns (p: Placement)
    requires forall s :: s in men ==> OnBoard(s)
    ensures p.Shows(men)
  {
    hide Has;
    var whitePawns := SquaresOfMan(men, Man(White, Pawn));
    var whiteKnights := SquaresOfMan(men, Man(White, Knight));
    var whiteBishops := SquaresOfMan(men, Man(White, Bishop));
    var whiteRooks := SquaresOfMan(men, Man(White, Rook));
    var whiteQueens := SquaresOfMan(men, Man(White, Queen));
    var whiteKing := SquaresOfMan(men, Man(White, King));
    var blackPawns := SquaresOfMan(men, Man(Black, Pawn));
    var blackKnights := SquaresOfMan(men, Man(Black, Knight));
    var blackBishops := SquaresOfMan(men, Man(Black, Bishop));
    var blackRooks := SquaresOfMan(men, Man(Black, Rook));
    var blackQueens := SquaresOfMan(men, Man(Black, Queen));
    var blackKing := SquaresOfMan(men, Man(Black, King));
    p := Placement(whitePawns := whitePawns, whiteKnights := whiteKnights, whiteBishops := whiteBishops,
                   whiteRooks := whiteRooks, whiteQueens := whiteQueens, whiteKing := whiteKing,
                   blackPawns := blackPawns, blackKnights := blackKnights, blackBishops := blackBishops,
                   blackRooks := blackRooks, blackQueens := blackQueens, blackKing := blackKing);
    forall s, m
      ensures Has(p.Of(m), s) <==> s in men && men[s] == m
    {
      match m {
        case Man(White, Pawn) => case Man(White, Knight) => case Man(White, Bishop) =>
        case Man(White, Rook) => case Man(White, Queen) => case Man(White, King) =>
        case Man(Black, Pawn) => case Man(Black, Knight) => case Man(Black, Bishop) =>
        case Man(Black, Rook) => case Man(Black, Queen) => case Man(Black, King) =>
      }
    }
  }

  // Every consistent game is what some Board stands for.
  lemma SomePosition(g: Game) returns (p: Position)
    requires Consistent(g)
    ensures p.StandsFor(g)
  {
    hide Placement.Shows, Bit, RightsBacked;
    var placement := SomePlacement(g.men);
    p := Position(placement, g.turn == White, if g.ep.Some? then Some(Bit(g.ep.value)) else None,
                  g.rights.whiteKingside, g.rights.whiteQueenside, g.rights.blackKingside, g.rights.blackQueenside,
                  g.clock, g.number);
  }

  // --- Lists of moves -------------------------------------------------------------------------------------

  // `moves` writes down every ply of S once and nothing else.
  ghost predicate Lists(p: Position, men: Men, moves: seq<Move>, S: iset<Ply>) {
    && (forall m :: m in moves ==> PlyOf(m) in S && m == Encode(p, men, PlyOf(m)))
    && (forall y :: y in S ==> Encode(p, men, y) in moves)
    && (forall y :: y in S ==> OnBoard(y.src) && OnBoard(y.dst))
    && NoDuplicates(moves)
  }

  lemma ListsNone(p: Position, men: Men)
    ensures Lists(p, men, [], iset{})
  {
  }

  lemma ListsOne(p: Position, men: Men, y: Ply)
    requires OnBoard(y.src) && OnBoard(y.dst)
    ensures Lists(p, men, [Encode(p, men, y)], iset{y})
  {
    PlyOfEncode(p, men, y);
  }

  lemma ListsJoin(p: Position, men: Men, a: seq<Move>, b: seq<Move>, S: iset<Ply>, T: iset<Ply>)
    requires Lists(p, men, a, S) && Lists(p, men, b, T) && S !! T
    ensures Lists(p, men, a + b, S + T)
  {
    hide Encode, PlyOf;
    forall i, j | 0 <= i < j < |a + b|
      ensures (a + b)[i] != (a + b)[j]
    {
      if i < |a| <= j {
        assert (a + b)[i] in a && (a + b)[j] in b;
      }
    }
  }

  // Pushing onto a vector: what `to` has beyond `from` lists S.
  ghost predicate Appends(p: Position, men: Men, from: seq<Move>, to: seq<Move>, S: iset<Ply>) {
    from <= to && Lists(p, men, to[|from|..], S)
  }

  lemma AppendsNothing(p: Position, men: Men, a: seq<Move>)
    ensures Appends(p, men, a, a, iset{})
  {
    ListsNone(p, men);
  }

  lemma AppendsMore(p: Position, men: Men, a: seq<Move>, b: seq<Move>, c: seq<Move>, S: iset<Ply>, T: iset<Ply>)
    requires Appends(p, men, a, b, S) && Appends(p, men, b, c, T) && S !! T
    ensures Appends(p, men, a, c, S + T)
  {
    hide Lists;
    ListsJoin(p, men, b[|a|..], c[|b|..], S, T);
    assert c[|a|..] == b[|a|..] + c[|b|..];
  }

  lemma AppendsOne(p: Position, men: Men, a: seq<Move>, y: Ply)
    requires OnBoard(y.src) && OnBoard(y.dst)
    ensures Appends(p, men, a, a + [Encode(p, men, y)], iset{y})
  {
    hide Lists;
    ListsOne(p, men, y);
    assert (a + [Encode(p, men, y)])[|a|..] == [Encode(p, men, y)];
  }
}
