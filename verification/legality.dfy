/** legal_moves, legal_capture_moves and the castling moves (src/board.cc:591-642, 1259-1277). */
module Legality {
  import opened Geometry
  import opened Bitboards
  import opened Chess
  import opened Positions
  import opened Pieces
  import opened Attacking
  import opened Boards
  import opened Invariant

  lemma LegalPliesAreLegal(g: Game, y: Ply)
    requires Valid(g)
    ensures y in LegalPlies(g) <==> Legal(g, y)
  {
    hide Consistent, InCheck, Pseudolegal, CastlesKingside, CastlesQueenside, OnBoard;
    if Legal(g, y) {
      PlyFacts(g, y);
      InAllSquares(y.src);
      InAllSquares(y.dst);
    }
  }

  lemma InAllSquares(s: Square)
    requires OnBoard(s)
    ensures s in AllSquares()
  {
  }

  // --- Castling moves ------------------------------------------------------------------------------------

  function CastleKingsideMove(color: Color, board: Position): Move {
    if color == White then Move(StrToSquare("e1"), StrToSquare("g1"), King, CastleKingside, board)
    else Move(StrToSquare("e8"), StrToSquare("g8"), King, CastleKingside, board)
  }

  function CastleQueensideMove(color: Color, board: Position): Move {
    if color == White then Move(StrToSquare("e1"), StrToSquare("c1"), King, CastleQueenside, board)
    else Move(StrToSquare("e8"), StrToSquare("c8"), King, CastleQueenside, board)
  }

  ghost function CastlingPlies(g: Game): iset<Ply> {
    iset y | CastlesKingside(g, y) || CastlesQueenside(g, y)
  }

  method AppendCastlingMoves(p: Position, ghost g: Game, before: seq<Move>) returns (res: seq<Move>)
    requires p.StandsFor(g) && Consistent(g)
    ensures Appends(p, g.men, before, res, CastlingPlies(g))
  {
    hide Appends, Consistent, CastlesKingside, CastlesQueenside, Position.StandsFor, CastleKingsideMove,
         CastleQueensideMove;
    CastlingMovesEncode(p, g);
    assert p.SideToMove() == g.turn by { TurnOf(p, g); }
    ghost var short, long := KingsidePly(g.turn), QueensidePly(g.turn);
    res := before;
    var kingside := IsCastleKingsideLegal(p, g);
    if kingside {
      res := res + [CastleKingsideMove(p.SideToMove(), p)];
    }
    ghost var half := res;
    var queenside := IsCastleQueensideLegal(p, g);
    if queenside {
      res := res + [CastleQueensideMove(p.SideToMove(), p)];
    }
    AppendsWhen(p, g.men, before, kingside, short);
    AppendsWhen(p, g.men, half, queenside, long);
    AppendsMore(p, g.men, before, half, res, When(kingside, short), When(queenside, long));
    CastlingIsEither(g);
  }

  lemma TurnOf(p: Position, g: Game)
    requires p.StandsFor(g)
    ensures p.SideToMove() == g.turn
  {
  }

  lemma CastlingMovesEncode(p: Position, g: Game)
    ensures CastlesKingside(g, KingsidePly(g.turn)) ==>
            CastleKingsideMove(g.turn, p) == Encode(p, g.men, KingsidePly(g.turn))
    ensures CastlesQueenside(g, QueensidePly(g.turn)) ==>
            CastleQueensideMove(g.turn, p) == Encode(p, g.men, QueensidePly(g.turn))
  {
    hide Bit, Attacked;
  }

  lemma CastlingIsEither(g: Game)
    ensures CastlingPlies(g) ==
            When(CastlesKingside(g, KingsidePly(g.turn)), KingsidePly(g.turn)) +
            When(CastlesQueenside(g, QueensidePly(g.turn)), QueensidePly(g.turn))
  {
    hide Attacked;
  }

  // --- The legality filter ---------------------------------------------------------------------------------

  method IsPseudolegalMoveLegal(p: Position, move: Move, ghost g: Game, ghost y: Ply) returns (res: bool)
    requires p.StandsFor(g) && Valid(g)
    requires Pseudolegal(g.men, g.ep, g.turn, y) && move == Encode(p, g.men, y)
    ensures y.src in g.men && (res <==> !InCheck(MenAfter(g.men, y), g.turn))
  {
    hide InCheck, Pseudolegal, Position.StandsFor, Consistent, MenAfter, CastlesKingside, CastlesQueenside, Bit;
    PlyFacts(g, y);
    AfterIsConsistent(g, y);
    var thisCopy := new Board(p);
    var sideToMove := if thisCopy.isWhitesMove then White else Black;
    TurnOf(p, g);
    thisCopy.DoMove(move, g, y);
    var attacked := IsKingAttacked(thisCopy.Value(), After(g, y), sideToMove);
    return !attacked;
  }

  ghost predicate KeepsKingSafe(g: Game, y: Ply) {
    y.src in g.men && !InCheck(MenAfter(g.men, y), g.turn)
  }

  ghost function SafePlies(g: Game): iset<Ply> {
    iset y | Pseudolegal(g.men, g.ep, g.turn, y) && KeepsKingSafe(g, y)
  }

  // legal_moves returns every legal move of the rules of chess, once, and nothing else.
  method LegalMoves(p: Position, ghost g: Game) returns (res: seq<Move>)
    requires p.StandsFor(g) && Valid(g)
    ensures Lists(p, g.men, res, iset y | y in LegalPlies(g))
  {
    hide Appends, Lists, InCheck, Pseudolegal, Position.StandsFor, Consistent, KeepsKingSafe, PlyOf, Encode;
    TurnOf(p, g);
    var pseudolegal := PseudolegalMoves(p, g, p.SideToMove());
    ghost var all := PseudolegalPlies(g.men, g.ep, g.turn);
    res := [];
    for i := 0 to |pseudolegal|
      invariant forall m :: m in res <==> m in pseudolegal[..i] && KeepsKingSafe(g, PlyOf(m))
      invariant NoDuplicates(res)
    {
      ghost var y := PlyOf(pseudolegal[i]);
      ListsMember(p, g.men, pseudolegal, all, i);
      var legal := IsPseudolegalMoveLegal(p, pseudolegal[i], g, y);
      assert legal <==> KeepsKingSafe(g, y) by { SafeMeaning(g, y); }
      assert pseudolegal[..i + 1] == pseudolegal[..i] + [pseudolegal[i]];
      if legal {
        res := res + [pseudolegal[i]];
      }
    }
    assert pseudolegal[..|pseudolegal|] == pseudolegal;
    ListsFiltered(p, g.men, pseudolegal, res, all, SafePlies(g));
    AppendsFromNothing(p, g.men, res, SafePlies(g));
    var withCastling := AppendCastlingMoves(p, g, res);
    SafeIsNotCastling(g);
    AppendsMore(p, g.men, [], res, withCastling, SafePlies(g), CastlingPlies(g));
    res := withCastling;
    LegalIsSafeOrCastling(g);
    ListsFromNothing(p, g.men, res, SafePlies(g) + CastlingPlies(g));
  }

  lemma SafeMeaning(g: Game, y: Ply)
    requires y.src in g.men
    ensures KeepsKingSafe(g, y) <==> !InCheck(MenAfter(g.men, y), g.turn)
  {
  }

  // The i-th of the listed moves: it differs from those before it.
  lemma ListsMember(p: Position, men: Men, moves: seq<Move>, S: iset<Ply>, i: nat)
    requires Lists(p, men, moves, S) && i < |moves|
    ensures PlyOf(moves[i]) in S && moves[i] == Encode(p, men, PlyOf(moves[i]))
    ensures moves[i] !in moves[..i]
  {
    assert moves[i] in moves;
  }

  lemma ListsFiltered(p: Position, men: Men, moves: seq<Move>, kept: seq<Move>, S: iset<Ply>, T: iset<Ply>)
    requires Lists(p, men, moves, S) && NoDuplicates(kept) && T <= S
    requires forall m :: m in kept ==> m in moves
    requires forall m :: m in moves && PlyOf(m) in S ==> (m in kept <==> PlyOf(m) in T)
    ensures Lists(p, men, kept, T)
  {
    hide PlyOf, Encode;
    forall y | y in T
      ensures Encode(p, men, y) in kept
    {
      PlyOfEncode(p, men, y);
      assert Encode(p, men, y) in moves;
    }
  }

  lemma AppendsFromNothing(p: Position, men: Men, res: seq<Move>, S: iset<Ply>)
    requires Lists(p, men, res, S)
    ensures Appends(p, men, [], res, S)
  {
    assert res[0..] == res;
  }

  lemma SafeIsNotCastling(g: Game)
    ensures SafePlies(g) !! CastlingPlies(g)
  {
    hide InCheck, Attacked, Attacks;
  }

  lemma LegalIsSafeOrCastling(g: Game)
    requires Valid(g)
    ensures (iset y | y in LegalPlies(g)) == SafePlies(g) + CastlingPlies(g)
  {
    hide Valid, Pseudolegal, CastlesKingside, CastlesQueenside, InCheck, LegalPlies;
    forall y: Ply
      ensures y in LegalPlies(g) <==> y in SafePlies(g) || y in CastlingPlies(g)
    {
      LegalPliesAreLegal(g, y);
      if Pseudolegal(g.men, g.ep, g.turn, y) {
        PlyFacts(g, y);
      }
    }
  }

  // --- Captures --------------------------------------------------------------------------------------------

  ghost predicate Captures(g: Game, y: Ply) {
    y in LegalPlies(g) && Friendly(g.men, Other(g.turn), y.dst)
  }

  lemma CapturesMeaning(g: Game, y: Ply)
    ensures Captures(g, y) <==> y in LegalPlies(g) && y.dst in g.men && g.men[y.dst].color != g.turn
  {
    hide LegalPlies;
  }

  method IsCaptureMove(p: Position, move: Move, ghost g: Game, ghost y: Ply) returns (res: bool)
    requires p.StandsFor(g) && move.dstSquare == Bit(y.dst)
    ensures res <==> Friendly(g.men, Other(g.turn), y.dst)
  {
    hide Bit, Has, Bitboard.Meets, Position.Enemies;
    MasksShow(p, g.men, g.turn);
    MeetsSquare(p.Enemies(g.turn), y.dst);
    return move.dstSquare.Meets(p.Enemies(p.SideToMove()));
  }

  method LegalCaptureMoves(p: Position, ghost g: Game) returns (res: seq<Move>)
    requires p.StandsFor(g) && Valid(g)
    ensures Lists(p, g.men, res, iset y | Captures(g, y))
  {
    hide Lists, Valid, Position.StandsFor, LegalPlies, PlyOf, Friendly, Bit;
    var legal := LegalMoves(p, g);
    ghost var all := iset y | y in LegalPlies(g);
    res := [];
    for i := 0 to |legal|
      invariant forall m :: m in res <==> m in legal[..i] && Friendly(g.men, Other(g.turn), PlyOf(m).dst)
      invariant NoDuplicates(res)
    {
      ghost var y := PlyOf(legal[i]);
      ListsMember(p, g.men, legal, all, i);
      var capture := IsCaptureMove(p, legal[i], g, y);
      assert legal[..i + 1] == legal[..i] + [legal[i]];
      if capture {
        res := res + [legal[i]];
      }
    }
    assert legal[..|legal|] == legal;
    ListsFiltered(p, g.men, legal, res, all, iset y | Captures(g, y));
  }
}
