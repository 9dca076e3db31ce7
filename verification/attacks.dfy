/** Pseudolegal moves, attacked squares, check and castling (src/board.cc:199-225, 533-604). */
module Attacking {
  import opened Geometry
  import opened Wrappers
  import opened Bitboards
  import opened Chess
  import opened Positions
  import opened Pieces
  import opened Pawns

  ghost function PseudolegalPlies(men: Men, ep: Option<Square>, c: Color): iset<Ply> {
    iset y | Pseudolegal(men, ep, c, y)
  }

  method PseudolegalMoves(p: Position, ghost g: Game, side: Color) returns (res: seq<Move>)
    requires p.StandsFor(g) && Consistent(g)
    ensures Lists(p, g.men, res, PseudolegalPlies(g.men, g.ep, side))
  {
    hide Appends, Bit, Has, OneKing;
    ghost var men := g.men;
    ghost var bishop, rook := PieceMoves(men, side, Bishop), PieceMoves(men, side, Rook);
    ghost var queen, king := PieceMoves(men, side, Queen), PieceMoves(men, side, King);
    ghost var pawn, knight := PawnPlies(men, g.ep, side), PieceMoves(men, side, Knight);
    var a := AppendBishopMoves(p, men, side, []);
    var b := AppendRookMoves(p, men, side, a);
    var c := AppendQueenMoves(p, men, side, b);
    var d := AppendPawnMoves(p, men, g.ep, side, c);
    var e := AppendKingMoves(p, men, side, d);
    res := AppendKnightMoves(p, men, side, e);
    DisjointPieces(men, g.ep, side);
    AppendsMore(p, men, [], a, b, bishop, rook);
    AppendsMore(p, men, [], b, c, bishop + rook, queen);
    AppendsMore(p, men, [], c, d, bishop + rook + queen, pawn);
    AppendsMore(p, men, [], d, e, bishop + rook + queen + pawn, king);
    AppendsMore(p, men, [], e, res, bishop + rook + queen + pawn + king, knight);
    AllKinds(men, g.ep, side);
    ListsFromNothing(p, men, res, PseudolegalPlies(men, g.ep, side));
  }

  lemma ListsFromNothing(p: Position, men: Men, res: seq<Move>, S: iset<Ply>)
    requires Appends(p, men, [], res, S)
    ensures Lists(p, men, res, S)
  {
    assert res[0..] == res;
  }

  lemma DisjointPieces(men: Men, ep: Option<Square>, c: Color)
    ensures forall q, r :: q != r ==> PieceMoves(men, c, q) !! PieceMoves(men, c, r)
    ensures forall q :: PieceMoves(men, c, q) !! PawnPlies(men, ep, c)
  {
  }

  lemma AllKinds(men: Men, ep: Option<Square>, c: Color)
    ensures PieceMoves(men, c, Bishop) + PieceMoves(men, c, Rook) + PieceMoves(men, c, Queen) +
            PawnPlies(men, ep, c) + PieceMoves(men, c, King) + PieceMoves(men, c, Knight) ==
            PseudolegalPlies(men, ep, c)
  {
    hide PieceMove, PawnMove;
    forall y: Ply
      ensures (exists q :: PieceMove(men, c, q, y)) <==>
              PieceMove(men, c, Bishop, y) || PieceMove(men, c, Rook, y) || PieceMove(men, c, Queen, y) ||
              PieceMove(men, c, King, y) || PieceMove(men, c, Knight, y)
    {
      if q :| PieceMove(men, c, q, y) {
        NoPawnPiece(men, c, y);
        match q { case Pawn => case Rook => case Knight => case Bishop => case Queen => case King => }
      }
    }
  }

  lemma NoPawnPiece(men: Men, c: Color, y: Ply)
    ensures !PieceMove(men, c, Pawn, y)
  {
  }

  // --- Attacked squares ------------------------------------------------------------------------------------

  ghost predicate PawnCovers(men: Men, c: Color, s: Square) {
    OnBoard(s) && exists from :: PawnAt(men, c, from) && PawnAttacks(c, from, s)
  }

  ghost predicate CoversFrom(c: Color, sources: seq<Square>, s: Square) {
    OnBoard(s) && exists from :: from in sources && PawnAttacks(c, from, s)
  }

  method PawnAttackSquares(p: Position, ghost men: Men, side: Color) returns (res: Bitboard)
    requires p.Shows(men)
    ensures forall s :: Has(res, s) <==> PawnCovers(men, side, s)
  {
    hide Bit, Has, Bitboard.Or, Bitboard.IsSquare, AheadEastOf, AheadWestOf, CoversFrom, PawnCovers;
    var pawns: seq<Bitboard>;
    ghost var sources: seq<Square>;
    pawns, sources := BitboardSplit(p.placement.Of(Man(side, Pawn)));
    res := EMPTY;
    EmptyHas();
    CoversNothing(side, sources);
    for i := 0 to |pawns|
      invariant forall s :: Has(res, s) <==> CoversFrom(side, sources[..i], s)
    {
      ghost var from := sources[i];
      Steps(side, from);
      BitHas(EastAhead(side, from));
      BitHas(WestAhead(side, from));
      var eastOfPawn := AheadEastOf(side, pawns[i]);
      OrHas(res, eastOfPawn);
      res := res.Or(eastOfPawn);
      var westOfPawn := AheadWestOf(side, pawns[i]);
      OrHas(res, westOfPawn);
      res := res.Or(westOfPawn);
      CoversMore(side, sources, i);
    }
    assert sources[..|pawns|] == sources;
    CoveredBySources(p, men, side, sources);
  }

  lemma CoversNothing(c: Color, sources: seq<Square>)
    ensures forall s :: !CoversFrom(c, sources[..0], s)
  {
  }

  lemma CoversMore(c: Color, sources: seq<Square>, i: nat)
    requires i < |sources|
    ensures forall s :: CoversFrom(c, sources[..i + 1], s) <==>
                        CoversFrom(c, sources[..i], s) ||
                        (OnBoard(s) && (s == EastAhead(c, sources[i]) || s == WestAhead(c, sources[i])))
  {
    hide PawnAttacks, EastAhead, WestAhead;
    assert sources[..i + 1] == sources[..i] + [sources[i]];
    forall s
      ensures CoversFrom(c, sources[..i + 1], s) <==>
              CoversFrom(c, sources[..i], s) ||
              (OnBoard(s) && (s == EastAhead(c, sources[i]) || s == WestAhead(c, sources[i])))
    {
      EastOrWest(c, sources[i], s);
      assert sources[i] in sources[..i + 1];
    }
  }

  lemma BitHas(t: Square)
    ensures forall s :: Has(Bit(t), s) <==> OnBoard(s) && s == t
  {
    hide Bit, Has;
    if OnBoard(t) {
      HasBit(t);
    } else {
      AnyBit(t);
      EmptyHas();
    }
  }

  lemma EastOrWest(c: Color, from: Square, s: Square)
    ensures PawnAttacks(c, from, s) <==> s == EastAhead(c, from) || s == WestAhead(c, from)
  {
  }

  lemma CoveredBySources(p: Position, men: Men, c: Color, sources: seq<Square>)
    requires p.Shows(men) && forall s :: s in sources <==> Has(p.placement.Of(Man(c, Pawn)), s)
    ensures forall s :: PawnCovers(men, c, s) <==> CoversFrom(c, sources, s)
  {
    hide Has, Placement.Of, PawnAttacks;
    assert forall s :: s in sources <==> PawnAt(men, c, s);
  }

  // What attack_squares computes: the destinations of moves, pushes of pawns among them, and the squares
  // pawns attack.
  ghost predicate Reaches(men: Men, ep: Option<Square>, c: Color, s: Square) {
    (exists y :: Pseudolegal(men, ep, c, y) && y.dst == s) || PawnCovers(men, c, s)
  }

  method AttackSquares(p: Position, ghost g: Game, side: Color) returns (res: Bitboard)
    requires p.StandsFor(g) && Consistent(g)
    ensures forall s :: Has(res, s) <==> Reaches(g.men, g.ep, side, s)
  {
    hide Bit, Has, Bitboard.Or, Pseudolegal, Orderly, PawnCovers;
    var moves := PseudolegalMoves(p, g, side);
    var withoutPawnsAttackSquares := EMPTY;
    EmptyHas();
    for i := 0 to |moves|
      invariant forall s :: Has(withoutPawnsAttackSquares, s) <==> Arrives(moves, i, s)
    {
      ghost var y := PlyOf(moves[i]);
      assert moves[i] in moves;
      assert moves[i] == Encode(p, g.men, y) && y in PseudolegalPlies(g.men, g.ep, side);
      HasBit(y.dst);
      OrHas(withoutPawnsAttackSquares, moves[i].dstSquare);
      withoutPawnsAttackSquares := withoutPawnsAttackSquares.Or(moves[i].dstSquare);
    }
    var pawnSquares := PawnAttackSquares(p, g.men, side);
    OrHas(withoutPawnsAttackSquares, pawnSquares);
    res := withoutPawnsAttackSquares.Or(pawnSquares);
    Destinations(p, g.men, moves, PseudolegalPlies(g.men, g.ep, side));
  }

  // One of the first i moves goes to s.
  ghost predicate Arrives(moves: seq<Move>, i: nat, s: Square)
    requires i <= |moves|
  {
    exists j :: 0 <= j < i && PlyOf(moves[j]).dst == s
  }

  lemma Destinations(p: Position, men: Men, moves: seq<Move>, S: iset<Ply>)
    requires Lists(p, men, moves, S)
    ensures forall s :: Arrives(moves, |moves|, s) <==> exists y :: y in S && y.dst == s
  {
    hide Encode, PlyOf;
    forall s
      ensures Arrives(moves, |moves|, s) <==> exists y :: y in S && y.dst == s
    {
      if Arrives(moves, |moves|, s) {
        var j :| 0 <= j < |moves| && PlyOf(moves[j]).dst == s;
        assert moves[j] in moves;
      }
      if y :| y in S && y.dst == s {
        PlyOfEncode(p, men, y);
        assert Encode(p, men, y) in moves;
        var j :| 0 <= j < |moves| && moves[j] == Encode(p, men, y);
      }
    }
  }

  // A pawn of colour c can be pushed to s, one square or two.
  ghost predicate Pushes(men: Men, c: Color, s: Square) {
    OnBoard(s) && s !in men &&
    (PawnAt(men, c, Ahead(c, s, -1)) ||
     (Ahead(c, s, -1) !in men && PawnAt(men, c, Ahead(c, s, -2)) && s.rank == PawnRank(c) + 2 * Forward(c)))
  }

  // attack_squares, exactly: the attacked squares not held by a friend, the friends that pawns defend, and
  // the squares pawns can be pushed to.
  lemma ReachesMeaning(men: Men, ep: Option<Square>, c: Color, s: Square)
    requires Orderly(men) && (ep.Some? ==> ep.value !in men)
    ensures Reaches(men, ep, c, s) <==>
            (Attacked(men, c, s) && !Friendly(men, c, s)) || PawnCovers(men, c, s) || Pushes(men, c, s)
  {
    hide Pseudolegal, Attacked, PawnCovers, Pushes;
    if Reaches(men, ep, c, s) && !PawnCovers(men, c, s) {
      var y :| Pseudolegal(men, ep, c, y) && y.dst == s;
      ReachedHow(men, ep, c, y);
    }
    if Attacked(men, c, s) && !Friendly(men, c, s) {
      AttackIsReached(men, ep, c, s);
    }
    if Pushes(men, c, s) {
      PushIsReached(men, ep, c, s);
    }
  }

  // The condition for a square to be in attack_squares exactly when it is attacked: defending a friend there is
  // left to pawns if to anyone, and no pawn can be pushed there unless the square is attacked too.
  lemma ReachesIsAttackedWhen(men: Men, ep: Option<Square>, c: Color, s: Square)
    requires Orderly(men) && (ep.Some? ==> ep.value !in men)
    ensures (Reaches(men, ep, c, s) <==> Attacked(men, c, s)) <==>
            (Attacked(men, c, s) && Friendly(men, c, s) ==> PawnCovers(men, c, s)) &&
            (Pushes(men, c, s) ==> Attacked(men, c, s))
  {
    hide Orderly, Reaches, Attacked, PawnCovers;
    ReachesMeaning(men, ep, c, s);
    CoverIsAttack(men, c, s);
  }

  lemma ReachedHow(men: Men, ep: Option<Square>, c: Color, y: Ply)
    requires Orderly(men) && (ep.Some? ==> ep.value !in men) && Pseudolegal(men, ep, c, y)
    ensures (Attacked(men, c, y.dst) && !Friendly(men, c, y.dst)) || PawnCovers(men, c, y.dst) || Pushes(men, c, y.dst)
  {
    if q :| PieceMove(men, c, q, y) {
      assert Attacks(men, y.src, y.dst);
    } else if PawnAttacks(c, y.src, y.dst) {
      assert PawnCovers(men, c, y.dst);
    } else {
      assert PawnMove(men, ep, c, y);
    }
  }

  lemma AttackIsReached(men: Men, ep: Option<Square>, c: Color, s: Square)
    requires Attacked(men, c, s) && !Friendly(men, c, s)
    ensures Reaches(men, ep, c, s)
  {
    hide PawnMove, PawnAttacks, Leaps, Touches, Slides;
    var from :| from in men && men[from].color == c && Attacks(men, from, s);
    if men[from].piece == Pawn {
      assert PawnAt(men, c, from);
    } else {
      var y := Ply(from, s, if s in men then Capture else Simple);
      assert PieceMove(men, c, men[from].piece, y);
      assert Pseudolegal(men, ep, c, y);
    }
  }

  lemma PushIsReached(men: Men, ep: Option<Square>, c: Color, s: Square)
    requires Orderly(men) && Pushes(men, c, s)
    ensures Reaches(men, ep, c, s)
  {
    hide PieceMove;
    var y := if PawnAt(men, c, Ahead(c, s, -1))
             then Ply(Ahead(c, s, -1), s, if s.rank == LastRank(c) then PromotionToQueen else Simple)
             else Ply(Ahead(c, s, -2), s, TwoStepPawn);
    assert PawnMove(men, ep, c, y);
    assert Pseudolegal(men, ep, c, y);
  }

  // --- Check -----------------------------------------------------------------------------------------------

  method IsKingAttacked(p: Position, ghost g: Game, side: Color) returns (res: bool)
    requires p.StandsFor(g) && Consistent(g)
    ensures res <==> InCheck(g.men, side)
  {
    hide Has, Bit, Bitboard.Meets, Reaches, Attacked, PassedOver, RightsBacked;
    var king := p.placement.Of(Man(side, King));
    var attackSquares := AttackSquares(p, g, Other(side));
    MeetsMeaning(king, attackSquares);
    res := king.Meets(attackSquares);
    forall k | k in g.men && g.men[k] == Man(side, King)
      ensures Reaches(g.men, g.ep, Other(side), k) <==> Attacked(g.men, Other(side), k)
    {
      EpIsVacant(g);
      ReachesEnemy(g.men, g.ep, Other(side), k);
    }
  }

  lemma EpIsVacant(g: Game)
    requires Consistent(g)
    ensures g.ep.Some? ==> OnBoard(g.ep.value) && g.ep.value !in g.men
  {
  }

  // On a square held by the enemy, attack_squares is exactly attack.
  lemma ReachesEnemy(men: Men, ep: Option<Square>, c: Color, s: Square)
    requires Orderly(men) && (ep.Some? ==> ep.value !in men) && Friendly(men, Other(c), s)
    ensures Reaches(men, ep, c, s) <==> Attacked(men, c, s)
  {
    ReachesMeaning(men, ep, c, s);
    CoverIsAttack(men, c, s);
  }

  lemma CoverIsAttack(men: Men, c: Color, s: Square)
    ensures PawnCovers(men, c, s) ==> Attacked(men, c, s)
  {
    if PawnCovers(men, c, s) {
      var from :| PawnAt(men, c, from) && PawnAttacks(c, from, s);
      assert Attacks(men, from, s);
    }
  }

  // --- Castling --------------------------------------------------------------------------------------------

  function KingsidePly(c: Color): Ply {
    Ply(Square(4, HomeRank(c)), Square(6, HomeRank(c)), CastleKingside)
  }

  function QueensidePly(c: Color): Ply {
    Ply(Square(4, HomeRank(c)), Square(2, HomeRank(c)), CastleQueenside)
  }

  const WHITE_CASTLE_KINGSIDE_MASK := StrToSquare("f1").Or(StrToSquare("g1"))
  const WHITE_CASTLE_QUEENSIDE_MASK := StrToSquare("d1").Or(StrToSquare("c1"))
  const BLACK_CASTLE_KINGSIDE_MASK := StrToSquare("f8").Or(StrToSquare("g8"))
  const BLACK_CASTLE_QUEENSIDE_MASK := StrToSquare("d8").Or(StrToSquare("c8"))

  function KingsideMask(side: Color): Bitboard {
    if side == White then WHITE_CASTLE_KINGSIDE_MASK else BLACK_CASTLE_KINGSIDE_MASK
  }

  function QueensideMask(side: Color): Bitboard {
    if side == White then WHITE_CASTLE_QUEENSIDE_MASK else BLACK_CASTLE_QUEENSIDE_MASK
  }

  lemma TwoSquares(mask: Bitboard, s: Square, t: Square)
    requires OnBoard(s) && OnBoard(t) && mask == Bit(s).Or(Bit(t))
    ensures forall u :: Has(mask, u) <==> u == s || u == t
  {
    hide Bit, Has, Bitboard.Or;
    OrHas(Bit(s), Bit(t));
    HasBit(s);
    HasBit(t);
  }

  lemma CastleMasks(side: Color)
    ensures forall s :: Has(KingsideMask(side), s) <==> s == Square(5, HomeRank(side)) || s == Square(6, HomeRank(side))
    ensures forall s :: Has(QueensideMask(side), s) <==>
                          s == Square(3, HomeRank(side)) || s == Square(2, HomeRank(side))
  {
    hide Bit, Has, Bitboard.Or;
    var r := HomeRank(side);
    TwoSquares(KingsideMask(side), Square(5, r), Square(6, r));
    TwoSquares(QueensideMask(side), Square(3, r), Square(2, r));
  }

  // A mask of two squares meets a board exactly when the board has one of them.
  lemma MaskMeets(mask: Bitboard, bb: Bitboard, s: Square, t: Square)
    requires forall u :: Has(mask, u) <==> u == s || u == t
    ensures mask.Meets(bb) <==> Has(bb, s) || Has(bb, t)
  {
    hide Bit, Has, Bitboard.Meets;
    MeetsMeaning(mask, bb);
  }

  method IsCastleKingsideLegal(p: Position, ghost g: Game) returns (res: bool)
    requires p.StandsFor(g) && Consistent(g)
    ensures res <==> CastlesKingside(g, KingsidePly(g.turn))
  {
    hide Bit, Has, Bitboard.Meets, Bitboard.Or, Reaches, Attacked, KingsideMask, Orderly, PassedOver,
         Position.AllPieces;
    var sideToMove := p.SideToMove();
    var hasRightToCastle := if p.isWhitesMove then p.whiteHasRightToCastleKingside else p.blackHasRightToCastleKingside;
    var attacked := IsKingAttacked(p, g, sideToMove);
    if !hasRightToCastle || attacked {
      HomeKingInCheck(g);
      return false;
    }
    ghost var f, h := Square(5, HomeRank(g.turn)), Square(6, HomeRank(g.turn));
    var castleSquares := KingsideMask(sideToMove);
    CastleMasks(sideToMove);
    var enemyAttackSquares := AttackSquares(p, g, Other(sideToMove));
    MasksShow(p, g.men, sideToMove);
    MaskMeets(castleSquares, p.AllPieces(), f, h);
    MaskMeets(castleSquares, enemyAttackSquares, f, h);
    var castleSquaresClear := !castleSquares.Meets(p.AllPieces());
    var castleSquaresAttacked := castleSquares.Meets(enemyAttackSquares);
    if castleSquaresClear {
      HomeKingInCheck(g);
      PathIsReached(g, 5, 6);
    }
    return castleSquaresClear && !castleSquaresAttacked;
  }

  method IsCastleQueensideLegal(p: Position, ghost g: Game) returns (res: bool)
    requires p.StandsFor(g) && Consistent(g)
    ensures res <==> CastlesQueenside(g, QueensidePly(g.turn))
  {
    hide Bit, Has, Bitboard.Meets, Bitboard.Or, Reaches, Attacked, QueensideMask, Orderly, PassedOver,
         Position.AllPieces;
    var sideToMove := p.SideToMove();
    var hasRightToCastle :=
      if p.isWhitesMove then p.whiteHasRightToCastleQueenside else p.blackHasRightToCastleQueenside;
    var attacked := IsKingAttacked(p, g, sideToMove);
    if !hasRightToCastle || attacked {
      HomeKingInCheck(g);
      return false;
    }
    ghost var d, c, b := Square(3, HomeRank(g.turn)), Square(2, HomeRank(g.turn)), Square(1, HomeRank(g.turn));
    var castleSquares := QueensideMask(sideToMove);
    CastleMasks(sideToMove);
    var enemyAttackSquares := AttackSquares(p, g, Other(sideToMove));
    MaskMeets(castleSquares, enemyAttackSquares, d, c);
    var castleSquaresAttacked := castleSquares.Meets(enemyAttackSquares);
    // The square on the b file may be attacked but must not be occupied.
    var bFileSquare := if p.isWhitesMove then StrToSquare("b1") else StrToSquare("b8");
    var castleSquaresWithBFile := castleSquares.Or(bFileSquare);
    HasBit(b);
    OrHas(castleSquares, bFileSquare);
    MasksShow(p, g.men, sideToMove);
    MeetsMeaning(castleSquaresWithBFile, p.AllPieces());
    var castleSquaresBlocked := castleSquaresWithBFile.Meets(p.AllPieces());
    if !castleSquaresBlocked {
      assert Has(castleSquaresWithBFile, d) && Has(castleSquaresWithBFile, c) && Has(castleSquaresWithBFile, b);
      HomeKingInCheck(g);
      PathIsReached(g, 3, 2);
    }
    return !castleSquaresBlocked && !castleSquaresAttacked;
  }

  // With a right to castle the king of the side to move stands on the e-file of its home rank.
  lemma HomeKingInCheck(g: Game)
    requires Consistent(g)
    ensures KingsideRight(g.rights, g.turn) || QueensideRight(g.rights, g.turn) ==>
            (InCheck(g.men, g.turn) <==> Attacked(g.men, Other(g.turn), Square(4, HomeRank(g.turn))))
  {
    hide Attacked, PassedOver;
  }

  // On the vacant squares the king passes, attack_squares differs from attack only by pushes of pawns; the
  // pawns that could be pushed there attack a square the king passes anyway.
  lemma PathIsReached(g: Game, near: int, far: int)
    requires Consistent(g)
    requires (near == 5 && far == 6) || (near == 3 && far == 2)
    requires Square(near, HomeRank(g.turn)) !in g.men && Square(far, HomeRank(g.turn)) !in g.men
    requires !Attacked(g.men, Other(g.turn), Square(4, HomeRank(g.turn)))
    ensures var r, enemy := HomeRank(g.turn), Other(g.turn);
            !Reaches(g.men, g.ep, enemy, Square(near, r)) && !Reaches(g.men, g.ep, enemy, Square(far, r)) <==>
            !Attacked(g.men, enemy, Square(near, r)) && !Attacked(g.men, enemy, Square(far, r))
  {
    hide Reaches, Attacked;
    var r, enemy := HomeRank(g.turn), Other(g.turn);
    EpIsVacant(g);
    ReachesMeaning(g.men, g.ep, enemy, Square(near, r));
    ReachesMeaning(g.men, g.ep, enemy, Square(far, r));
    CoverIsAttack(g.men, enemy, Square(near, r));
    CoverIsAttack(g.men, enemy, Square(far, r));
    PushToHomeRank(g.men, enemy, Square(near, r), Square(4, r));
    PushToHomeRank(g.men, enemy, Square(far, r), Square(near, r));
  }

  lemma PushToHomeRank(men: Men, c: Color, s: Square, neighbour: Square)
    requires OnBoard(s) && OnBoard(neighbour) && s.rank == neighbour.rank == LastRank(c)
    requires s.file - neighbour.file == 1 || neighbour.file - s.file == 1
    ensures Pushes(men, c, s) ==> Attacked(men, c, neighbour)
  {
    if Pushes(men, c, s) {
      assert Attacks(men, Ahead(c, s, -1), neighbour);
    }
  }
}
