/** Doing and undoing moves on a mutable Board (src/board.cc:644-833). */
module Boards {
  import opened Geometry
  import opened Wrappers
  import opened Bitboards
  import opened Chess
  import opened Positions
  import opened Pieces
  import opened Pawns

  // --- How changes of a bitboard change the men ------------------------------------------------------

  // The order of all_bitboards (src/board.cc:63-67).
  const ALL_BITBOARDS: seq<Man> := [
    Man(White, Pawn), Man(White, Rook), Man(White, Bishop), Man(White, Knight), Man(White, Queen), Man(White, King),
    Man(Black, Pawn), Man(Black, Rook), Man(Black, Bishop), Man(Black, Knight), Man(Black, Queen), Man(Black, King)]

  lemma EveryManHasABitboard(m: Man)
    ensures m in ALL_BITBOARDS
  {
    var a := ALL_BITBOARDS;
    match m {
      case Man(White, Pawn) => assert a[0] == m;
      case Man(White, Rook) => assert a[1] == m;
      case Man(White, Bishop) => assert a[2] == m;
      case Man(White, Knight) => assert a[3] == m;
      case Man(White, Queen) => assert a[4] == m;
      case Man(White, King) => assert a[5] == m;
      case Man(Black, Pawn) => assert a[6] == m;
      case Man(Black, Rook) => assert a[7] == m;
      case Man(Black, Bishop) => assert a[8] == m;
      case Man(Black, Knight) => assert a[9] == m;
      case Man(Black, Queen) => assert a[10] == m;
      case Man(Black, King) => assert a[11] == m;
    }
  }

  // q differs from p in the bitboard of m only, which is bb.
  ghost predicate Replaces(p: Placement, q: Placement, m: Man, bb: Bitboard) {
    q.Of(m) == bb && forall n :: n != m ==> q.Of(n) == p.Of(n)
  }

  lemma RemovalShows(p: Placement, q: Placement, men: Men, s: Square, m: Man)
    requires p.Shows(men) && s in men && men[s] == m
    requires Replaces(p, q, m, p.Of(m).Xor(Bit(s)))
    ensures q.Shows(men - {s})
  {
    hide Bit, Has, Placement.Of, Bitboard.Xor;
    HasBit(s);
    XorHas(p.Of(m), Bit(s));
    var after := men - {s};
    forall t, n
      ensures Has(q.Of(n), t) <==> t in after && after[t] == n
    {
      assert Has(p.Of(n), t) <==> t in men && men[t] == n;
    }
  }

  lemma PlacementShows(p: Placement, q: Placement, men: Men, s: Square, m: Man)
    requires p.Shows(men) && s !in men && OnBoard(s)
    requires Replaces(p, q, m, p.Of(m).Or(Bit(s)))
    ensures q.Shows(men[s := m])
  {
    hide Bit, Has, Placement.Of, Bitboard.Or;
    HasBit(s);
    OrHas(p.Of(m), Bit(s));
    var after := men[s := m];
    forall t, n
      ensures Has(q.Of(n), t) <==> t in after && after[t] == n
    {
      assert Has(p.Of(n), t) <==> t in men && men[t] == n;
    }
  }

  lemma RelocationShows(p: Placement, q: Placement, men: Men, from: Square, to: Square)
    requires p.Shows(men) && from in men && to !in men && OnBoard(to)
    requires Replaces(p, q, men[from], p.Of(men[from]).Xor(Bit(from)).Or(Bit(to)))
    ensures q.Shows(Relocate(men, from, to))
  {
    hide Bit, Has, Placement.Of, Bitboard.Or, Bitboard.Xor;
    var m := men[from];
    HasBit(from);
    HasBit(to);
    XorHas(p.Of(m), Bit(from));
    OrHas(p.Of(m).Xor(Bit(from)), Bit(to));
    var after := Relocate(men, from, to);
    forall t, n
      ensures Has(q.Of(n), t) <==> t in after && after[t] == n
    {
      assert Has(p.Of(n), t) <==> t in men && men[t] == n;
    }
  }

  lemma NobodyOn(p: Placement, men: Men, s: Square)
    requires p.Shows(men) && forall j :: 0 <= j < |ALL_BITBOARDS| ==> !Has(p.Of(ALL_BITBOARDS[j]), s)
    ensures s !in men
  {
    hide Has, Placement.Of;
    forall m
      ensures !Has(p.Of(m), s)
    {
      EveryManHasABitboard(m);
    }
    SomebodyOn(p, men, s);
  }

  lemma SomebodyOn(p: Placement, men: Men, s: Square)
    requires p.Shows(men)
    ensures s in men ==> exists m :: Has(p.Of(m), s)
  {
    hide Has, Placement.Of;
    if s in men {
      assert Has(p.Of(men[s]), s);
    }
  }

  lemma BitsDiffer(s: Square, t: Square)
    requires OnBoard(s) && OnBoard(t)
    ensures Bit(s) == Bit(t) <==> s == t
  {
    SquareOfBit(s);
    SquareOfBit(t);
  }

  // --- Playing a ply ---------------------------------------------------------------------------------------

  // The move writes down y, wherever it was generated.
  ghost predicate Writes(move: Move, men: Men, y: Ply) {
    && move.srcSquare == Bit(y.src) && move.dstSquare == Bit(y.dst)
    && move.pieceMoving == PieceOn(men, y.src) && move.moveType == y.kind
    && y.src in men && OnBoard(y.dst)
  }

  // q is p after y, but for the side to move and the move number.
  ghost predicate Moved(p: Position, q: Position, g: Game, y: Ply)
    requires y.src in g.men
  {
    && q.Shows(MenAfter(g.men, y))
    && q.isWhitesMove == p.isWhitesMove
    && EpIs(q.enPassantSquare, After(g, y).ep)
    && q.CastlingRights() == RightsAfter(g.rights, y)
    && q.fiftyMoveClock == p.fiftyMoveClock
    && q.numMoves == p.numMoves
  }

  // The square do_en_passant_move clears, and the one do_two_step_pawn_move marks.
  function EnemyPawnSquare(dst: Bitboard): Bitboard
    requires dst.IsSquare()
  {
    if dst.Meets(THIRD_RANK_MASK) then NorthOf(dst) else SouthOf(dst)
  }

  function PassedSquare(src: Bitboard): Bitboard
    requires src.IsSquare()
  {
    if src.Meets(SECOND_RANK_MASK) then NorthOf(src) else SouthOf(src)
  }

  lemma EnemyPawnSquareIs(dst: Square)
    requires OnBoard(dst)
    ensures Bit(dst).IsSquare()
    ensures EnemyPawnSquare(Bit(dst)) == Bit(Ahead(if dst.rank == 2 then White else Black, dst, 1))
  {
    hide Bit, Bitboard.Meets, Bitboard.IsSquare, NorthOf, SouthOf, MaskUpTo, Has;
    MaskHas(8, 2);
    MeetsSquare(THIRD_RANK_MASK, dst);
    Steps(White, dst);
    Steps(Black, dst);
  }

  lemma PassedSquareIs(src: Square)
    requires OnBoard(src)
    ensures Bit(src).IsSquare()
    ensures PassedSquare(Bit(src)) == Bit(Ahead(if src.rank == 1 then White else Black, src, 1))
  {
    hide Bit, Bitboard.Meets, Bitboard.IsSquare, NorthOf, SouthOf, MaskUpTo, Has;
    MaskHas(8, 1);
    MeetsSquare(SECOND_RANK_MASK, src);
    Steps(White, src);
    Steps(Black, src);
  }

  class Board {
    var placement: Placement
    var isWhitesMove: bool
    var enPassantSquare: Option<Bitboard>
    var whiteHasRightToCastleKingside: bool
    var whiteHasRightToCastleQueenside: bool
    var blackHasRightToCastleKingside: bool
    var blackHasRightToCastleQueenside: bool
    var fiftyMoveClock: int
    var numMoves: int

    // The value that copying this Board copies.
    function Value(): Position
      reads this
    {
      Position(placement, isWhitesMove, enPassantSquare,
               whiteHasRightToCastleKingside, whiteHasRightToCastleQueenside,
               blackHasRightToCastleKingside, blackHasRightToCastleQueenside,
               fiftyMoveClock, numMoves)
    }

    constructor (p: Position)
      ensures Value() == p
    {
      placement, isWhitesMove, enPassantSquare := p.placement, p.isWhitesMove, p.enPassantSquare;
      whiteHasRightToCastleKingside := p.whiteHasRightToCastleKingside;
      whiteHasRightToCastleQueenside := p.whiteHasRightToCastleQueenside;
      blackHasRightToCastleKingside := p.blackHasRightToCastleKingside;
      blackHasRightToCastleQueenside := p.blackHasRightToCastleQueenside;
      fiftyMoveClock, numMoves := p.fiftyMoveClock, p.numMoves;
    }

    // Assignment through a pointer into all_bitboards.
    method Store(m: Man, bb: Bitboard)
      modifies this`placement
      ensures Replaces(old(placement), placement, m, bb)
    {
      placement := match m
        case Man(White, Pawn) => placement.(whitePawns := bb)
        case Man(White, Rook) => placement.(whiteRooks := bb)
        case Man(White, Knight) => placement.(whiteKnights := bb)
        case Man(White, Bishop) => placement.(whiteBishops := bb)
        case Man(White, Queen) => placement.(whiteQueens := bb)
        case Man(White, King) => placement.(whiteKing := bb)
        case Man(Black, Pawn) => placement.(blackPawns := bb)
        case Man(Black, Rook) => placement.(blackRooks := bb)
        case Man(Black, Knight) => placement.(blackKnights := bb)
        case Man(Black, Bishop) => placement.(blackBishops := bb)
        case Man(Black, Queen) => placement.(blackQueens := bb)
        case Man(Black, King) => placement.(blackKing := bb);
    }

    method RemovePieceOn(sq: Bitboard, ghost men: Men, ghost s: Square)
      requires placement.Shows(men) && sq == Bit(s)
      modifies this`placement
      ensures placement.Shows(men - {s})
    {
      hide Bit, Has, Placement.Of, Bitboard.Xor, Bitboard.Meets;
      for i := 0 to |ALL_BITBOARDS|
        invariant placement == old(placement)
        invariant forall j :: 0 <= j < i ==> !Has(placement.Of(ALL_BITBOARDS[j]), s)
      {
        var m := ALL_BITBOARDS[i];
        var bb := placement.Of(m);
        MeetsSquare(bb, s);
        if sq.Meets(bb) {
          Store(m, bb.Xor(sq));
          RemovalShows(old(placement), placement, men, s, m);
          return;
        }
      }
      NobodyOn(placement, men, s);
      assert men - {s} == men;
    }

    method MovePiece(from: Bitboard, to: Bitboard, ghost men: Men, ghost s: Square, ghost t: Square)
      requires placement.Shows(men) && s in men && t !in men && OnBoard(t) && from == Bit(s) && to == Bit(t)
      modifies this`placement
      ensures placement.Shows(Relocate(men, s, t))
    {
      hide Bit, Has, Placement.Of, Bitboard.Xor, Bitboard.Or, Bitboard.Meets;
      for i := 0 to |ALL_BITBOARDS|
        invariant placement == old(placement)
        invariant forall j :: 0 <= j < i ==> !Has(placement.Of(ALL_BITBOARDS[j]), s)
      {
        var m := ALL_BITBOARDS[i];
        var bb := placement.Of(m);
        MeetsSquare(bb, s);
        if from.Meets(bb) {
          Store(m, bb.Xor(from).Or(to));
          RelocationShows(old(placement), placement, men, s, t);
          return;
        }
      }
      NobodyOn(placement, men, s);
      assert false;  // ABSL_RAW_CHECK
    }

    // Whatever reaches a corner takes the rook there, if the right still stands.
    method AdjustForDestination(move: Move, ghost y: Ply)
      requires move.dstSquare == Bit(y.dst) && OnBoard(y.dst)
      modifies this`whiteHasRightToCastleKingside, this`whiteHasRightToCastleQueenside,
               this`blackHasRightToCastleKingside, this`blackHasRightToCastleQueenside
      ensures whiteHasRightToCastleQueenside == (old(whiteHasRightToCastleQueenside) && y.dst != Square(0, 0))
      ensures blackHasRightToCastleQueenside == (old(blackHasRightToCastleQueenside) && y.dst != Square(0, 7))
      ensures whiteHasRightToCastleKingside == (old(whiteHasRightToCastleKingside) && y.dst != Square(7, 0))
      ensures blackHasRightToCastleKingside == (old(blackHasRightToCastleKingside) && y.dst != Square(7, 7))
    {
      hide Bit, StrToSquare, CoordinatesToSquare;
      Corners(y.dst);
      if move.dstSquare == StrToSquare("a1") {
        whiteHasRightToCastleQueenside := false;
      }
      if move.dstSquare == StrToSquare("a8") {
        blackHasRightToCastleQueenside := false;
      }
      if move.dstSquare == StrToSquare("h1") {
        whiteHasRightToCastleKingside := false;
      }
      if move.dstSquare == StrToSquare("h8") {
        blackHasRightToCastleKingside := false;
      }
    }

    // A king leaving its home square.
    method AdjustForKing(move: Move, ghost y: Ply)
      requires move.srcSquare == Bit(y.src) && OnBoard(y.src)
      modifies this`whiteHasRightToCastleKingside, this`whiteHasRightToCastleQueenside,
               this`blackHasRightToCastleKingside, this`blackHasRightToCastleQueenside
      ensures whiteHasRightToCastleQueenside == (old(whiteHasRightToCastleQueenside) && y.src != Square(4, 0))
      ensures blackHasRightToCastleQueenside == (old(blackHasRightToCastleQueenside) && y.src != Square(4, 7))
      ensures whiteHasRightToCastleKingside == (old(whiteHasRightToCastleKingside) && y.src != Square(4, 0))
      ensures blackHasRightToCastleKingside == (old(blackHasRightToCastleKingside) && y.src != Square(4, 7))
    {
      hide Bit, StrToSquare, CoordinatesToSquare;
      Corners(y.src);
      if move.srcSquare == StrToSquare("e1") {
        whiteHasRightToCastleKingside := false;
        whiteHasRightToCastleQueenside := false;
      } else if move.srcSquare == StrToSquare("e8") {
        blackHasRightToCastleKingside := false;
        blackHasRightToCastleQueenside := false;
      }
    }

    // A rook leaving a corner.
    method AdjustForRook(move: Move, ghost y: Ply)
      requires move.srcSquare == Bit(y.src) && OnBoard(y.src)
      modifies this`whiteHasRightToCastleKingside, this`whiteHasRightToCastleQueenside,
               this`blackHasRightToCastleKingside, this`blackHasRightToCastleQueenside
      ensures whiteHasRightToCastleQueenside == (old(whiteHasRightToCastleQueenside) && y.src != Square(0, 0))
      ensures blackHasRightToCastleQueenside == (old(blackHasRightToCastleQueenside) && y.src != Square(0, 7))
      ensures whiteHasRightToCastleKingside == (old(whiteHasRightToCastleKingside) && y.src != Square(7, 0))
      ensures blackHasRightToCastleKingside == (old(blackHasRightToCastleKingside) && y.src != Square(7, 7))
    {
      hide Bit, StrToSquare, CoordinatesToSquare;
      Corners(y.src);
      if move.srcSquare == StrToSquare("a1") {
        whiteHasRightToCastleQueenside := false;
      } else if move.srcSquare == StrToSquare("h1") {
        whiteHasRightToCastleKingside := false;
      } else if move.srcSquare == StrToSquare("a8") {
        blackHasRightToCastleQueenside := false;
      } else if move.srcSquare == StrToSquare("h8") {
        blackHasRightToCastleKingside := false;
      }
    }

    // The source asks which piece is moving, the rules which squares are left or reached; the two agree while
    // every right is backed by a king and a rook at home.
    method AdjustCastlingRights(move: Move, ghost g: Game, ghost y: Ply)
      requires Writes(move, g.men, y) && OnBoard(y.src) && RightsBacked(g.men, g.rights)
      requires Value().CastlingRights() == g.rights
      modifies this`whiteHasRightToCastleKingside, this`whiteHasRightToCastleQueenside,
               this`blackHasRightToCastleKingside, this`blackHasRightToCastleQueenside
      ensures Value().CastlingRights() == RightsAfter(g.rights, y)
    {
      hide Bit;
      AdjustForDestination(move, y);
      if move.pieceMoving == King {
        AdjustForKing(move, y);
      }
      if move.pieceMoving == Rook {
        AdjustForRook(move, y);
      }
    }

    static lemma Corners(s: Square)
      requires OnBoard(s)
      ensures Bit(s) == StrToSquare("a1") <==> s == Square(0, 0)
      ensures Bit(s) == StrToSquare("e1") <==> s == Square(4, 0)
      ensures Bit(s) == StrToSquare("h1") <==> s == Square(7, 0)
      ensures Bit(s) == StrToSquare("a8") <==> s == Square(0, 7)
      ensures Bit(s) == StrToSquare("e8") <==> s == Square(4, 7)
      ensures Bit(s) == StrToSquare("h8") <==> s == Square(7, 7)
    {
      hide Bit, StrToSquare, CoordinatesToSquare;
      BitsDiffer(s, Square(0, 0));
      BitsDiffer(s, Square(4, 0));
      BitsDiffer(s, Square(7, 0));
      BitsDiffer(s, Square(0, 7));
      BitsDiffer(s, Square(4, 7));
      BitsDiffer(s, Square(7, 7));
    }

    method DoEnPassantMove(move: Move, ghost g: Game, ghost y: Ply)
      requires Value().StandsFor(g) && Consistent(g) && Writes(move, g.men, y) && TakesInPassing(g.men, g.ep, g.turn, y)
      modifies this
      ensures Moved(old(Value()), Value(), g, y)
    {
      hide Bit, Has, Placement.Of, Bitboard.IsSquare, EnemyPawnSquare, Consistent, TakesInPassing, MenAfter, Relocate;
      PassingFacts(g, y);
      EnemyPawnSquareIs(y.dst);
      assert enPassantSquare == Some(move.dstSquare);  // ABSL_RAW_CHECK
      ghost var taken := Square(y.dst.file, y.src.rank);
      var enemyPawnSquare := EnemyPawnSquare(move.dstSquare);
      RemovePieceOn(enemyPawnSquare, g.men, taken);
      MovePiece(move.srcSquare, move.dstSquare, g.men - {taken}, y.src, y.dst);
      enPassantSquare := None;
    }

    // The pawn taken in passing stands on the file the capturing pawn goes to and the rank it comes from.
    static lemma PassingFacts(g: Game, y: Ply)
      requires Consistent(g) && TakesInPassing(g.men, g.ep, g.turn, y)
      ensures g.ep == Some(y.dst) && y.kind == EnPassant && OnBoard(y.dst)
      ensures y.dst !in g.men && y.src in g.men && y.src != Square(y.dst.file, y.src.rank)
      ensures Square(y.dst.file, y.src.rank) == Ahead(if y.dst.rank == 2 then White else Black, y.dst, 1)
      ensures MenAfter(g.men, y) == Relocate(g.men - {Square(y.dst.file, y.src.rank)}, y.src, y.dst)
      ensures RightsAfter(g.rights, y) == g.rights
    {
    }

    method DoCastleMove(move: Move, ghost g: Game, ghost y: Ply)
      requires Value().StandsFor(g) && Consistent(g) && Writes(move, g.men, y)
      requires CastlesKingside(g, y) || CastlesQueenside(g, y)
      modifies this
      ensures Moved(old(Value()), Value(), g, y)
    {
      hide Bit, Has, Placement.Of, Attacked, Consistent, CastlesKingside, CastlesQueenside, Relocate, MenAfter,
           Placement.Shows;
      CastlingFacts(g, y);
      ghost var r, men := HomeRank(g.turn), Relocate(g.men, y.src, y.dst);
      MovePiece(move.srcSquare, move.dstSquare, g.men, y.src, y.dst);
      MoveRook(move, men, r);
      enPassantSquare := None;
      AdjustCastlingRights(move, g, y);
    }

    // The switch of do_castle_move.
    method MoveRook(move: Move, ghost men: Men, ghost r: int)
      requires move.moveType == CastleKingside || move.moveType == CastleQueenside
      requires placement.Shows(men) && r == HomeRank(Value().SideToMove())
      requires Square(if move.moveType == CastleKingside then 7 else 0, r) in men
      requires Square(if move.moveType == CastleKingside then 5 else 3, r) !in men
      modifies this`placement
      ensures placement.Shows(Relocate(men, Square(if move.moveType == CastleKingside then 7 else 0, r),
                                       Square(if move.moveType == CastleKingside then 5 else 3, r)))
    {
      hide Bit, Placement.Shows, StrToSquare, CoordinatesToSquare, Relocate;
      match move.moveType {
        case CastleKingside =>
          if isWhitesMove {
            MovePiece(StrToSquare("h1"), StrToSquare("f1"), men, Square(7, r), Square(5, r));
          } else {
            MovePiece(StrToSquare("h8"), StrToSquare("f8"), men, Square(7, r), Square(5, r));
          }
        case CastleQueenside =>
          if isWhitesMove {
            MovePiece(StrToSquare("a1"), StrToSquare("d1"), men, Square(0, r), Square(3, r));
          } else {
            MovePiece(StrToSquare("a8"), StrToSquare("d8"), men, Square(0, r), Square(3, r));
          }
        case _ =>
          assert false;  // ABSL_RAW_CHECK
      }
    }

    static lemma CastlingFacts(g: Game, y: Ply)
      requires Consistent(g) && (CastlesKingside(g, y) || CastlesQueenside(g, y))
      ensures var r := HomeRank(g.turn);
              && y.src in g.men && y.dst !in g.men && OnBoard(y.src) && OnBoard(y.dst)
              && (y.kind == CastleKingside || y.kind == CastleQueenside)
              && var men := Relocate(g.men, y.src, y.dst);
              && var from := Square(if y.kind == CastleKingside then 7 else 0, r);
              && var to := Square(if y.kind == CastleKingside then 5 else 3, r);
              && from in men && to !in men && MenAfter(g.men, y) == Relocate(men, from, to)
              && RightsBacked(g.men, g.rights)
    {
      hide Attacked;
    }

    method DoPromotionMove(move: Move, ghost g: Game, ghost y: Ply)
      requires Value().StandsFor(g) && Consistent(g) && Writes(move, g.men, y) && Promotes(g.men, g.turn, y)
      modifies this
      ensures Moved(old(Value()), Value(), g, y)
    {
      hide Bit, Has, Bitboard.Or, Consistent, Promotes, MenAfter, Placement.Shows;
      PromotionFacts(g, y);
      RemovePieceOn(move.srcSquare, g.men, y.src);
      RemovePieceOn(move.dstSquare, g.men - {y.src}, y.dst);
      ghost var men, p := g.men - {y.src} - {y.dst}, placement;
      PlacePromoted(move);
      PlacementShows(p, placement, men, y.dst, Man(g.turn, PromotedPiece(y.kind)));
      enPassantSquare := None;
      AdjustCastlingRights(move, g, y);
    }

    // The switch of do_promotion_move.
    method PlacePromoted(move: Move)
      requires IsPromotion(move.moveType)
      modifies this`placement
      ensures var m := Man(Value().SideToMove(), PromotedPiece(move.moveType));
              Replaces(old(placement), placement, m, old(placement).Of(m).Or(move.dstSquare))
    {
      hide Bitboard.Or;
      match move.moveType {
        case PromotionToRook =>
          if isWhitesMove {
            placement := placement.(whiteRooks := placement.whiteRooks.Or(move.dstSquare));
          } else {
            placement := placement.(blackRooks := placement.blackRooks.Or(move.dstSquare));
          }
        case PromotionToBishop =>
          if isWhitesMove {
            placement := placement.(whiteBishops := placement.whiteBishops.Or(move.dstSquare));
          } else {
            placement := placement.(blackBishops := placement.blackBishops.Or(move.dstSquare));
          }
        case PromotionToKnight =>
          if isWhitesMove {
            placement := placement.(whiteKnights := placement.whiteKnights.Or(move.dstSquare));
          } else {
            placement := placement.(blackKnights := placement.blackKnights.Or(move.dstSquare));
          }
        case PromotionToQueen =>
          if isWhitesMove {
            placement := placement.(whiteQueens := placement.whiteQueens.Or(move.dstSquare));
          } else {
            placement := placement.(blackQueens := placement.blackQueens.Or(move.dstSquare));
          }
        case _ =>
          assert false;  // ABSL_RAW_CHECK
      }
    }

    static lemma PromotionFacts(g: Game, y: Ply)
      requires Consistent(g) && Promotes(g.men, g.turn, y)
      ensures y.src in g.men && OnBoard(y.src) && OnBoard(y.dst) && IsPromotion(y.kind)
      ensures (g.men - {y.src} - {y.dst})[y.dst := Man(g.turn, PromotedPiece(y.kind))] == MenAfter(g.men, y)
      ensures RightsBacked(g.men, g.rights)
    {
    }

    method DoCaptureMove(move: Move, ghost g: Game, ghost y: Ply)
      requires Value().StandsFor(g) && Consistent(g) && Writes(move, g.men, y) && y.kind == Capture && y.src != y.dst
      modifies this
      ensures Moved(old(Value()), Value(), g, y)
    {
      hide Bit, Has, Placement.Of, Orderly;
      assert OnBoard(y.src) by { OnTheBoard(g, y); }
      RemovePieceOn(move.dstSquare, g.men, y.dst);
      MovePiece(move.srcSquare, move.dstSquare, g.men - {y.dst}, y.src, y.dst);
      assert Relocate(g.men - {y.dst}, y.src, y.dst) == Relocate(g.men, y.src, y.dst);
      enPassantSquare := None;
      AdjustCastlingRights(move, g, y);
    }

    method DoTwoStepPawnMove(move: Move, ghost g: Game, ghost y: Ply)
      requires Value().StandsFor(g) && Consistent(g) && Writes(move, g.men, y) && PawnDoubleStep(g.men, g.turn, y)
      modifies this
      ensures Moved(old(Value()), Value(), g, y)
    {
      hide Bit, Has, Placement.Of, Bitboard.IsSquare, PassedSquare, Consistent, PawnDoubleStep, MenAfter, Relocate;
      DoubleStepFacts(g, y);
      PassedSquareIs(y.src);
      MovePiece(move.srcSquare, move.dstSquare, g.men, y.src, y.dst);
      enPassantSquare := Some(PassedSquare(move.srcSquare));
    }

    static lemma DoubleStepFacts(g: Game, y: Ply)
      requires Consistent(g) && PawnDoubleStep(g.men, g.turn, y)
      ensures y.kind == TwoStepPawn && y.src in g.men && y.dst !in g.men && OnBoard(y.src)
      ensures After(g, y).ep == Some(Ahead(if y.src.rank == 1 then White else Black, y.src, 1))
      ensures OnBoard(After(g, y).ep.value)
      ensures MenAfter(g.men, y) == Relocate(g.men, y.src, y.dst)
      ensures RightsAfter(g.rights, y) == g.rights
    {
    }

    method DoSimpleMove(move: Move, ghost g: Game, ghost y: Ply)
      requires Value().StandsFor(g) && Consistent(g) && Writes(move, g.men, y) && y.kind == Simple && y.dst !in g.men
      modifies this
      ensures Moved(old(Value()), Value(), g, y)
    {
      hide Bit, Has, Placement.Of, Orderly;
      assert OnBoard(y.src) by { OnTheBoard(g, y); }
      MovePiece(move.srcSquare, move.dstSquare, g.men, y.src, y.dst);
      enPassantSquare := None;
      AdjustCastlingRights(move, g, y);
    }

    static lemma OnTheBoard(g: Game, y: Ply)
      requires Consistent(g) && y.src in g.men
      ensures OnBoard(y.src)
    {
    }

    method UndoMove(move: Move)
      modifies this
      ensures Value() == move.boardState
    {
      var p := move.boardState;
      placement, isWhitesMove, enPassantSquare := p.placement, p.isWhitesMove, p.enPassantSquare;
      whiteHasRightToCastleKingside := p.whiteHasRightToCastleKingside;
      whiteHasRightToCastleQueenside := p.whiteHasRightToCastleQueenside;
      blackHasRightToCastleKingside := p.blackHasRightToCastleKingside;
      blackHasRightToCastleQueenside := p.blackHasRightToCastleQueenside;
      fiftyMoveClock, numMoves := p.fiftyMoveClock, p.numMoves;
    }

    // Which predicate goes with which move type.
    static lemma KindsOfPlies(g: Game, y: Ply)
      requires Playable(g, y)
      ensures y.kind == Simple ==> y.dst !in g.men
      ensures y.kind == TwoStepPawn ==> PawnDoubleStep(g.men, g.turn, y)
      ensures y.kind == Capture ==> y.src != y.dst
      ensures y.kind == EnPassant ==> TakesInPassing(g.men, g.ep, g.turn, y)
      ensures y.kind == CastleKingside || y.kind == CastleQueenside ==> CastlesKingside(g, y) || CastlesQueenside(g, y)
      ensures IsPromotion(y.kind) ==> Promotes(g.men, g.turn, y)
    {
      hide Attacked;
    }

    static lemma TurnPasses(p: Position, moved: Position, q: Position, g: Game, y: Ply)
      requires y.src in g.men && p.StandsFor(g) && Moved(p, moved, g, y)
      requires q == moved.(isWhitesMove := !moved.isWhitesMove,
                           numMoves := moved.numMoves + if moved.isWhitesMove then 0 else 1)
      ensures q.StandsFor(After(g, y))
    {
      hide Placement.Shows, MenAfter, RightsAfter;
    }

    // The switch of do_move.
    method Dispatch(move: Move, ghost g: Game, ghost y: Ply)
      requires Value().StandsFor(g) && Consistent(g) && Playable(g, y) && Writes(move, g.men, y)
      modifies this
      ensures Moved(old(Value()), Value(), g, y)
    {
      hide Bit, Consistent, Moved, Playable, TakesInPassing, PawnDoubleStep, Promotes, CastlesKingside,
           CastlesQueenside, Position.StandsFor;
      KindsOfPlies(g, y);
      match move.moveType {
        case Simple => DoSimpleMove(move, g, y);
        case TwoStepPawn => DoTwoStepPawnMove(move, g, y);
        case Capture => DoCaptureMove(move, g, y);
        case EnPassant => DoEnPassantMove(move, g, y);
        case CastleKingside => DoCastleMove(move, g, y);
        case CastleQueenside => DoCastleMove(move, g, y);
        case _ => DoPromotionMove(move, g, y);
      }
    }

    // do_move plays every playable ply as the rules of chess do, with no ABSL_RAW_CHECK failing.
    method DoMove(move: Move, ghost g: Game, ghost y: Ply)
      requires Value().StandsFor(g) && Consistent(g) && Playable(g, y) && Writes(move, g.men, y)
      modifies this
      ensures Value().StandsFor(After(g, y))
    {
      hide Bit, Consistent, Bitboard.IsSquare, Bitboard.Any, Moved, Playable, After, Position.StandsFor;
      OnTheBoard(g, y);
      BitIsSquare(y.src);
      BitIsSquare(y.dst);
      assert move.srcSquare.IsSquare() && move.dstSquare.IsSquare();  // ABSL_RAW_CHECK
      Dispatch(move, g, y);
      ghost var moved := Value();
      isWhitesMove := !isWhitesMove;
      numMoves := numMoves + if isWhitesMove then 1 else 0;
      TurnPasses(old(Value()), moved, Value(), g, y);
    }
  }
}
