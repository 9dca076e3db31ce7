/** Legal moves keep a game valid: the invariant on which every unchecked assumption of src/board.cc rests. */
module Invariant {
  import opened Geometry
  import opened Wrappers
  import opened Chess

  lemma LegalIsPlayable(g: Game, y: Ply)
    requires Legal(g, y)
    ensures Playable(g, y)
  {
  }

  // A move either goes to a vacant square or attacks the square it goes to.
  lemma TakesByAttack(g: Game, y: Ply)
    requires Consistent(g) && Playable(g, y) && y.dst in g.men
    ensures Attacks(g.men, y.src, y.dst) && y.src in g.men && g.men[y.src].color == g.turn
    ensures g.men[y.dst].color == Other(g.turn)
    ensures y.kind == Capture || IsPromotion(y.kind)
  {
    hide Slides, Leaps, Touches, Attacked;
    if q :| PieceMove(g.men, g.turn, q, y) {
    } else if PawnMove(g.men, g.ep, g.turn, y) {
    }
  }

  lemma NoKingIsTaken(g: Game, y: Ply)
    requires Valid(g) && Playable(g, y)
    ensures y.dst in g.men ==> g.men[y.dst].piece != King
  {
    hide Attacks, Playable, Consistent;
    if y.dst in g.men {
      TakesByAttack(g, y);
      if g.men[y.dst].piece == King {
        AttackOnKing(g.men, g.turn, y.src, y.dst);
      }
    }
  }

  lemma AttackOnKing(men: Men, c: Color, from: Square, king: Square)
    requires from in men && men[from].color == c && Attacks(men, from, king)
    requires king in men && men[king] == Man(Other(c), King)
    ensures InCheck(men, Other(c))
  {
    hide Attacks;
    assert Attacked(men, c, king);
  }

  // The facts about a playable ply that do not depend on its kind.
  lemma PlyFacts(g: Game, y: Ply)
    requires Valid(g) && Playable(g, y)
    ensures OnBoard(y.src) && OnBoard(y.dst) && y.src != y.dst
    ensures y.src in g.men && g.men[y.src].color == g.turn
    ensures y.dst in g.men ==> g.men[y.dst].color == Other(g.turn) && g.men[y.dst].piece != King
  {
    hide Attacked, InCheck;
    NoKingIsTaken(g, y);
    if y.dst in g.men {
      TakesByAttack(g, y);
    }
    if q :| PieceMove(g.men, g.turn, q, y) {
      AttacksElsewhere(g.men, y.src, y.dst);
    }
  }

  lemma AttacksElsewhere(men: Men, from: Square, to: Square)
    requires Attacks(men, from, to)
    ensures from != to
  {
  }

  lemma PassedPawn(g: Game, y: Ply)
    requires Consistent(g) && TakesInPassing(g.men, g.ep, g.turn, y)
    ensures var taken := Square(y.dst.file, y.src.rank);
            PawnAt(g.men, Other(g.turn), taken) && taken != y.src && taken != y.dst && y.dst !in g.men
  {
    assert Square(y.dst.file, y.src.rank) == Ahead(g.turn, y.dst, -1);
  }

  // --- What a move leaves behind, seen from one square -----------------------------------------------------

  // A plain move: one man goes from src to dst, possibly changing.
  ghost predicate Shift(men: Men, after: Men, src: Square, dst: Square, m: Man) {
    && src in men && src != dst && src !in after && dst in after && after[dst] == m
    && forall s :: s != src && s != dst ==> (s in after <==> s in men) && (s in men ==> after[s] == men[s])
  }

  lemma OrderlyShift(men: Men, after: Men, src: Square, dst: Square, m: Man)
    requires Orderly(men) && Shift(men, after, src, dst, m) && OnBoard(dst)
    requires m.color == men[src].color && (m.piece == King <==> men[src].piece == King)
    requires m.piece == Pawn ==> 1 <= dst.rank <= 6
    requires dst in men ==> men[dst].piece != King
    ensures Orderly(after)
  {
    hide OnBoard;
    OneKingShift(men, after, src, dst, m, White);
    OneKingShift(men, after, src, dst, m, Black);
  }

  lemma OneKingShift(men: Men, after: Men, src: Square, dst: Square, m: Man, c: Color)
    requires OneKing(men, c) && Shift(men, after, src, dst, m)
    requires m.color == men[src].color && (m.piece == King <==> men[src].piece == King)
    requires dst in men ==> men[dst].piece != King
    ensures OneKing(after, c)
  {
    var k :| k in men && men[k] == Man(c, King);
    var k' := if k == src then dst else k;
    assert k' in after && after[k'] == Man(c, King);
  }

  // Removing a man that is not a king.
  lemma OrderlyRemoval(men: Men, s: Square)
    requires Orderly(men) && (s in men ==> men[s].piece != King)
    ensures Orderly(men - {s})
  {
    var after := men - {s};
    var w :| w in men && men[w] == Man(White, King);
    var b :| b in men && men[b] == Man(Black, King);
    assert w in after && after[w] == Man(White, King);
    assert b in after && after[b] == Man(Black, King);
  }

  lemma RelocateIsShift(men: Men, src: Square, dst: Square)
    requires src in men && src != dst
    ensures Shift(men, Relocate(men, src, dst), src, dst, men[src])
  {
  }

  lemma OrderlyAfter(g: Game, y: Ply)
    requires Valid(g) && Playable(g, y)
    ensures y.src in g.men && Orderly(MenAfter(g.men, y))
  {
    hide Valid, Playable, Orderly, MenAfter, CastlesKingside, CastlesQueenside;
    PlyFacts(g, y);
    if y.kind == EnPassant {
      OrderlyAfterPassing(g, y);
    } else if y.kind == CastleKingside || y.kind == CastleQueenside {
      OrderlyAfterCastling(g, y);
    } else {
      OrderlyAfterPlain(g, y);
    }
  }

  lemma ValidIsOrderly(g: Game)
    requires Valid(g)
    ensures Orderly(g.men)
  {
    hide Orderly, InCheck;
  }

  lemma OrderlyAfterPassing(g: Game, y: Ply)
    requires Valid(g) && Playable(g, y) && y.kind == EnPassant
    ensures y.src in g.men && Orderly(MenAfter(g.men, y))
  {
    hide Attacked, InCheck, Orderly, Attacks, Valid;
    PlyFacts(g, y);
    ValidIsOrderly(g);
    ValidIsConsistent(g);
    PassedPawn(g, y);
    PawnRanks(g, y);
    RelocateIsShift(g.men, y.src, y.dst);
    OrderlyShift(g.men, Relocate(g.men, y.src, y.dst), y.src, y.dst, g.men[y.src]);
    OrderlyRemoval(Relocate(g.men, y.src, y.dst), Square(y.dst.file, y.src.rank));
  }

  lemma ValidIsConsistent(g: Game)
    requires Valid(g)
    ensures Consistent(g)
  {
  }

  lemma OrderlyAfterCastling(g: Game, y: Ply)
    requires Valid(g) && Playable(g, y) && (y.kind == CastleKingside || y.kind == CastleQueenside)
    ensures y.src in g.men && Orderly(MenAfter(g.men, y))
  {
    hide Attacked, Orderly, Attacks, Valid;
    PlyFacts(g, y);
    ValidIsOrderly(g);
    var moved := Relocate(g.men, y.src, y.dst);
    var from, to := Square(if y.kind == CastleKingside then 7 else 0, y.src.rank),
                    Square(if y.kind == CastleKingside then 5 else 3, y.src.rank);
    RelocateIsShift(g.men, y.src, y.dst);
    OrderlyShift(g.men, moved, y.src, y.dst, g.men[y.src]);
    RelocateIsShift(moved, from, to);
    OrderlyShift(moved, Relocate(moved, from, to), from, to, moved[from]);
  }

  lemma OrderlyAfterPlain(g: Game, y: Ply)
    requires Valid(g) && Playable(g, y) && y.kind != EnPassant && y.kind != CastleKingside && y.kind != CastleQueenside
    ensures y.src in g.men && Orderly(MenAfter(g.men, y))
  {
    hide Orderly, Valid, Playable;
    PlyFacts(g, y);
    ValidIsOrderly(g);
    PawnRanks(g, y);
    if IsPromotion(y.kind) {
      PromotesPawn(g, y);
    }
    var m := if IsPromotion(y.kind) then Man(g.turn, PromotedPiece(y.kind)) else g.men[y.src];
    assert Shift(g.men, MenAfter(g.men, y), y.src, y.dst, m);
    OrderlyShift(g.men, MenAfter(g.men, y), y.src, y.dst, m);
  }

  lemma PawnRanks(g: Game, y: Ply)
    requires Valid(g) && Playable(g, y) && y.src in g.men
    ensures g.men[y.src].piece == Pawn && !IsPromotion(y.kind) ==> 1 <= y.dst.rank <= 6
  {
    hide Attacked, InCheck, Attacks;
  }

  lemma PromotesPawn(g: Game, y: Ply)
    requires Playable(g, y) && IsPromotion(y.kind)
    ensures y.src in g.men && g.men[y.src] == Man(g.turn, Pawn)
  {
    hide Attacked, Attacks;
  }

  // --- The rest of the invariant ---------------------------------------------------------------------------

  lemma RightsAfterBacked(g: Game, y: Ply)
    requires Valid(g) && Playable(g, y)
    ensures y.src in g.men && RightsBacked(MenAfter(g.men, y), RightsAfter(g.rights, y))
  {
    hide Attacked, InCheck, Attacks, Orderly;
    PlyFacts(g, y);
    var r, men, after := RightsAfter(g.rights, y), g.men, MenAfter(g.men, y);
    if r.whiteKingside { HomeStays(g, y, White, 7); }
    if r.whiteQueenside { HomeStays(g, y, White, 0); }
    if r.blackKingside { HomeStays(g, y, Black, 7); }
    if r.blackQueenside { HomeStays(g, y, Black, 0); }
  }

  lemma HomeStays(g: Game, y: Ply, c: Color, file: int)
    requires Valid(g) && Playable(g, y) && (file == 0 || file == 7)
    requires At(g.men, 4, HomeRank(c), Man(c, King)) && At(g.men, file, HomeRank(c), Man(c, Rook))
    requires y.src != Square(4, HomeRank(c)) && y.src != Square(file, HomeRank(c)) && y.dst != Square(file, HomeRank(c))
    ensures y.src in g.men
    ensures At(MenAfter(g.men, y), 4, HomeRank(c), Man(c, King))
    ensures At(MenAfter(g.men, y), file, HomeRank(c), Man(c, Rook))
  {
    hide Attacked, InCheck, Attacks, Orderly, Consistent, Legal;
    PlyFacts(g, y);
    StaysPut(g, y, Square(4, HomeRank(c)));
    StaysPut(g, y, Square(file, HomeRank(c)));
  }

  // A man that is neither moved nor on the square moved to nor a pawn taken in passing nor a castling rook
  // stays where it is.
  lemma StaysPut(g: Game, y: Ply, s: Square)
    requires Valid(g) && Playable(g, y) && s in g.men && s != y.src && s != y.dst
    requires y.kind == EnPassant ==> g.men[s].piece != Pawn
    requires y.kind == CastleKingside || y.kind == CastleQueenside ==> s.rank != HomeRank(g.turn)
    ensures y.src in g.men && s in MenAfter(g.men, y) && MenAfter(g.men, y)[s] == g.men[s]
  {
    hide Attacked, InCheck, Attacks, Orderly;
    PlyFacts(g, y);
    if y.kind == EnPassant {
      PassedPawn(g, y);
    }
  }

  lemma EpAfterPassed(g: Game, y: Ply)
    requires Valid(g) && Playable(g, y)
    ensures y.src in g.men
    ensures var after := After(g, y); after.ep.Some? ==> PassedOver(after.men, after.turn, after.ep.value)
  {
    hide Valid, Playable, MenAfter, PassedOver, RightsAfter;
    PlyFacts(g, y);
    if y.kind == TwoStepPawn {
      DoubleStepIsPawns(g, y);
      DoubleStepPasses(g, y);
    }
  }

  lemma DoubleStepIsPawns(g: Game, y: Ply)
    requires Playable(g, y) && y.kind == TwoStepPawn
    ensures PawnDoubleStep(g.men, g.turn, y)
  {
    hide Attacks, Attacked;
  }

  lemma DoubleStepPasses(g: Game, y: Ply)
    requires PawnDoubleStep(g.men, g.turn, y) && OnBoard(y.src)
    ensures PassedOver(MenAfter(g.men, y), Other(g.turn), Square(y.src.file, (y.src.rank + y.dst.rank) / 2))
  {
  }

  lemma AfterIsConsistent(g: Game, y: Ply)
    requires Valid(g) && Playable(g, y)
    ensures y.src in g.men && Consistent(After(g, y))
  {
    hide Playable, Orderly, RightsBacked, PassedOver, MenAfter, RightsAfter, Valid;
    OrderlyAfter(g, y);
    RightsAfterBacked(g, y);
    EpAfterPassed(g, y);
  }

  // --- Castling never leaves the king in check -------------------------------------------------------------

  // Seen from a square of rank r, a line that stays on r only at its ends is not changed by castling on r.
  lemma OffRankSlide(men: Men, after: Men, from: Square, d: Direction, to: Square)
    requires Slides(after, from, d, to) && from.rank != to.rank
    requires forall s :: s in men && s !in after ==> s.rank == to.rank
    ensures Slides(men, from, d, to)
  {
    var k :| 0 < k < 8 && to == Along(from, d, k) && Open(after, from, d, k);
    forall j | 0 < j < k
      ensures Along(from, d, j) !in men
    {
    }
    assert Open(men, from, d, k);
  }

  // On the king's rank the castled rook stands on one side of the king and nothing on the other, so only the
  // rook has a line to the king there.
  lemma OnRankSlide(after: Men, from: Square, d: Direction, king: Square, rook: Square)
    requires Slides(after, from, d, king) && from.rank == king.rank == rook.rank
    requires from in after && OnBoard(from) && rook in after
    requires rook.file == king.file + 1 || rook.file == king.file - 1
    requires rook.file < king.file ==> forall f :: king.file < f < 8 ==> Square(f, king.rank) !in after
    requires king.file < rook.file ==> forall f :: 0 <= f < king.file ==> Square(f, king.rank) !in after
    ensures from == rook
  {
    var k :| 0 < k < 8 && king == Along(from, d, k) && Open(after, from, d, k);
    assert from == Square(from.file, king.rank);
    assert k > 1 ==> Along(from, d, k - 1) !in after;
  }

  // The board after castling on rank r: king and rook stand side by side, the rank is vacant beyond the king,
  // and off that rank nothing has changed.
  ghost predicate Castled(men: Men, after: Men, c: Color, king: Square, rook: Square) {
    && king.rank == rook.rank && (rook.file == king.file + 1 || rook.file == king.file - 1)
    && rook in after && after[rook].color == c
    && (forall k :: k in after && after[k] == Man(c, King) ==> k == king)
    && (forall s :: s in men && s !in after ==> s.rank == king.rank)
    && (forall s :: s in after && after[s].color != c ==> s in men && men[s] == after[s])
    && (forall s :: s in after ==> OnBoard(s))
    && (forall f :: (rook.file < king.file && king.file < f < 8) || (king.file < rook.file && 0 <= f < king.file) ==>
                    Square(f, king.rank) !in after)
  }

  lemma CastlingIsCastled(g: Game, y: Ply)
    requires Valid(g) && (CastlesKingside(g, y) || CastlesQueenside(g, y))
    ensures y.src in g.men
    ensures Castled(g.men, MenAfter(g.men, y), g.turn, y.dst,
                    Square(if y.kind == CastleKingside then 5 else 3, HomeRank(g.turn)))
  {
    hide CastlesKingside, CastlesQueenside, Valid, Castled, MenAfter;
    if CastlesKingside(g, y) {
      KingsideIsCastled(g, y);
    } else {
      QueensideIsCastled(g, y);
    }
  }

  lemma KingsideIsCastled(g: Game, y: Ply)
    requires Valid(g) && CastlesKingside(g, y)
    ensures y.src in g.men && y.kind == CastleKingside
    ensures Castled(g.men, MenAfter(g.men, y), g.turn, y.dst, Square(5, HomeRank(g.turn)))
  {
    hide Attacked, InCheck, RightsBacked, PassedOver;
  }

  lemma QueensideIsCastled(g: Game, y: Ply)
    requires Valid(g) && CastlesQueenside(g, y)
    ensures y.src in g.men && y.kind == CastleQueenside
    ensures Castled(g.men, MenAfter(g.men, y), g.turn, y.dst, Square(3, HomeRank(g.turn)))
  {
    hide Attacked, InCheck, RightsBacked, PassedOver;
  }

  // An enemy line to the castled king would have been a line to that square before.
  lemma CastledLine(men: Men, after: Men, c: Color, king: Square, rook: Square, from: Square)
    requires Castled(men, after, c, king, rook)
    requires from in after && after[from].color != c && Attacks(after, from, king)
    ensures Attacked(men, Other(c), king)
  {
    hide Slides, Along, Attacks, Attacked;
    forall d | Slides(after, from, d, king)
      ensures Slides(men, from, d, king)
    {
      if from.rank == king.rank {
        OnRankSlide(after, from, d, king, rook);
      } else {
        OffRankSlide(men, after, from, d, king);
      }
    }
    AttackAgain(men, after, from, king);
  }

  lemma CastledKingIsSafe(g: Game, y: Ply)
    requires Valid(g) && (CastlesKingside(g, y) || CastlesQueenside(g, y))
    ensures y.src in g.men && !InCheck(MenAfter(g.men, y), g.turn)
  {
    hide Orderly, Attacks, MenAfter;
    CastlingIsCastled(g, y);
    var after, enemy := MenAfter(g.men, y), Other(g.turn);
    forall from | from in after && after[from].color == enemy
      ensures !Attacks(after, from, y.dst)
    {
      if Attacks(after, from, y.dst) {
        var rook := Square(if y.kind == CastleKingside then 5 else 3, HomeRank(g.turn));
        CastledLine(g.men, after, g.turn, y.dst, rook, from);
      }
    }
    assert !Attacked(after, enemy, y.dst);
  }

  lemma AttackAgain(men: Men, after: Men, from: Square, to: Square)
    requires Attacks(after, from, to) && from in men && men[from] == after[from]
    requires forall d :: Slides(after, from, d, to) ==> Slides(men, from, d, to)
    ensures Attacked(men, men[from].color, to)
  {
    hide Slides, Leaps, Touches, PawnAttacks, IsDiagonal;
    assert Attacks(men, from, to);
  }

  // --- The invariant ---------------------------------------------------------------------------------------

  // Every legal move leads from a valid game to a valid game.
  lemma LegalKeepsValid(g: Game, y: Ply)
    requires Valid(g) && Legal(g, y)
    ensures y.src in g.men && Valid(After(g, y))
  {
    hide Consistent, InCheck, Pseudolegal, CastlesKingside, CastlesQueenside, MenAfter;
    AfterIsConsistent(g, y);
    if CastlesKingside(g, y) || CastlesQueenside(g, y) {
      CastledKingIsSafe(g, y);
    }
  }

  ghost predicate LegalRun(g: Game, ys: seq<Ply>)
    decreases |ys|
  {
    ys != [] ==> ys[0].src in g.men && Legal(g, ys[0]) && LegalRun(After(g, ys[0]), ys[1..])
  }

  ghost function AfterRun(g: Game, ys: seq<Ply>): Game
    requires LegalRun(g, ys)
    decreases |ys|
  {
    if ys == [] then g else AfterRun(After(g, ys[0]), ys[1..])
  }

  // So does every run of legal moves.
  lemma {:induction false} RunKeepsValid(g: Game, ys: seq<Ply>)
    requires Valid(g) && LegalRun(g, ys)
    ensures Valid(AfterRun(g, ys))
    decreases |ys|
  {
    if ys != [] {
      LegalKeepsValid(g, ys[0]);
      RunKeepsValid(After(g, ys[0]), ys[1..]);
    }
  }
}
