/** What the rules of chess.dfy come to, said again without their auxiliary definitions: in coordinates, by
    diagrams, and in terms of check alone. A slip in a table of the rules that the program repeated would show here. */
module Articles {
  import opened Geometry
  import opened Wrappers
  import opened Bitboards
  import opened Chess
  import opened Positions
  import opened Invariant

  // --- How the men move: Articles 3.2 to 3.8.1 ---------------------------------------------------------------

  function Gap(x: int, y: int): nat {
    if x < y then y - x else x - y
  }

  predicate Inside(x: int, lo: int, hi: int) {
    lo < x < hi || hi < x < lo
  }

  predicate SameDiagonal(s: Square, t: Square) {
    s != t && Gap(s.file, t.file) == Gap(s.rank, t.rank)
  }

  predicate SameLine(s: Square, t: Square) {
    s != t && (s.file == t.file || s.rank == t.rank)
  }

  // u lies strictly between s and t, on their diagonal, file or rank.
  predicate Between(s: Square, u: Square, t: Square) {
    if s.file == t.file then u.file == s.file && Inside(u.rank, s.rank, t.rank)
    else if s.rank == t.rank then u.rank == s.rank && Inside(u.file, s.file, t.file)
    else SameDiagonal(s, u) && SameDiagonal(u, t) && Inside(u.file, s.file, t.file) && Inside(u.rank, s.rank, t.rank)
  }

  ghost predicate Unobstructed(men: Men, s: Square, t: Square) {
    forall u :: Between(s, u, t) ==> u !in men
  }

  lemma AlongIsBetween(s: Square, d: Direction, j: int, k: int)
    requires 0 < j < k
    ensures Between(s, Along(s, d, j), Along(s, d, k))
  {
  }

  lemma BetweenIsAlong(s: Square, u: Square, d: Direction, k: int) returns (j: int)
    requires 0 < k && Between(s, u, Along(s, d, k))
    ensures 0 < j < k && u == Along(s, d, j)
  {
    j := if Gap(s.file, u.file) > 0 then Gap(s.file, u.file) else Gap(s.rank, u.rank);
  }

  lemma OpenMeaning(men: Men, s: Square, d: Direction, k: int)
    requires 0 < k
    ensures Open(men, s, d, k) <==> Unobstructed(men, s, Along(s, d, k))
  {
    hide Along, Between;
    if Open(men, s, d, k) {
      forall u | Between(s, u, Along(s, d, k))
        ensures u !in men
      {
        var j := BetweenIsAlong(s, u, d, k);
      }
    }
    if Unobstructed(men, s, Along(s, d, k)) {
      forall j | 0 < j < k
        ensures Along(s, d, j) !in men
      {
        AlongIsBetween(s, d, j, k);
      }
    }
  }

  // The direction and the distance from one square to another on a common line.
  lemma LineBetween(s: Square, t: Square) returns (d: Direction, k: int)
    requires OnBoard(s) && OnBoard(t) && (SameDiagonal(s, t) || SameLine(s, t))
    ensures 0 < k < 8 && t == Along(s, d, k) && (IsDiagonal(d) <==> SameDiagonal(s, t))
  {
    k := if Gap(s.file, t.file) > 0 then Gap(s.file, t.file) else Gap(s.rank, t.rank);
    d := if s.file == t.file then (if s.rank < t.rank then North else South)
         else if s.rank == t.rank then (if s.file < t.file then East else West)
         else if s.rank < t.rank then (if s.file < t.file then Northeast else Northwest)
         else if s.file < t.file then Southeast else Southwest;
  }

  lemma AlongIsLine(s: Square, d: Direction, k: int)
    requires 0 < k
    ensures if IsDiagonal(d) then SameDiagonal(s, Along(s, d, k)) else SameLine(s, Along(s, d, k))
    ensures !(SameDiagonal(s, Along(s, d, k)) && SameLine(s, Along(s, d, k)))
  {
  }

  // A line piece reaches a square exactly along an unobstructed diagonal, file or rank.
  lemma SlidesMeaning(men: Men, s: Square, t: Square)
    requires OnBoard(s) && OnBoard(t)
    ensures (exists d :: IsDiagonal(d) && Slides(men, s, d, t)) <==> SameDiagonal(s, t) && Unobstructed(men, s, t)
    ensures (exists d :: !IsDiagonal(d) && Slides(men, s, d, t)) <==> SameLine(s, t) && Unobstructed(men, s, t)
  {
    hide Along, Open, Unobstructed, SameDiagonal, SameLine, IsDiagonal;
    forall d | Slides(men, s, d, t)
      ensures Unobstructed(men, s, t) && if IsDiagonal(d) then SameDiagonal(s, t) else SameLine(s, t)
    {
      var k :| 0 < k < 8 && t == Along(s, d, k) && Open(men, s, d, k);
      OpenMeaning(men, s, d, k);
      AlongIsLine(s, d, k);
    }
    if (SameDiagonal(s, t) || SameLine(s, t)) && Unobstructed(men, s, t) {
      var d, k := LineBetween(s, t);
      OpenMeaning(men, s, d, k);
      AlongIsLine(s, d, k);
      assert Slides(men, s, d, t);
    }
  }

  // What each kind of man attacks.
  lemma AttacksMeaning(men: Men, s: Square, t: Square)
    requires s in men && OnBoard(s) && OnBoard(t)
    ensures var df, dr := Gap(s.file, t.file), Gap(s.rank, t.rank);
            Attacks(men, s, t) <==>
            match men[s].piece
            case Rook => s != t && (df == 0 || dr == 0) && Unobstructed(men, s, t)
            case Bishop => s != t && df == dr && Unobstructed(men, s, t)
            case Queen => s != t && (df == 0 || dr == 0 || df == dr) && Unobstructed(men, s, t)
            case Knight => (df, dr) in {(1, 2), (2, 1)}
            case King => (df, dr) in {(0, 1), (1, 0), (1, 1)}
            case Pawn => df == 1 && t.rank == (if men[s].color == White then s.rank + 1 else s.rank - 1)
  {
    hide Slides, Unobstructed, IsDiagonal;
    SlidesMeaning(men, s, t);
    if d :| Slides(men, s, d, t) {
      assert IsDiagonal(d) || !IsDiagonal(d);
    }
  }

  // The moves of a pawn: one step or two, captures, promotions on the last rank, and captures in passing.
  lemma WhitePawnMeaning(men: Men, ep: Option<Square>, y: Ply)
    requires y.src in men && men[y.src] == Man(White, Pawn) && 1 <= y.src.rank <= 6 && OnBoard(y.dst)
    ensures var s, t := y.src, y.dst;
            var steps := t == Square(s.file, s.rank + 1) && t !in men;
            var slants := t.rank == s.rank + 1 && Gap(s.file, t.file) == 1;
            var takes := slants && t in men && men[t].color == Black;
            PawnMove(men, ep, White, y) <==>
            match y.kind
            case Simple => steps && t.rank < 7
            case Capture => takes && t.rank < 7
            case TwoStepPawn => s.rank == 1 && t == Square(s.file, 3) && Square(s.file, 2) !in men && t !in men
            case EnPassant => slants && ep == Some(t)
            case CastleKingside => false
            case CastleQueenside => false
            case _ => (steps || takes) && t.rank == 7
  {
  }

  lemma BlackPawnMeaning(men: Men, ep: Option<Square>, y: Ply)
    requires y.src in men && men[y.src] == Man(Black, Pawn) && 1 <= y.src.rank <= 6 && OnBoard(y.dst)
    ensures var s, t := y.src, y.dst;
            var steps := t == Square(s.file, s.rank - 1) && t !in men;
            var slants := t.rank == s.rank - 1 && Gap(s.file, t.file) == 1;
            var takes := slants && t in men && men[t].color == White;
            PawnMove(men, ep, Black, y) <==>
            match y.kind
            case Simple => steps && t.rank > 0
            case Capture => takes && t.rank > 0
            case TwoStepPawn => s.rank == 6 && t == Square(s.file, 4) && Square(s.file, 5) !in men && t !in men
            case EnPassant => slants && ep == Some(t)
            case CastleKingside => false
            case CastleQueenside => false
            case _ => (steps || takes) && t.rank == 0
  {
  }

  // Every other man goes where it attacks, to a vacant square or, taking, to an enemy's.
  lemma OtherMenMeaning(men: Men, ep: Option<Square>, c: Color, y: Ply)
    requires y.src in men && men[y.src].color == c && men[y.src].piece != Pawn
    ensures Pseudolegal(men, ep, c, y) <==>
            && Attacks(men, y.src, y.dst)
            && ((y.kind == Simple && y.dst !in men) || (y.kind == Capture && y.dst in men && men[y.dst].color != c))
  {
    hide Attacks;
    assert PieceMove(men, c, men[y.src].piece, y) ==> Pseudolegal(men, ep, c, y);
  }

  // A pawn has its own moves only, and nobody moves a man of the other colour or from a vacant square.
  lemma MoverMeaning(men: Men, ep: Option<Square>, c: Color, y: Ply)
    ensures Pseudolegal(men, ep, c, y) ==> y.src in men && men[y.src].color == c
    ensures y.src in men && men[y.src] == Man(c, Pawn) ==> (Pseudolegal(men, ep, c, y) <==> PawnMove(men, ep, c, y))
  {
    hide Attacks;
    if p :| PieceMove(men, c, p, y) {
      assert men[y.src] == Man(c, p) && p != Pawn;
    }
  }

  // The king is in check when a man of the other colour attacks it.
  lemma CheckMeaning(men: Men, c: Color)
    ensures InCheck(men, c) <==>
            exists k, from :: k in men && men[k] == Man(c, King) && from in men && men[from].color != c &&
                              Attacks(men, from, k)
  {
    hide Attacks;
    if k, from :| k in men && men[k] == Man(c, King) && from in men && men[from].color != c && Attacks(men, from, k) {
      assert Attacked(men, Other(c), k);
    }
  }

  // A move other than castling is legal exactly when the man may so move and its own king is not in check afterwards.
  lemma LegalMeaning(g: Game, y: Ply)
    requires Valid(g) && y.kind != CastleKingside && y.kind != CastleQueenside
    ensures y in LegalPlies(g) <==>
            && Pseudolegal(g.men, g.ep, g.turn, y) && y.src in g.men && !InCheck(After(g, y).men, g.turn)
  {
    hide InCheck, Attacks, Attacked, MenAfter, RightsBacked, PassedOver, OneKing;
    InAllPlies(y);
    MoverMeaning(g.men, g.ep, g.turn, y);
    if Pseudolegal(g.men, g.ep, g.turn, y) {
      StaysOnBoard(g, y);
    }
  }

  lemma StaysOnBoard(g: Game, y: Ply)
    requires Valid(g) && Pseudolegal(g.men, g.ep, g.turn, y)
    ensures OnBoard(y.src) && OnBoard(y.dst)
  {
    hide InCheck, Slides, Leaps, Touches, RightsBacked, PassedOver, OneKing;
  }

  // --- Castling: Article 3.8.2 -----------------------------------------------------------------------------

  // A king that is not attacked may step to a vacant square in the same cases in which that square is not attacked:
  // a line to it that the king leaves open would have been a line to the king.
  lemma SteppingKing(men: Men, c: Color, e: Square, t: Square)
    requires OneKing(men, c) && e in men && men[e] == Man(c, King) && OnBoard(e) && t !in men
    requires !Attacked(men, Other(c), e)
    ensures InCheck(Relocate(men, e, t), c) <==> Attacked(men, Other(c), t)
  {
    hide Attacks, Slides;
    var moved, enemy := Relocate(men, e, t), Other(c);
    assert moved[t] == Man(c, King);
    forall k | k in moved && moved[k] == Man(c, King)
      ensures k == t
    {
    }
    forall from | from in moved && moved[from].color == enemy
      ensures from in men && men[from] == moved[from] && (Attacks(moved, from, t) <==> Attacks(men, from, t))
    {
      assert !Attacks(men, from, e);
      SameAttack(men, moved, from, e, t);
    }
    if Attacked(men, enemy, t) {
      var from :| from in men && men[from].color == enemy && Attacks(men, from, t);
      assert from in moved && moved[from].color == enemy;
    }
  }

  lemma SameAttack(men: Men, moved: Men, from: Square, e: Square, t: Square)
    requires e in men && t !in men && OnBoard(e) && moved.Keys == men.Keys - {e} + {t}
    requires from in men && from in moved && men[from] == moved[from] && !Attacks(men, from, e)
    ensures Attacks(moved, from, t) <==> Attacks(men, from, t)
  {
    hide Slides, Touches, Leaps, PawnAttacks, IsDiagonal;
    forall d
      ensures Slides(men, from, d, t) ==> Slides(moved, from, d, t)
      ensures Slides(moved, from, d, t) && !Slides(men, from, d, t) ==> Slides(men, from, d, e)
    {
      SameLineOfAttack(men, moved, from, e, t, d);
    }
  }

  lemma SameLineOfAttack(men: Men, moved: Men, from: Square, e: Square, t: Square, d: Direction)
    requires e in men && t !in men && OnBoard(e) && moved.Keys == men.Keys - {e} + {t}
    ensures Slides(men, from, d, t) ==> Slides(moved, from, d, t)
    ensures Slides(moved, from, d, t) && !Slides(men, from, d, t) ==> Slides(men, from, d, e)
  {
    hide Along;
    if k :| 0 < k < 8 && t == Along(from, d, k) && OnBoard(t) {
      forall j | 0 < j < k
        ensures Along(from, d, j) != t
      {
        if Along(from, d, j) == t {
          RaysAreDisjoint(from, d, d, j, k);
        }
      }
      if Open(men, from, d, k) {
        assert Open(moved, from, d, k);
      } else if Open(moved, from, d, k) {
        var j :| 0 < j < k && Along(from, d, j) in men;
        assert Along(from, d, j) == e;
        forall i | 0 < i < j
          ensures Along(from, d, i) !in men
        {
          if Along(from, d, i) in men {
            assert Along(from, d, i) == e;
            RaysAreDisjoint(from, d, d, i, j);
          }
        }
        assert Open(men, from, d, j);
      }
    }
  }

  // Castling kingside is legal exactly when the right stands, the squares between king and rook are vacant, and the
  // king is not in check where it stands, where it passes and where it arrives.
  lemma KingsideCastlingMeaning(g: Game, y: Ply)
    requires Valid(g) && y.kind == CastleKingside
    ensures var r := if g.turn == White then 0 else 7;
            var king := Square(4, r);
            y in LegalPlies(g) <==>
            && y == Ply(king, Square(6, r), CastleKingside)
            && (if g.turn == White then g.rights.whiteKingside else g.rights.blackKingside)
            && Square(5, r) !in g.men && Square(6, r) !in g.men
            && king in g.men && !InCheck(g.men, g.turn)
            && !InCheck(Relocate(g.men, king, Square(5, r)), g.turn)
            && !InCheck(Relocate(g.men, king, Square(6, r)), g.turn)
  {
    hide Attacked, InCheck, PassedOver, Relocate, MenAfter;
    NoOtherCastling(g, y);
    var r := HomeRank(g.turn);
    if KingsideRight(g.rights, g.turn) && Square(5, r) !in g.men && Square(6, r) !in g.men {
      SafeStepsMeaning(g, 5, 6);
    }
    InAllPlies(y);
  }

  lemma QueensideCastlingMeaning(g: Game, y: Ply)
    requires Valid(g) && y.kind == CastleQueenside
    ensures var r := if g.turn == White then 0 else 7;
            var king := Square(4, r);
            y in LegalPlies(g) <==>
            && y == Ply(king, Square(2, r), CastleQueenside)
            && (if g.turn == White then g.rights.whiteQueenside else g.rights.blackQueenside)
            && Square(1, r) !in g.men && Square(2, r) !in g.men && Square(3, r) !in g.men
            && king in g.men && !InCheck(g.men, g.turn)
            && !InCheck(Relocate(g.men, king, Square(3, r)), g.turn)
            && !InCheck(Relocate(g.men, king, Square(2, r)), g.turn)
  {
    hide Attacked, InCheck, PassedOver, Relocate, MenAfter;
    NoOtherCastling(g, y);
    var r := HomeRank(g.turn);
    if QueensideRight(g.rights, g.turn) && Square(3, r) !in g.men && Square(2, r) !in g.men {
      SafeStepsMeaning(g, 3, 2);
    }
    InAllPlies(y);
  }

  lemma InAllPlies(y: Ply)
    ensures y in AllPlies() <==> OnBoard(y.src) && OnBoard(y.dst)
  {
    assert y.src in AllSquares() <==> OnBoard(y.src);
    assert y.dst in AllSquares() <==> OnBoard(y.dst);
  }

  lemma NoOtherCastling(g: Game, y: Ply)
    requires y.kind == CastleKingside || y.kind == CastleQueenside
    ensures !Pseudolegal(g.men, g.ep, g.turn, y)
  {
    hide Attacks;
  }

  lemma SafeStepsMeaning(g: Game, near: int, far: int)
    requires Valid(g) && At(g.men, 4, HomeRank(g.turn), Man(g.turn, King))
    requires 0 <= near < 8 && 0 <= far < 8
    requires Square(near, HomeRank(g.turn)) !in g.men && Square(far, HomeRank(g.turn)) !in g.men
    ensures var r, c := HomeRank(g.turn), g.turn;
            var king, enemy := Square(4, r), Other(c);
            (!InCheck(g.men, c) && !InCheck(Relocate(g.men, king, Square(near, r)), c) &&
             !InCheck(Relocate(g.men, king, Square(far, r)), c)) <==>
            (!Attacked(g.men, enemy, king) && !Attacked(g.men, enemy, Square(near, r)) &&
             !Attacked(g.men, enemy, Square(far, r)))
  {
    hide Attacked, RightsBacked, PassedOver, Relocate;
    var r, enemy := HomeRank(g.turn), Other(g.turn);
    var king := Square(4, r);
    assert InCheck(g.men, g.turn) <==> Attacked(g.men, enemy, king) by {
      assert OneKing(g.men, g.turn) && g.men[king] == Man(g.turn, King);
    }
    if !Attacked(g.men, enemy, king) {
      SteppingKing(g.men, g.turn, king, Square(near, r));
      SteppingKing(g.men, g.turn, king, Square(far, r));
    }
  }

  // --- What a move changes -----------------------------------------------------------------------------------

  // The squares change as listed, and no other does; None is a vacant square.
  ghost predicate Changes(men: Men, after: Men, changed: map<Square, Option<Man>>) {
    forall s :: if s in changed
                then (match changed[s] case None => s !in after case Some(m) => s in after && after[s] == m)
                else (s in after <==> s in men) && (s in men ==> after[s] == men[s])
  }

  function ChangedBy(g: Game, y: Ply): map<Square, Option<Man>>
    requires y.src in g.men
  {
    var c, r, vacated := g.turn, if g.turn == White then 0 else 7, map[y.src := None];
    match y.kind
    case Simple => vacated[y.dst := Some(g.men[y.src])]
    case TwoStepPawn => vacated[y.dst := Some(g.men[y.src])]
    case Capture => vacated[y.dst := Some(g.men[y.src])]
    case EnPassant => vacated[y.dst := Some(g.men[y.src])][Square(y.dst.file, if c == White then 4 else 3) := None]
    case CastleKingside =>
      map[Square(4, r) := None, Square(5, r) := Some(Man(c, Rook)),
          Square(6, r) := Some(Man(c, King)), Square(7, r) := None]
    case CastleQueenside =>
      map[Square(4, r) := None, Square(3, r) := Some(Man(c, Rook)),
          Square(2, r) := Some(Man(c, King)), Square(0, r) := None]
    case PromotionToQueen => vacated[y.dst := Some(Man(c, Queen))]
    case PromotionToRook => vacated[y.dst := Some(Man(c, Rook))]
    case PromotionToBishop => vacated[y.dst := Some(Man(c, Bishop))]
    case PromotionToKnight => vacated[y.dst := Some(Man(c, Knight))]
  }

  // A move takes its man to the target, whatever stood there, and vacates its square. En passant moreover takes
  // the pawn beside it, castling moves the rook to the square the king has passed, and a promoted pawn becomes the
  // piece that the move names. Nothing else changes.
  lemma MenAfterMeaning(g: Game, y: Ply)
    requires Valid(g) && Legal(g, y)
    ensures y.src in g.men && g.men[y.src].color == g.turn
    ensures var c, r, vacated := g.turn, if g.turn == White then 0 else 7, map[y.src := None];
            var changed :=
              match y.kind
              case Simple => vacated[y.dst := Some(g.men[y.src])]
              case TwoStepPawn => vacated[y.dst := Some(g.men[y.src])]
              case Capture => vacated[y.dst := Some(g.men[y.src])]
              case EnPassant =>
                vacated[y.dst := Some(g.men[y.src])][Square(y.dst.file, if c == White then 4 else 3) := None]
              case CastleKingside =>
                map[Square(4, r) := None, Square(5, r) := Some(Man(c, Rook)),
                    Square(6, r) := Some(Man(c, King)), Square(7, r) := None]
              case CastleQueenside =>
                map[Square(4, r) := None, Square(3, r) := Some(Man(c, Rook)),
                    Square(2, r) := Some(Man(c, King)), Square(0, r) := None]
              case PromotionToQueen => vacated[y.dst := Some(Man(c, Queen))]
              case PromotionToRook => vacated[y.dst := Some(Man(c, Rook))]
              case PromotionToBishop => vacated[y.dst := Some(Man(c, Bishop))]
              case PromotionToKnight => vacated[y.dst := Some(Man(c, Knight))];
            forall s :: if s in changed
                        then (match changed[s]
                              case None => s !in After(g, y).men
                              case Some(m) => s in After(g, y).men && After(g, y).men[s] == m)
                        else (s in After(g, y).men <==> s in g.men) && (s in g.men ==> After(g, y).men[s] == g.men[s])
  {
    ChangesOfMove(g, y);
    hide Valid, Legal, After;
  }

  lemma ChangesOfMove(g: Game, y: Ply)
    requires Valid(g) && Legal(g, y)
    ensures y.src in g.men && g.men[y.src].color == g.turn
    ensures Changes(g.men, After(g, y).men, ChangedBy(g, y))
  {
    hide InCheck, Valid, Legal, Changes, MenAfter, ChangedBy;
    LegalIsPlayable(g, y);
    LegalMovesOwn(g, y);
    if y.kind == CastleKingside || y.kind == CastleQueenside {
      CastlingChanges(g, y);
    } else {
      OtherChanges(g, y);
    }
  }

  lemma LegalMovesOwn(g: Game, y: Ply)
    requires Legal(g, y)
    ensures y.src in g.men && g.men[y.src].color == g.turn
  {
    hide Attacks, Attacked, InCheck;
  }

  lemma CastlingChanges(g: Game, y: Ply)
    requires Valid(g) && Legal(g, y) && (y.kind == CastleKingside || y.kind == CastleQueenside) && y.src in g.men
    ensures Changes(g.men, After(g, y).men, ChangedBy(g, y))
  {
    hide Attacked, InCheck, Valid, Pseudolegal;
    NoOtherCastling(g, y);
  }

  lemma OtherChanges(g: Game, y: Ply)
    requires Valid(g) && Legal(g, y) && y.kind != CastleKingside && y.kind != CastleQueenside && y.src in g.men
    ensures Changes(g.men, After(g, y).men, ChangedBy(g, y))
  {
    hide Attacked, Attacks, InCheck, RightsBacked, OneKing;
  }

  // What stands on the target after a promotion, and what it attacks from there.
  lemma PromotionMeaning(g: Game, y: Ply)
    requires Valid(g) && Legal(g, y) && y.src in g.men
    ensures var after := After(g, y).men;
            && (y.kind == PromotionToQueen ==> y.dst in after && after[y.dst] == Man(g.turn, Queen))
            && (y.kind == PromotionToRook ==> y.dst in after && after[y.dst] == Man(g.turn, Rook))
            && (y.kind == PromotionToBishop ==> y.dst in after && after[y.dst] == Man(g.turn, Bishop))
            && (y.kind == PromotionToKnight ==> y.dst in after && after[y.dst] == Man(g.turn, Knight))
    ensures y.kind == PromotionToKnight ==>
              forall t :: OnBoard(t) ==>
                            (Attacks(After(g, y).men, y.dst, t) <==>
                             (Gap(y.dst.file, t.file), Gap(y.dst.rank, t.rank)) in {(1, 2), (2, 1)})
  {
    hide Valid, Legal, After, Attacks;
    ChangesOfMove(g, y);
    if y.kind == PromotionToKnight {
      var after := After(g, y).men;
      assert after[y.dst] == Man(g.turn, Knight);
      forall t | OnBoard(t)
        ensures Attacks(after, y.dst, t) <==> (Gap(y.dst.file, t.file), Gap(y.dst.rank, t.rank)) in {(1, 2), (2, 1)}
      {
        PromotesOnBoard(g, y);
        AttacksMeaning(after, y.dst, t);
      }
    }
  }

  lemma PromotesOnBoard(g: Game, y: Ply)
    requires Legal(g, y) && IsPromotion(y.kind)
    ensures OnBoard(y.dst)
  {
    hide Attacks, InCheck, Attacked;
  }

  // The bitboard in which a Board that has made a promotion shows the new man.
  lemma PromotedBitboard(p: Position, g: Game, y: Ply)
    requires Valid(g) && Legal(g, y) && y.src in g.men && p.StandsFor(After(g, y))
    ensures y.kind == PromotionToQueen ==>
              Has(if g.turn == White then p.placement.whiteQueens else p.placement.blackQueens, y.dst)
    ensures y.kind == PromotionToRook ==>
              Has(if g.turn == White then p.placement.whiteRooks else p.placement.blackRooks, y.dst)
    ensures y.kind == PromotionToBishop ==>
              Has(if g.turn == White then p.placement.whiteBishops else p.placement.blackBishops, y.dst)
    ensures y.kind == PromotionToKnight ==>
              Has(if g.turn == White then p.placement.whiteKnights else p.placement.blackKnights, y.dst)
  {
    hide Valid, Legal, After, Has;
    ChangesOfMove(g, y);
    var after := After(g, y).men;
    assert IsPromotion(y.kind) ==> y.dst in after && Has(p.placement.Of(after[y.dst]), y.dst);
  }

  // The e.p. square is the one that a pawn has just passed over, in the middle of the board, and lasts for one move.
  lemma EpMeaning(g: Game, y: Ply)
    requires Valid(g) && Legal(g, y) && y.src in g.men
    ensures After(g, y).ep == if y.kind != TwoStepPawn then None
                              else if g.turn == White then Some(Square(y.dst.file, 2)) else Some(Square(y.dst.file, 5))
  {
    hide Attacked, InCheck, Attacks, MenAfter;
  }

  // --- A game as a whole ---------------------------------------------------------------------------------------

  // Nothing has left either square, and nothing has arrived on the rook's.
  predicate Undisturbed(ys: seq<Ply>, king: Square, rook: Square) {
    forall y :: y in ys ==> y.src != king && y.src != rook && y.dst != rook
  }

  // After a run of moves: whose turn it is, the number of the move, and the castling rights, each of which stands
  // exactly when it stood at the beginning and its king and rook have not been disturbed.
  lemma {:induction false} RunMeaning(g: Game, ys: seq<Ply>)
    requires LegalRun(g, ys)
    ensures var e := AfterRun(g, ys);
            && e.turn == (if |ys| % 2 == 0 then g.turn else Other(g.turn))
            && e.number == g.number + (|ys| + if g.turn == Black then 1 else 0) / 2 && e.clock == g.clock
            && e.rights == Rights(
                             g.rights.whiteKingside && Undisturbed(ys, Square(4, 0), Square(7, 0)),
                             g.rights.whiteQueenside && Undisturbed(ys, Square(4, 0), Square(0, 0)),
                             g.rights.blackKingside && Undisturbed(ys, Square(4, 7), Square(7, 7)),
                             g.rights.blackQueenside && Undisturbed(ys, Square(4, 7), Square(0, 7)))
    decreases |ys|
  {
    hide Legal, After, KeepsRight, Undisturbed;
    if ys == [] {
      UndisturbedAtFirst();
    } else {
      RunMeaning(After(g, ys[0]), ys[1..]);
      OneMove(g, ys[0]);
      UndisturbedNext(ys, Square(4, 0), Square(7, 0));
      UndisturbedNext(ys, Square(4, 0), Square(0, 0));
      UndisturbedNext(ys, Square(4, 7), Square(7, 7));
      UndisturbedNext(ys, Square(4, 7), Square(0, 7));
    }
  }

  lemma OneMove(g: Game, y: Ply)
    requires y.src in g.men
    ensures var e := After(g, y);
            && e.turn == Other(g.turn) && e.clock == g.clock
            && e.number == g.number + (if g.turn == Black then 1 else 0)
            && e.rights == Rights(
                             g.rights.whiteKingside && Undisturbed([y], Square(4, 0), Square(7, 0)),
                             g.rights.whiteQueenside && Undisturbed([y], Square(4, 0), Square(0, 0)),
                             g.rights.blackKingside && Undisturbed([y], Square(4, 7), Square(7, 7)),
                             g.rights.blackQueenside && Undisturbed([y], Square(4, 7), Square(0, 7)))
  {
    hide MenAfter;
    assert y in [y];
  }

  lemma UndisturbedAtFirst()
    ensures forall king, rook :: Undisturbed([], king, rook)
  {
  }

  lemma UndisturbedNext(ys: seq<Ply>, king: Square, rook: Square)
    requires ys != []
    ensures Undisturbed(ys, king, rook) <==> Undisturbed([ys[0]], king, rook) && Undisturbed(ys[1..], king, rook)
  {
    assert ys == [ys[0]] + ys[1..];
  }
}
