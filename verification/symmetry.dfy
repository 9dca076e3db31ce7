/** Colour symmetry: turning the board upside down and exchanging the colours changes nothing that matters.
    The generators of src/board.cc repeat their code once per colour; with the refinement theorems this shows
    the two copies to agree. */
module Symmetry {
  import opened Geometry
  import opened Wrappers
  import opened Chess
  import opened Invariant
  import opened GameTree
  import opened Legality

  function MirrorSquare(s: Square): Square {
    Square(s.file, 7 - s.rank)
  }

  function MirrorMan(m: Man): Man {
    Man(Other(m.color), m.piece)
  }

  function MirrorPly(y: Ply): Ply {
    Ply(MirrorSquare(y.src), MirrorSquare(y.dst), y.kind)
  }

  function MirrorRights(r: Rights): Rights {
    Rights(r.blackKingside, r.blackQueenside, r.whiteKingside, r.whiteQueenside)
  }

  function MirrorDirection(d: Direction): Direction {
    match d
    case North => South
    case South => North
    case East => East
    case West => West
    case Northeast => Southeast
    case Northwest => Southwest
    case Southeast => Northeast
    case Southwest => Northwest
  }

  // `other` shows the same men turned upside down with their colours exchanged.
  ghost predicate MirrorMen(men: Men, other: Men) {
    forall s {:trigger s in men} ::
      (s in men <==> MirrorSquare(s) in other) && (s in men ==> other[MirrorSquare(s)] == MirrorMan(men[s]))
  }

  // Move numbers are not compared: they advance after Black's moves only.
  ghost predicate Mirrors(g: Game, h: Game) {
    && MirrorMen(g.men, h.men)
    && h.turn == Other(g.turn)
    && h.rights == MirrorRights(g.rights)
    && (match g.ep
        case None => h.ep == None
        case Some(e) => h.ep == Some(MirrorSquare(e)))
  }

  // The men turned upside down, and the game.
  ghost function MirrorBoard(men: Men): Men {
    map s | s in (set t | t in men :: MirrorSquare(t)) :: MirrorMan(men[MirrorSquare(s)])
  }

  ghost function MirrorGame(g: Game): Game {
    Game(MirrorBoard(g.men), Other(g.turn), if g.ep.Some? then Some(MirrorSquare(g.ep.value)) else None,
         MirrorRights(g.rights), g.clock, g.number)
  }

  // Every game has a mirror image.
  lemma MirrorGameMirrors(g: Game)
    ensures Mirrors(g, MirrorGame(g))
  {
    forall s
      ensures s in g.men <==> MirrorSquare(s) in MirrorBoard(g.men)
    {
      if MirrorSquare(s) in MirrorBoard(g.men) {
        var t :| t in g.men && MirrorSquare(t) == MirrorSquare(s);
        assert t == s;
      }
    }
  }

  lemma MirrorTwice(s: Square)
    ensures MirrorSquare(MirrorSquare(s)) == s
  {
  }

  lemma MirrorMenBack(men: Men, other: Men)
    requires MirrorMen(men, other)
    ensures MirrorMen(other, men)
  {
    hide MirrorSquare;
    forall s
      ensures s in other <==> MirrorSquare(s) in men
      ensures s in other ==> men[MirrorSquare(s)] == MirrorMan(other[s])
    {
      MirrorTwice(s);
      assert MirrorSquare(s) in men <==> s in other;
    }
  }

  lemma MirrorBack(g: Game, h: Game)
    requires Mirrors(g, h)
    ensures Mirrors(h, g)
  {
    hide MirrorMen, MirrorSquare;
    MirrorMenBack(g.men, h.men);
    if g.ep.Some? {
      MirrorTwice(g.ep.value);
    }
  }

  // --- Attacks ---------------------------------------------------------------------------------------------

  lemma AlongMirror(s: Square, d: Direction, k: int)
    ensures MirrorSquare(Along(s, d, k)) == Along(MirrorSquare(s), MirrorDirection(d), k)
  {
  }

  lemma SlidesMirror(men: Men, other: Men, from: Square, d: Direction, to: Square)
    requires MirrorMen(men, other) && Slides(men, from, d, to)
    ensures Slides(other, MirrorSquare(from), MirrorDirection(d), MirrorSquare(to))
  {
    hide Along;
    var k :| 0 < k < 8 && to == Along(from, d, k) && Open(men, from, d, k);
    AlongMirror(from, d, k);
    forall j | 0 < j < k
      ensures Along(MirrorSquare(from), MirrorDirection(d), j) !in other
    {
      AlongMirror(from, d, j);
      assert Along(from, d, j) !in men;
    }
    assert Open(other, MirrorSquare(from), MirrorDirection(d), k);
  }

  lemma AttacksMirror(men: Men, other: Men, from: Square, to: Square)
    requires MirrorMen(men, other) && Attacks(men, from, to)
    ensures Attacks(other, MirrorSquare(from), MirrorSquare(to))
  {
    hide Slides;
    forall d | Slides(men, from, d, to)
      ensures Slides(other, MirrorSquare(from), MirrorDirection(d), MirrorSquare(to))
      ensures IsDiagonal(MirrorDirection(d)) <==> IsDiagonal(d)
    {
      SlidesMirror(men, other, from, d, to);
    }
  }

  lemma AttackedMirrored(men: Men, other: Men, c: Color, s: Square)
    requires MirrorMen(men, other) && Attacked(men, c, s)
    ensures Attacked(other, Other(c), MirrorSquare(s))
  {
    hide Attacks, MirrorSquare;
    var from :| from in men && men[from].color == c && Attacks(men, from, s);
    AttacksMirror(men, other, from, s);
  }

  lemma AttackedMirror(men: Men, other: Men, c: Color, s: Square)
    requires MirrorMen(men, other)
    ensures Attacked(men, c, s) <==> Attacked(other, Other(c), MirrorSquare(s))
  {
    hide Attacked, MirrorMen, MirrorSquare;
    if Attacked(men, c, s) {
      AttackedMirrored(men, other, c, s);
    }
    if Attacked(other, Other(c), MirrorSquare(s)) {
      MirrorMenBack(men, other);
      AttackedMirrored(other, men, Other(c), MirrorSquare(s));
      MirrorTwice(s);
    }
  }

  lemma InCheckMirrored(men: Men, other: Men, c: Color)
    requires MirrorMen(men, other) && InCheck(men, c)
    ensures InCheck(other, Other(c))
  {
    hide Attacked, MirrorSquare;
    var k :| k in men && men[k] == Man(c, King) && Attacked(men, Other(c), k);
    AttackedMirrored(men, other, Other(c), k);
  }

  lemma InCheckMirror(men: Men, other: Men, c: Color)
    requires MirrorMen(men, other)
    ensures InCheck(men, c) <==> InCheck(other, Other(c))
  {
    hide InCheck, MirrorMen;
    if InCheck(men, c) {
      InCheckMirrored(men, other, c);
    }
    if InCheck(other, Other(c)) {
      MirrorMenBack(men, other);
      InCheckMirrored(other, men, Other(c));
    }
  }

  // --- Moves -----------------------------------------------------------------------------------------------

  lemma PieceMoveMirror(men: Men, other: Men, c: Color, p: Piece, y: Ply)
    requires MirrorMen(men, other) && PieceMove(men, c, p, y)
    ensures PieceMove(other, Other(c), p, MirrorPly(y))
  {
    hide Attacks, MirrorSquare;
    AttacksMirror(men, other, y.src, y.dst);
    assert y.dst in men <==> MirrorSquare(y.dst) in other;
  }

  lemma PawnMoveMirror(men: Men, other: Men, ep: Option<Square>, ep': Option<Square>, c: Color, y: Ply)
    requires MirrorMen(men, other) && PawnMove(men, ep, c, y)
    requires ep.Some? ==> ep' == Some(MirrorSquare(ep.value))
    ensures PawnMove(other, ep', Other(c), MirrorPly(y))
  {
    assert y.src in men;
    assert y.dst in men <==> MirrorSquare(y.dst) in other;
    assert Ahead(c, y.src, 1) in men <==> MirrorSquare(Ahead(c, y.src, 1)) in other;
  }

  lemma AtMirror(men: Men, other: Men, file: int, rank: int, m: Man)
    requires MirrorMen(men, other)
    ensures At(men, file, rank, m) ==> At(other, file, 7 - rank, MirrorMan(m))
    ensures Square(file, rank) in men <==> Square(file, 7 - rank) in other
  {
    assert MirrorSquare(Square(file, rank)) == Square(file, 7 - rank);
  }

  lemma PathMirror(g: Game, h: Game, file: int)
    requires Mirrors(g, h)
    ensures var r, q := HomeRank(g.turn), HomeRank(h.turn);
            && (Square(file, r) in g.men <==> Square(file, q) in h.men)
            && (Attacked(g.men, Other(g.turn), Square(file, r)) <==> Attacked(h.men, Other(h.turn), Square(file, q)))
            && forall p :: At(g.men, file, r, Man(g.turn, p)) ==> At(h.men, file, q, Man(h.turn, p))
  {
    hide Attacked, MirrorMen;
    var r := HomeRank(g.turn);
    assert HomeRank(h.turn) == 7 - r && MirrorSquare(Square(file, r)) == Square(file, 7 - r);
    AttackedMirror(g.men, h.men, Other(g.turn), Square(file, r));
    AtMirror(g.men, h.men, file, r, Man(g.turn, King));
    forall p | At(g.men, file, r, Man(g.turn, p))
      ensures At(h.men, file, 7 - r, Man(h.turn, p))
    {
      AtMirror(g.men, h.men, file, r, Man(g.turn, p));
    }
  }

  lemma CastlesMirror(g: Game, h: Game, y: Ply)
    requires Mirrors(g, h)
    ensures CastlesKingside(g, y) ==> CastlesKingside(h, MirrorPly(y))
    ensures CastlesQueenside(g, y) ==> CastlesQueenside(h, MirrorPly(y))
  {
    hide Attacked, MirrorMen, At;
    PathMirror(g, h, 0);
    PathMirror(g, h, 1);
    PathMirror(g, h, 2);
    PathMirror(g, h, 3);
    PathMirror(g, h, 4);
    PathMirror(g, h, 5);
    PathMirror(g, h, 6);
    PathMirror(g, h, 7);
  }

  lemma PlaceMirror(men: Men, other: Men, s: Square, m: Man)
    requires MirrorMen(men, other)
    ensures MirrorMen(men[s := m], other[MirrorSquare(s) := MirrorMan(m)])
  {
    hide MirrorSquare;
    forall t
      ensures MirrorSquare(t) == MirrorSquare(s) <==> t == s
    {
      MirrorTwice(s);
      MirrorTwice(t);
    }
    assert forall t :: t in men <==> MirrorSquare(t) in other;
  }

  lemma RemoveMirror(men: Men, other: Men, s: Square)
    requires MirrorMen(men, other)
    ensures MirrorMen(men - {s}, other - {MirrorSquare(s)})
  {
    hide MirrorSquare;
    forall t
      ensures MirrorSquare(t) == MirrorSquare(s) <==> t == s
    {
      MirrorTwice(s);
      MirrorTwice(t);
    }
    assert forall t :: t in men <==> MirrorSquare(t) in other;
  }

  lemma RelocateMirror(men: Men, other: Men, from: Square, to: Square)
    requires MirrorMen(men, other) && from in men
    ensures MirrorSquare(from) in other
    ensures MirrorMen(Relocate(men, from, to), Relocate(other, MirrorSquare(from), MirrorSquare(to)))
  {
    assert MirrorSquare(from) in other && other[MirrorSquare(from)] == MirrorMan(men[from]);
    hide MirrorMen, MirrorSquare;
    RemoveMirror(men, other, from);
    PlaceMirror(men - {from}, other - {MirrorSquare(from)}, to, men[from]);
  }

  lemma InBoth(men: Men, other: Men, s: Square)
    requires MirrorMen(men, other)
    ensures s in men <==> MirrorSquare(s) in other
    ensures s in men ==> other[MirrorSquare(s)] == MirrorMan(men[s])
  {
  }

  lemma MenAfterMirror(men: Men, other: Men, y: Ply)
    requires MirrorMen(men, other) && y.src in men
    ensures MirrorSquare(y.src) in other && MirrorMen(MenAfter(men, y), MenAfter(other, MirrorPly(y)))
  {
    hide MirrorMen, Relocate;
    InBoth(men, other, y.src);
    RelocateMirror(men, other, y.src, y.dst);
    var moved, moved' := Relocate(men, y.src, y.dst), Relocate(other, MirrorSquare(y.src), MirrorSquare(y.dst));
    if y.kind == EnPassant {
      RemoveMirror(moved, moved', Square(y.dst.file, y.src.rank));
    } else if y.kind == CastleKingside || y.kind == CastleQueenside {
      var from := Square(if y.kind == CastleKingside then 7 else 0, y.src.rank);
      InBoth(moved, moved', from);
      if from in moved {
        RelocateMirror(moved, moved', from, Square(if y.kind == CastleKingside then 5 else 3, y.src.rank));
      }
    } else if IsPromotion(y.kind) {
      RemoveMirror(men, other, y.src);
      PlaceMirror(men - {y.src}, other - {MirrorSquare(y.src)}, y.dst, Man(men[y.src].color, PromotedPiece(y.kind)));
    }
  }

  lemma RightsAfterMirror(r: Rights, y: Ply)
    ensures RightsAfter(MirrorRights(r), MirrorPly(y)) == MirrorRights(RightsAfter(r, y))
  {
  }

  // Playing mirrored plies keeps mirrored games mirrored.
  lemma AfterMirror(g: Game, h: Game, y: Ply)
    requires Mirrors(g, h) && Valid(g) && Legal(g, y)
    ensures y.src in g.men && MirrorPly(y).src in h.men && Mirrors(After(g, y), After(h, MirrorPly(y)))
  {
    hide MenAfter, Valid, Legal, MirrorMen, RightsAfter;
    LegalIsPlayable(g, y);
    PlyFacts(g, y);
    MenAfterMirror(g.men, h.men, y);
    RightsAfterMirror(g.rights, y);
    if y.kind == TwoStepPawn {
      DoubleStepRanks(g, y);
    }
  }

  lemma DoubleStepRanks(g: Game, y: Ply)
    requires Legal(g, y) && y.kind == TwoStepPawn
    ensures y.src.rank + y.dst.rank == 4 || y.src.rank + y.dst.rank == 10
  {
    hide InCheck, Attacked, Attacks;
  }

  lemma LegalMirror(g: Game, h: Game, y: Ply)
    requires Mirrors(g, h) && Legal(g, y) && y.src in g.men
    ensures Legal(h, MirrorPly(y))
  {
    hide PawnMove, PieceMove, InCheck, CastlesKingside, CastlesQueenside, MenAfter, MirrorMen;
    CastlesMirror(g, h, y);
    MenAfterMirror(g.men, h.men, y);
    InCheckMirror(MenAfter(g.men, y), MenAfter(h.men, MirrorPly(y)), g.turn);
    if PawnMove(g.men, g.ep, g.turn, y) {
      PawnMoveMirror(g.men, h.men, g.ep, h.ep, g.turn, y);
    } else if q :| PieceMove(g.men, g.turn, q, y) {
      PieceMoveMirror(g.men, h.men, g.turn, q, y);
    }
  }

  // --- Validity and evaluation -----------------------------------------------------------------------------

  lemma OneKingMirror(men: Men, other: Men, c: Color)
    requires MirrorMen(men, other) && OneKing(men, c)
    ensures OneKing(other, Other(c))
  {
    hide MirrorSquare, MirrorMen;
    var k :| k in men && men[k] == Man(c, King);
    InBoth(men, other, k);
    MirrorMenBack(men, other);
    forall j | j in other && other[j] == Man(Other(c), King)
      ensures j == MirrorSquare(k)
    {
      InBoth(other, men, j);
      MirrorTwice(j);
    }
  }

  lemma OrderlyMirror(men: Men, other: Men)
    requires MirrorMen(men, other) && Orderly(men)
    ensures Orderly(other)
  {
    OneKingMirror(men, other, White);
    OneKingMirror(men, other, Black);
    hide OneKing, MirrorMen;
    forall s | s in other
      ensures OnBoard(s) && (other[s].piece == Pawn ==> 1 <= s.rank <= 6)
    {
      MirrorMenBack(men, other);
      InBoth(other, men, s);
    }
  }

  lemma BackedMirror(g: Game, h: Game)
    requires Mirrors(g, h) && RightsBacked(g.men, g.rights)
    ensures RightsBacked(h.men, h.rights)
  {
    hide MirrorMen, At;
    AtMirror(g.men, h.men, 4, 0, Man(White, King));
    AtMirror(g.men, h.men, 0, 0, Man(White, Rook));
    AtMirror(g.men, h.men, 7, 0, Man(White, Rook));
    AtMirror(g.men, h.men, 4, 7, Man(Black, King));
    AtMirror(g.men, h.men, 0, 7, Man(Black, Rook));
    AtMirror(g.men, h.men, 7, 7, Man(Black, Rook));
  }

  lemma PassedMirror(g: Game, h: Game)
    requires Mirrors(g, h) && g.ep.Some? && PassedOver(g.men, g.turn, g.ep.value)
    ensures h.ep.Some? && PassedOver(h.men, h.turn, h.ep.value)
  {
    hide MirrorMen;
    var e := g.ep.value;
    InBoth(g.men, h.men, e);
    InBoth(g.men, h.men, Ahead(g.turn, e, 1));
    InBoth(g.men, h.men, Ahead(g.turn, e, -1));
  }

  lemma ValidMirror(g: Game, h: Game)
    requires Mirrors(g, h) && Valid(g)
    ensures Valid(h)
  {
    hide MirrorMen, Orderly, RightsBacked, PassedOver, InCheck;
    OrderlyMirror(g.men, h.men);
    BackedMirror(g, h);
    InCheckMirror(g.men, h.men, Other(g.turn));
    if g.ep.Some? {
      PassedMirror(g, h);
    }
  }

  // Mirroring a ply pairs off the legal moves of the two games.
  lemma LegalPliesMirror(g: Game, h: Game)
    requires Mirrors(g, h) && Valid(g) && Valid(h)
    ensures forall y :: y in LegalPlies(g) <==> MirrorPly(y) in LegalPlies(h)
    ensures LegalPlies(g) == {} <==> LegalPlies(h) == {}
  {
    hide Valid, Mirrors, LegalPlies, Legal, MirrorSquare;
    MirrorBack(g, h);
    forall y
      ensures y in LegalPlies(g) ==> MirrorPly(y) in LegalPlies(h)
    {
      LegalPlyMirrored(g, h, y);
    }
    forall y
      ensures y in LegalPlies(h) ==> MirrorPly(y) in LegalPlies(g)
      ensures MirrorPly(MirrorPly(y)) == y
    {
      LegalPlyMirrored(h, g, y);
      MirrorTwice(y.src);
      MirrorTwice(y.dst);
    }
    Inhabited(LegalPlies(g));
    Inhabited(LegalPlies(h));
  }

  lemma LegalPlyMirrored(g: Game, h: Game, y: Ply)
    requires Mirrors(g, h) && Valid(g) && Valid(h)
    ensures y in LegalPlies(g) ==> MirrorPly(y) in LegalPlies(h)
  {
    hide Valid, Mirrors, Legal, MirrorPly;
    if y in LegalPlies(g) {
      LegalMirror(g, h, y);
      LegalPliesAreLegal(h, MirrorPly(y));
    }
  }

  lemma CountMirror(men: Men, other: Men, m: Man)
    requires MirrorMen(men, other)
    ensures Count(men, m) == Count(other, MirrorMan(m))
  {
    hide MirrorSquare;
    var a, b := SquaresOf(men, m), SquaresOf(other, MirrorMan(m));
    var image := set s | s in a :: MirrorSquare(s);
    assert image == b by {
      forall t | t in b
        ensures t in image
      {
        MirrorMenBack(men, other);
        InBoth(other, men, t);
        MirrorTwice(t);
      }
    }
    MirrorImageSize(a);
  }

  lemma MirrorImageSize(a: set<Square>)
    ensures |set s | s in a :: MirrorSquare(s)| == |a|
  {
    hide MirrorSquare;
    var image := set s | s in a :: MirrorSquare(s);
    if a == {} {
      assert image == {};
    } else {
      Inhabited(a);
      var s :| s in a;
      MirrorImageSize(a - {s});
      var rest := set t | t in a - {s} :: MirrorSquare(t);
      forall t | t in a && MirrorSquare(t) == MirrorSquare(s)
        ensures t == s
      {
        MirrorTwice(t);
        MirrorTwice(s);
      }
      assert image == rest + {MirrorSquare(s)};
    }
  }

  // static_evaluation changes sign, so the score for the side to move stays.
  lemma ScoreMirror(g: Game, h: Game)
    requires Mirrors(g, h) && Valid(g) && Valid(h)
    ensures StaticValue(h) == -StaticValue(g) && Score(h) == Score(g)
  {
    hide Valid, LegalPlies, Count, MirrorMen;
    LegalPliesMirror(g, h);
    forall p
      ensures Lead(h.men, p) == -Lead(g.men, p)
    {
      CountMirror(g.men, h.men, Man(White, p));
      CountMirror(g.men, h.men, Man(Black, p));
    }
  }

  lemma {:induction false} QuiesceMirror(g: Game, h: Game)
    requires Mirrors(g, h) && Valid(g) && Valid(h)
    ensures Quiesce(g) == Quiesce(h)
    decreases |g.men|
  {
    hide Valid, Mirrors, CapturePlies, Score, Quiesce, QuiesceAfter, After, LegalPlies, MirrorPly;
    ScoreMirror(g, h);
    CapturePliesMirror(g, h);
    QuiesceIsBest(g);
    QuiesceIsBest(h);
    forall y | y in CapturePlies(g)
      ensures QuiesceAfter(g, y) == QuiesceAfter(h, MirrorPly(y))
    {
      CaptureTakesOne(g, y);
      CaptureTakesOne(h, MirrorPly(y));
      CaptureMirrors(g, h, y);
      QuiesceMirror(After(g, y), After(h, MirrorPly(y)));
      QuiesceAfterIs(g, y);
      QuiesceAfterIs(h, MirrorPly(y));
    }
  }

  lemma CaptureMirrors(g: Game, h: Game, y: Ply)
    requires Mirrors(g, h) && Valid(g) && Valid(h) && y in CapturePlies(g)
    ensures y.src in g.men && MirrorPly(y).src in h.men && Mirrors(After(g, y), After(h, MirrorPly(y)))
  {
    hide Valid, Mirrors, After, Legal, MirrorPly;
    LegalPliesAreLegal(g, y);
    AfterMirror(g, h, y);
  }

  // Captures are paired off too: each capture of one game mirrors one of the other.
  lemma CapturePliesMirror(g: Game, h: Game)
    requires Mirrors(g, h) && Valid(g) && Valid(h)
    ensures forall y :: y in CapturePlies(g) ==> MirrorPly(y) in CapturePlies(h)
    ensures forall z :: z in CapturePlies(h) ==> MirrorPly(z) in CapturePlies(g) && MirrorPly(MirrorPly(z)) == z
  {
    hide Valid, LegalPlies, MirrorMen;
    LegalPliesMirror(g, h);
    forall y
      ensures Friendly(g.men, Other(g.turn), y) <==> Friendly(h.men, Other(h.turn), MirrorSquare(y))
    {
      InBoth(g.men, h.men, y);
    }
    forall z: Ply
      ensures MirrorPly(MirrorPly(z)) == z
    {
    }
  }

  // Evaluation to any depth is the same for both colours.
  lemma {:induction false} NegamaxMirror(g: Game, h: Game, depth: nat)
    requires Mirrors(g, h) && Valid(g)
    ensures Valid(h) && Negamax(g, depth) == Negamax(h, depth)
    decreases depth
  {
    hide Valid, Mirrors, Negamax, NegamaxAfter, After, LegalPlies, MirrorPly, Quiesce;
    ValidMirror(g, h);
    LegalPliesMirror(g, h);
    if depth == 0 || LegalPlies(g) == {} {
      QuiesceMirror(g, h);
      AtLeaf(g, depth);
      AtLeaf(h, depth);
    } else {
      NegamaxIsBest(g, depth);
      NegamaxIsBest(h, depth);
      forall y | y in LegalPlies(g)
        ensures NegamaxAfter(g, depth, y) == NegamaxAfter(h, depth, MirrorPly(y))
      {
        LegalPliesAreLegal(g, y);
        LegalPlyKeepsValid(g, y);
        AfterMirror(g, h, y);
        NegamaxMirror(After(g, y), After(h, MirrorPly(y)), depth - 1);
        NegamaxAfterIs(g, depth, y);
        NegamaxAfterIs(h, depth, MirrorPly(y));
      }
      forall z | z in LegalPlies(h)
        ensures MirrorPly(z) in LegalPlies(g) && MirrorPly(MirrorPly(z)) == z
      {
        PlyTwice(z);
        assert MirrorPly(z) in LegalPlies(g) <==> MirrorPly(MirrorPly(z)) in LegalPlies(h);
      }
    }
  }

  lemma PlyTwice(y: Ply)
    ensures MirrorPly(MirrorPly(y)) == y
  {
  }

  lemma AtLeaf(g: Game, depth: nat)
    requires Valid(g) && (depth == 0 || LegalPlies(g) == {})
    ensures Negamax(g, depth) == Quiesce(g)
  {
    hide Valid, LegalPlies, Quiesce;
  }
}
