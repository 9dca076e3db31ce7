/** What the search is to compute, on games alone: minimax with a quiescence search at the leaves. */
module GameTree {
  import opened Geometry
  import opened Chess
  import opened Invariant

  lemma Inhabited<T>(s: set<T>)
    ensures s == {} || exists x :: x in s
  {
  }

  lemma SomeElement(s: set<int>)
    requires s != {}
    ensures exists x: int :: x in s
  {
    if forall x: int :: x !in s {
    }
  }

  ghost function Max(s: set<int>): (m: int)
    requires s != {}
    ensures m in s && forall x :: x in s ==> x <= m
  {
    SomeElement(s);
    var x :| x in s;
    if s == {x} then x
    else
      var m := Max(s - {x});
      assert s == (s - {x}) + {x};
      if m < x then x else m
  }

  // --- Static evaluation -----------------------------------------------------------------------------------

  ghost function SquaresOf(men: Men, m: Man): set<Square> {
    set s | s in men && men[s] == m
  }

  ghost function Count(men: Men, m: Man): nat {
    |SquaresOf(men, m)|
  }

  // White's material less Black's.
  ghost function Lead(men: Men, p: Piece): int {
    Count(men, Man(White, p)) - Count(men, Man(Black, p))
  }

  ghost function Material(men: Men): int {
    Lead(men, Pawn) + 5 * Lead(men, Rook) + 3 * Lead(men, Knight) + 3 * Lead(men, Bishop) + 9 * Lead(men, Queen)
  }

  // From White's point of view; checkmate and stalemate both count as a loss for the side to move.
  ghost function StaticValue(g: Game): int {
    if LegalPlies(g) == {} then (if g.turn == White then -1000 else 1000) else Material(g.men)
  }

  // From the point of view of the side to move.
  ghost function Score(g: Game): int {
    if g.turn == White then StaticValue(g) else -StaticValue(g)
  }

  lemma NobodyIsWorthNothing()
    ensures Material(map[]) == 0
  {
    assert forall m :: SquaresOf(map[], m) == {};
  }

  // One more man adds 1, 3, 3, 5, 9 or nothing, or takes it away if it is Black's; from the empty board, that gives
  // the material of every board.
  lemma OneManIsWorth(men: Men, s: Square, m: Man)
    requires s !in men
    ensures var worth := match m.piece
                         case Pawn => 1
                         case Knight => 3
                         case Bishop => 3
                         case Rook => 5
                         case Queen => 9
                         case King => 0;
            Material(men[s := m]) == Material(men) + if m.color == White then worth else -worth
  {
    hide Count;
    forall n: Man
      ensures Count(men[s := m], n) == Count(men, n) + if n == m then 1 else 0
    {
      OneMoreSquare(men, s, m, n);
    }
  }

  lemma OneMoreSquare(men: Men, s: Square, m: Man, n: Man)
    requires s !in men
    ensures Count(men[s := m], n) == Count(men, n) + if n == m then 1 else 0
  {
    assert SquaresOf(men[s := m], n) == SquaresOf(men, n) + if n == m then {s} else {};
  }

  // Two games in which the side to move has a legal move, alike but for one man, differ by its worth.
  lemma OneManIsEvaluated(g: Game, h: Game, s: Square, m: Man)
    requires s !in g.men && h.men == g.men[s := m] && LegalPlies(g) != {} && LegalPlies(h) != {}
    ensures var worth := match m.piece
                         case Pawn => 1
                         case Knight => 3
                         case Bishop => 3
                         case Rook => 5
                         case Queen => 9
                         case King => 0;
            StaticValue(h) == StaticValue(g) + if m.color == White then worth else -worth
  {
    hide LegalPlies;
    OneManIsWorth(g.men, s, m);
  }

  // Having no legal move is the worst that can happen to the side to move.
  lemma NoMoveIsLoss(g: Game)
    requires LegalPlies(g) == {}
    ensures Score(g) == -1000 && StaticValue(g) == if g.turn == White then -1000 else 1000
  {
  }

  lemma ScoreBound(g: Game)
    requires Valid(g)
    ensures -1000 <= Score(g) <= 1000
  {
    hide Valid, LegalPlies, Count;
    MaterialBound(g.men);
    assert forall s :: s in g.men ==> OnBoard(s) by { MenOnBoard(g); }
    MenAtMost64(g.men);
  }

  lemma MenOnBoard(g: Game)
    requires Valid(g)
    ensures forall s :: s in g.men ==> OnBoard(s)
  {
    hide InCheck;
  }

  lemma MenAtMost64(men: Men)
    requires forall s :: s in men ==> OnBoard(s)
    ensures |men| <= 64
  {
    AllSquaresSize();
    assert men.Keys <= AllSquares();
    SubsetSize(men.Keys, AllSquares());
  }

  lemma SubsetSize<T>(a: set<T>, b: set<T>)
    requires a <= b
    ensures |a| <= |b|
  {
    assert b == a + (b - a);
  }

  // No square is counted twice.
  lemma MaterialBound(men: Men)
    ensures -9 * |men| <= Material(men) <= 9 * |men|
  {
    hide Count;
    CountsFit(men, White);
    CountsFit(men, Black);
  }

  lemma CountsFit(men: Men, c: Color)
    ensures Count(men, Man(c, Pawn)) + Count(men, Man(c, Rook)) + Count(men, Man(c, Knight)) +
            Count(men, Man(c, Bishop)) + Count(men, Man(c, Queen)) <= |men|
  {
    hide SquaresOf;
    Apart(men);
    var a := SquaresOf(men, Man(c, Pawn)) + SquaresOf(men, Man(c, Rook));
    var b := a + SquaresOf(men, Man(c, Knight));
    var d := b + SquaresOf(men, Man(c, Bishop));
    SubsetSize(d + SquaresOf(men, Man(c, Queen)), men.Keys);
  }

  lemma Apart(men: Men)
    ensures forall m, n: Man :: m != n ==> SquaresOf(men, m) !! SquaresOf(men, n)
    ensures forall m: Man :: SquaresOf(men, m) <= men.Keys
  {
  }

  // --- Quiescence ------------------------------------------------------------------------------------------

  ghost function CapturePlies(g: Game): set<Ply> {
    set y | y in LegalPlies(g) && Friendly(g.men, Other(g.turn), y.dst)
  }

  // Every capture takes exactly one man off the board, and no capture is en passant or castling.
  lemma CaptureTakesOne(g: Game, y: Ply)
    requires Valid(g) && y in CapturePlies(g)
    ensures y.src in g.men && Valid(After(g, y)) && |After(g, y).men| == |g.men| - 1
    ensures y.kind == Capture || IsPromotion(y.kind)
  {
    hide Valid, Attacks, Attacked, InCheck, Consistent, RightsAfter;
    LegalKeepsValid(g, y);
    CapturesTake(g, y);
    var after := MenAfter(g.men, y);
    assert after.Keys == g.men.Keys - {y.src};
    assert g.men.Keys == after.Keys + {y.src};
  }

  lemma CapturesTake(g: Game, y: Ply)
    requires Valid(g) && Legal(g, y) && y.dst in g.men
    ensures y.src in g.men && y.src != y.dst && (y.kind == Capture || IsPromotion(y.kind))
  {
    hide InCheck, Pseudolegal, CastlesKingside, CastlesQueenside, Attacks;
    PlyFacts(g, y);
    TakesByAttack(g, y);
  }

  // The value of standing pat or of the best line of captures.
  ghost function Quiesce(g: Game): int
    requires Valid(g)
    decreases |g.men|, 1
  {
    Max({Score(g)} + set y | y in CapturePlies(g) :: QuiesceAfter(g, y))
  }

  // The value of a capture, for the side that makes it.
  ghost function QuiesceAfter(g: Game, y: Ply): int
    requires Valid(g) && y in CapturePlies(g)
    decreases |g.men|, 0
  {
    CaptureTakesOne(g, y);
    -Quiesce(After(g, y))
  }

  // The unpruned value: the best of all moves down to `depth`, then quiescence.
  ghost function Negamax(g: Game, depth: nat): int
    requires Valid(g)
    decreases depth, 1
  {
    if depth == 0 || LegalPlies(g) == {} then Quiesce(g)
    else
      Inhabited(LegalPlies(g));
      var some :| some in LegalPlies(g);
      var values := set y | y in LegalPlies(g) :: NegamaxAfter(g, depth, y);
      assert NegamaxAfter(g, depth, some) in values;
      Max(values)
  }

  // The value of a move, for the side that makes it.
  ghost function NegamaxAfter(g: Game, depth: nat, y: Ply): int
    requires Valid(g) && y in LegalPlies(g) && depth > 0
    decreases depth, 0
  {
    LegalPlyKeepsValid(g, y);
    -Negamax(After(g, y), depth - 1)
  }

  lemma LegalPlyKeepsValid(g: Game, y: Ply)
    requires Valid(g) && y in LegalPlies(g)
    ensures y.src in g.men && Valid(After(g, y))
  {
    hide Valid, Legal;
    LegalKeepsValid(g, y);
  }

  lemma QuiesceAfterIs(g: Game, y: Ply)
    requires Valid(g) && y in CapturePlies(g)
    ensures y.src in g.men && Valid(After(g, y)) && QuiesceAfter(g, y) == -Quiesce(After(g, y))
  {
    hide Valid, CapturePlies, Quiesce, After;
    CaptureTakesOne(g, y);
  }

  lemma NegamaxAfterIs(g: Game, depth: nat, y: Ply)
    requires Valid(g) && y in LegalPlies(g) && depth > 0
    ensures y.src in g.men && Valid(After(g, y)) && NegamaxAfter(g, depth, y) == -Negamax(After(g, y), depth - 1)
  {
    hide Valid, LegalPlies, Negamax, After;
    LegalPlyKeepsValid(g, y);
  }

  lemma SearchedCaptures(g: Game, y: Ply)
    ensures y in CapturePlies(g) <==> y in LegalPlies(g) && y.dst in g.men && g.men[y.dst].color != g.turn
  {
    hide LegalPlies;
  }

  // Where the search to a depth ends.
  lemma NegamaxAtLeaf(g: Game, depth: nat)
    requires Valid(g) && (depth == 0 || LegalPlies(g) == {})
    ensures Negamax(g, depth) == Quiesce(g)
  {
    hide Valid, LegalPlies, Quiesce;
  }

  lemma QuiesceIsBest(g: Game)
    requires Valid(g)
    ensures Score(g) <= Quiesce(g)
    ensures forall y :: y in CapturePlies(g) ==> QuiesceAfter(g, y) <= Quiesce(g)
    ensures Quiesce(g) == Score(g) || exists y :: y in CapturePlies(g) && Quiesce(g) == QuiesceAfter(g, y)
  {
    hide Valid, CapturePlies, Score, QuiesceAfter;
    var values := {Score(g)} + set y | y in CapturePlies(g) :: QuiesceAfter(g, y);
    assert Quiesce(g) == Max(values);
    assert forall y :: y in CapturePlies(g) ==> QuiesceAfter(g, y) in values;
  }

  lemma NegamaxIsBest(g: Game, depth: nat)
    requires Valid(g) && depth > 0 && LegalPlies(g) != {}
    ensures forall y :: y in LegalPlies(g) ==> NegamaxAfter(g, depth, y) <= Negamax(g, depth)
    ensures exists y :: y in LegalPlies(g) && Negamax(g, depth) == NegamaxAfter(g, depth, y)
  {
    hide Valid, LegalPlies, NegamaxAfter;
    var values := set y | y in LegalPlies(g) :: NegamaxAfter(g, depth, y);
    assert forall y :: y in LegalPlies(g) ==> NegamaxAfter(g, depth, y) in values;
    Inhabited(LegalPlies(g));
    assert values != {};
    assert Negamax(g, depth) == Max(values);
  }

  lemma {:induction false} QuiesceBound(g: Game)
    requires Valid(g)
    ensures -1000 <= Quiesce(g) <= 1000
    decreases |g.men|
  {
    hide Valid, CapturePlies, Score, After, Quiesce;
    ScoreBound(g);
    QuiesceIsBest(g);
    forall y | y in CapturePlies(g)
      ensures -1000 <= QuiesceAfter(g, y) <= 1000
    {
      CaptureTakesOne(g, y);
      QuiesceBound(After(g, y));
    }
  }

  lemma {:induction false} NegamaxBound(g: Game, depth: nat)
    requires Valid(g)
    ensures -1000 <= Negamax(g, depth) <= 1000
    decreases depth
  {
    hide Valid, LegalPlies, After, Quiesce;
    if depth == 0 || LegalPlies(g) == {} {
      QuiesceBound(g);
    } else {
      NegamaxIsBest(g, depth);
      forall y | y in LegalPlies(g)
        ensures -1000 <= NegamaxAfter(g, depth, y) <= 1000
      {
        LegalPlyKeepsValid(g, y);
        NegamaxBound(After(g, y), depth - 1);
      }
    }
  }
}
