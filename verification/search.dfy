/** static_evaluation, quiescence_search and alpha_beta (src/board.cc:835-852, 1030-1094), proved against
    minimax on games. */
module Search {
  import opened Geometry
  import opened Bitboards
  import opened Chess
  import opened Positions
  import opened Boards
  import opened Invariant
  import opened Legality
  import opened GameTree

  // --- Static evaluation -----------------------------------------------------------------------------------

  lemma CountIsPopCount(p: Placement, men: Men, m: Man)
    requires p.Shows(men)
    ensures |Squares(p.Of(m))| == Count(men, m)
  {
    hide Bit, Has, Placement.Of;
    HasIsOnBoard(p.Of(m));
    assert Squares(p.Of(m)) == SquaresOf(men, m);
  }

  // pop_count of the white bitboard of a piece less that of the black one.
  method Difference(p: Position, ghost men: Men, piece: Piece) returns (res: int)
    requires p.Shows(men)
    ensures res == Lead(men, piece)
  {
    hide Placement.Of, Placement.Shows, Squares;
    var white := PopCount(p.placement.Of(Man(White, piece)));
    var black := PopCount(p.placement.Of(Man(Black, piece)));
    CountIsPopCount(p.placement, men, Man(White, piece));
    CountIsPopCount(p.placement, men, Man(Black, piece));
    return white - black;
  }

  lemma NoMoves(p: Position, men: Men, moves: seq<Move>, S: set<Ply>)
    requires Lists(p, men, moves, iset y | y in S)
    ensures |moves| == 0 <==> S == {}
  {
    hide PlyOf, Lists;
    ListedPlies(p, men, moves, (iset y | y in S), S);
    if |moves| > 0 {
      assert moves[0] in moves;
    }
    Inhabited(S);
  }

  method StaticEvaluation(p: Position, ghost g: Game) returns (res: int)
    requires p.StandsFor(g) && Valid(g)
    ensures res == StaticValue(g)
  {
    hide Placement.Of, Placement.Shows, Valid, Lists, LegalPlies, Lead;
    var moves := LegalMoves(p, g);
    NoMoves(p, g.men, moves, LegalPlies(g));
    if |moves| == 0 {
      return if p.isWhitesMove then -1000 else 1000;
    }
    var pawns := Difference(p, g.men, Pawn);
    var rooks := Difference(p, g.men, Rook);
    var knights := Difference(p, g.men, Knight);
    var bishops := Difference(p, g.men, Bishop);
    var queens := Difference(p, g.men, Queen);
    return 1 * pawns + 5 * rooks + 3 * knights + 3 * bishops + 9 * queens;
  }

  // --- The principal variation -----------------------------------------------------------------------------

  ghost function Plies(moves: seq<Move>): seq<Ply> {
    seq(|moves|, i requires 0 <= i < |moves| => PlyOf(moves[i]))
  }

  lemma PliesCons(m: Move, line: seq<Move>)
    ensures Plies([m] + line) == [PlyOf(m)] + Plies(line)
  {
  }

  // A line of captures that ends with the value v for the side to move in g.
  ghost predicate CaptureLine(g: Game, ys: seq<Ply>, v: int)
    requires Valid(g)
    decreases |ys|
  {
    if ys == [] then v == Score(g)
    else ys[0] in CapturePlies(g) && (CaptureTakesOne(g, ys[0]); CaptureLine(After(g, ys[0]), ys[1..], -v))
  }

  // A line of legal moves to `depth`, or to a game without any, and captures from there.
  ghost predicate Line(g: Game, depth: nat, ys: seq<Ply>, v: int)
    requires Valid(g)
    decreases |ys|
  {
    if depth == 0 || LegalPlies(g) == {} then CaptureLine(g, ys, v)
    else ys != [] && ys[0] in LegalPlies(g) &&
         (LegalPlyKeepsValid(g, ys[0]); Line(After(g, ys[0]), depth - 1, ys[1..], -v))
  }

  lemma CaptureLineCons(g: Game, y: Ply, ys: seq<Ply>, v: int)
    requires Valid(g) && y in CapturePlies(g)
    requires y.src in g.men && Valid(After(g, y)) && CaptureLine(After(g, y), ys, v)
    ensures CaptureLine(g, [y] + ys, -v)
  {
    hide Valid, CapturePlies, After, Score;
    assert ([y] + ys)[1..] == ys;
  }

  lemma LineCons(g: Game, depth: nat, y: Ply, ys: seq<Ply>, v: int)
    requires Valid(g) && y in LegalPlies(g)
    requires y.src in g.men && Valid(After(g, y)) && Line(After(g, y), depth, ys, v)
    ensures Line(g, depth + 1, [y] + ys, -v)
  {
    hide Valid, LegalPlies, After, CaptureLine;
    assert ([y] + ys)[1..] == ys;
  }

  // --- Alpha-beta ------------------------------------------------------------------------------------------

  function Clamp(v: int, alpha: int, beta: int): int {
    if v <= alpha then alpha else if beta <= v then beta else v
  }

  // The value itself inside the window, and the nearer end of the window outside it.
  lemma ClampMeaning(v: int, alpha: int, beta: int)
    requires alpha < beta
    ensures alpha <= Clamp(v, alpha, beta) <= beta && (alpha <= v <= beta ==> Clamp(v, alpha, beta) == v)
    ensures (v < alpha ==> Clamp(v, alpha, beta) == alpha) && (v > beta ==> Clamp(v, alpha, beta) == beta)
  {
  }

  lemma NegateClamp(v: int, alpha: int, beta: int)
    requires alpha < beta
    ensures -Clamp(v, -beta, -alpha) == Clamp(-v, alpha, beta)
  {
  }

  // What the loop over moves knows after i of them: alpha is the best of alpha0, the values so far and the
  // value of standing pat, where there is one.
  ghost predicate QuiesceSoFar(g: Game, moves: seq<Move>, i: nat, alpha0: int, alpha: int, beta: int)
    requires Valid(g) && i <= |moves| && forall m :: m in moves ==> PlyOf(m) in CapturePlies(g)
  {
    && alpha0 <= alpha < beta && Score(g) <= alpha
    && (alpha == alpha0 || alpha <= Quiesce(g))
    && forall j :: 0 <= j < i ==> (assert moves[j] in moves; QuiesceAfter(g, PlyOf(moves[j])) <= alpha)
  }

  lemma ListedPlies(p: Position, men: Men, moves: seq<Move>, S: iset<Ply>, T: set<Ply>)
    requires Lists(p, men, moves, S) && forall y :: y in T <==> y in S
    ensures forall m :: m in moves ==> PlyOf(m) in T
    ensures forall y :: y in T ==> exists j :: 0 <= j < |moves| && PlyOf(moves[j]) == y
  {
    hide PlyOf, Encode;
    forall y | y in T
      ensures exists j :: 0 <= j < |moves| && PlyOf(moves[j]) == y
    {
      PlyOfEncode(p, men, y);
      assert Encode(p, men, y) in moves;
      var j :| 0 <= j < |moves| && moves[j] == Encode(p, men, y);
    }
  }

  lemma QuiesceStep(g: Game, moves: seq<Move>, i: nat, alpha0: int, alpha: int, beta: int, v: int)
    requires Valid(g) && i < |moves| && forall m :: m in moves ==> PlyOf(m) in CapturePlies(g)
    requires QuiesceSoFar(g, moves, i, alpha0, alpha, beta)
    requires moves[i] in moves && v == QuiesceAfter(g, PlyOf(moves[i]))
    ensures beta <= v ==> Clamp(Quiesce(g), alpha0, beta) == beta
    ensures v < beta ==> QuiesceSoFar(g, moves, i + 1, alpha0, if v > alpha then v else alpha, beta)
  {
    hide Valid, CapturePlies, Score, Quiesce, QuiesceAfter, PlyOf;
    QuiesceIsBest(g);
  }

  lemma QuiesceDone(g: Game, moves: seq<Move>, alpha0: int, alpha: int, beta: int)
    requires Valid(g) && forall m :: m in moves ==> PlyOf(m) in CapturePlies(g)
    requires forall y :: y in CapturePlies(g) ==> exists j :: 0 <= j < |moves| && PlyOf(moves[j]) == y
    requires QuiesceSoFar(g, moves, |moves|, alpha0, alpha, beta)
    ensures alpha == Clamp(Quiesce(g), alpha0, beta)
  {
    hide Valid, CapturePlies, Score, Quiesce, QuiesceAfter, PlyOf;
    QuiesceIsBest(g);
  }

  method QuiescenceSearch(board: Position, ghost g: Game, alpha0: int, beta: int) returns (value: int, pv: seq<Move>)
    requires board.StandsFor(g) && Valid(g) && alpha0 < beta
    ensures value == Clamp(Quiesce(g), alpha0, beta)
    ensures alpha0 < value < beta ==> CaptureLine(g, Plies(pv), value)
    decreases |g.men|
  {
    hide Valid, CapturePlies, Score, Quiesce, QuiesceAfter, PlyOf, Position.StandsFor, Lists, After, CaptureLine,
         Plies, LegalPlies, Friendly, Pseudolegal, CastlesKingside, CastlesQueenside, Bit, Captures, Consistent,
        Playable, InCheck;
    pv := [];
    var alpha := alpha0;
    var staticScore := StaticEvaluation(board, g);
    var score := staticScore * (if board.isWhitesMove then 1 else -1);
    ScoreIs(board, g, staticScore);
    QuiesceIsBest(g);
    if score >= beta {
      return beta, pv;
    }
    if score > alpha {
      alpha := score;
    }
    EmptyCaptureLine(g);
    var moves := LegalCaptureMoves(board, g);
    CapturesAreCaptures(g);
    ListedPlies(board, g.men, moves, (iset y | Captures(g, y)), CapturePlies(g));
    for i := 0 to |moves|
      invariant QuiesceSoFar(g, moves, i, alpha0, alpha, beta)
      invariant alpha0 < alpha ==> CaptureLine(g, Plies(pv), alpha)
    {
      ghost var y := PlyOf(moves[i]);
      assert moves[i] in moves;
      ListsMember(board, g.men, moves, (iset z | Captures(g, z)), i);
      CaptureTakesOne(g, y);
      ReadyToPlay(board, g, y);
      var childBoard := new Board(board);
      childBoard.DoMove(moves[i], g, y);
      var v, line := QuiescenceSearch(childBoard.Value(), After(g, y), -beta, -alpha);
      NegateClamp(Quiesce(After(g, y)), alpha, beta);
      QuiesceAfterIs(g, y);
      assert Clamp(QuiesceAfter(g, y), alpha, beta) == -v;
      QuiesceStep(g, moves, i, alpha0, alpha, beta, QuiesceAfter(g, y));
      var score := -v;
      if score >= beta {
        return beta, pv;
      }
      if score > alpha {
        alpha := score;
        CaptureLineCons(g, y, Plies(line), v);
        PliesCons(moves[i], line);
        pv := [moves[i]] + line;
      }
    }
    QuiesceDone(g, moves, alpha0, alpha, beta);
    return alpha, pv;
  }

  lemma ScoreIs(p: Position, g: Game, staticScore: int)
    requires p.StandsFor(g) && staticScore == StaticValue(g)
    ensures staticScore * (if p.isWhitesMove then 1 else -1) == Score(g)
  {
    hide StaticValue, Placement.Shows;
  }

  lemma EmptyCaptureLine(g: Game)
    requires Valid(g)
    ensures CaptureLine(g, Plies([]), Score(g))
  {
    hide Valid, CapturePlies, Score, After;
  }

  lemma CapturesAreCaptures(g: Game)
    ensures forall y :: Captures(g, y) <==> y in CapturePlies(g)
    ensures forall y :: y in CapturePlies(g) ==> y in LegalPlies(g)
  {
    hide LegalPlies;
  }

  // A listed legal move meets what do_move asks.
  lemma ReadyToPlay(p: Position, g: Game, y: Ply)
    requires Valid(g) && y in LegalPlies(g)
    ensures Consistent(g) && Playable(g, y) && Writes(Encode(p, g.men, y), g.men, y)
  {
    hide Consistent, Pseudolegal, CastlesKingside, CastlesQueenside, InCheck;
    LegalPliesAreLegal(g, y);
    PlyFacts(g, y);
  }

  ghost predicate NegamaxSoFar(g: Game, depth: nat, moves: seq<Move>, i: nat, alpha0: int, alpha: int, beta: int)
    requires Valid(g) && depth > 0 && i <= |moves| && forall m :: m in moves ==> PlyOf(m) in LegalPlies(g)
  {
    && alpha0 <= alpha < beta
    && (alpha == alpha0 || alpha <= Negamax(g, depth))
    && forall j :: 0 <= j < i ==> (assert moves[j] in moves; NegamaxAfter(g, depth, PlyOf(moves[j])) <= alpha)
  }

  lemma NegamaxDone(g: Game, depth: nat, moves: seq<Move>, alpha0: int, alpha: int, beta: int)
    requires Valid(g) && depth > 0 && LegalPlies(g) != {} && forall m :: m in moves ==> PlyOf(m) in LegalPlies(g)
    requires forall y :: y in LegalPlies(g) ==> exists j :: 0 <= j < |moves| && PlyOf(moves[j]) == y
    requires NegamaxSoFar(g, depth, moves, |moves|, alpha0, alpha, beta)
    ensures alpha == Clamp(Negamax(g, depth), alpha0, beta)
  {
    hide Valid, LegalPlies, Negamax, NegamaxAfter, PlyOf;
    NegamaxIsBest(g, depth);
  }

  // Fail-hard alpha-beta returns the unpruned value clamped to its window, in whatever order the moves come,
  // and inside the window the principal variation is a line of play that ends with that value.
  method AlphaBeta(board: Position, ghost g: Game, depth: nat, alpha0: int, beta: int)
    returns (value: int, pv: seq<Move>)
    requires board.StandsFor(g) && Valid(g) && alpha0 < beta
    ensures value == Clamp(Negamax(g, depth), alpha0, beta)
    ensures alpha0 < value < beta ==> Line(g, depth, Plies(pv), value)
    decreases depth
  {
    hide Valid, LegalPlies, Negamax, NegamaxAfter, PlyOf, Position.StandsFor, Lists, After, Line, CaptureLine,
         Plies, Pseudolegal, CastlesKingside, CastlesQueenside, Bit, Quiesce;
    var moves := LegalMoves(board, g);
    NoMoves(board, g.men, moves, LegalPlies(g));
    if depth == 0 || |moves| == 0 {
      LeafFacts(g, depth);
      value, pv := QuiescenceSearch(board, g, alpha0, beta);
      return;
    }
    pv := [];
    var alpha := alpha0;
    NegamaxIsBest(g, depth);
    ListedPlies(board, g.men, moves, (iset y | y in LegalPlies(g)), LegalPlies(g));
    for i := 0 to |moves|
      invariant NegamaxSoFar(g, depth, moves, i, alpha0, alpha, beta)
      invariant alpha0 < alpha ==> Line(g, depth, Plies(pv), alpha)
    {
      ghost var y := PlyOf(moves[i]);
      assert moves[i] in moves;
      ListsMember(board, g.men, moves, (iset z | z in LegalPlies(g)), i);
      ReadyToPlay(board, g, y);
      NegamaxAfterIs(g, depth, y);
      var childBoard := new Board(board);
      childBoard.DoMove(moves[i], g, y);
      var v, line := AlphaBeta(childBoard.Value(), After(g, y), depth - 1, -beta, -alpha);
      NegateClamp(Negamax(After(g, y), depth - 1), alpha, beta);
      var score := -v;
      if score >= beta {
        return beta, pv;
      }
      if score > alpha {
        alpha := score;
        LineCons(g, depth - 1, y, Plies(line), v);
        PliesCons(moves[i], line);
        pv := [moves[i]] + line;
      }
    }
    NegamaxDone(g, depth, moves, alpha0, alpha, beta);
    return alpha, pv;
  }

  lemma LeafFacts(g: Game, depth: nat)
    requires Valid(g) && (depth == 0 || LegalPlies(g) == {})
    ensures Negamax(g, depth) == Quiesce(g)
    ensures forall ys, v :: CaptureLine(g, ys, v) ==> Line(g, depth, ys, v)
  {
    hide Valid, LegalPlies, Quiesce, CaptureLine;
  }

  // evaluation's window is wider than any value, so nothing is clamped.
  method Evaluation(board: Position, ghost g: Game, depth: nat) returns (value: int, pv: seq<Move>)
    requires board.StandsFor(g) && Valid(g)
    ensures value == Negamax(g, depth)
    ensures Line(g, depth, Plies(pv), value)
  {
    hide Valid, Negamax, Line, Position.StandsFor;
    NegamaxBound(g, depth);
    value, pv := AlphaBeta(board, g, depth, -1000000, 1000000);
  }

  // --- What a principal variation witnesses ----------------------------------------------------------------

  // +1 after an even number of plies, -1 after an odd number.
  function Sign(n: nat): int {
    if n % 2 == 0 then 1 else -1
  }

  // From the i-th ply of a run on, for every i >= depth, each ply is a capture.
  ghost predicate CapturesFrom(g: Game, ys: seq<Ply>, depth: nat)
    requires Valid(g)
  {
    forall i :: depth <= i < |ys| ==> LegalRun(g, ys[..i]) && ys[i] in CapturePlies(AfterRun(g, ys[..i]))
  }

  lemma {:induction false} CaptureLineMeaning(g: Game, ys: seq<Ply>, v: int)
    requires Valid(g) && CaptureLine(g, ys, v)
    ensures LegalRun(g, ys) && v == Sign(|ys|) * Score(AfterRun(g, ys)) && CapturesFrom(g, ys, 0)
    decreases |ys|
  {
    hide Valid, CapturePlies, LegalPlies, Score, After;
    if ys != [] {
      CaptureTakesOne(g, ys[0]);
      CaptureIsLegal(g, ys[0]);
      CaptureLineMeaning(After(g, ys[0]), ys[1..], -v);
      CapturesFromNext(g, ys, 0);
    }
  }

  lemma CaptureIsLegal(g: Game, y: Ply)
    ensures y in CapturePlies(g) ==> y in LegalPlies(g)
    ensures y in LegalPlies(g) ==> Legal(g, y)
  {
  }

  // One more ply in front: it must be a capture itself only when nothing may precede the captures.
  lemma CapturesFromNext(g: Game, ys: seq<Ply>, depth: nat)
    requires Valid(g) && ys != [] && ys[0].src in g.men && Legal(g, ys[0]) && Valid(After(g, ys[0]))
    requires CapturesFrom(After(g, ys[0]), ys[1..], if depth == 0 then 0 else depth - 1)
    requires depth == 0 ==> ys[0] in CapturePlies(g)
    ensures CapturesFrom(g, ys, depth)
  {
    hide Valid, CapturePlies, After, Legal;
    forall i | depth <= i < |ys|
      ensures LegalRun(g, ys[..i]) && ys[i] in CapturePlies(AfterRun(g, ys[..i]))
    {
      if i > 0 {
        assert ys[1..][..i - 1] == ys[..i][1..];
        assert ys[1..][i - 1] == ys[i];
      } else {
        assert ys[..0] == [];
      }
    }
  }

  // The principal variation can be played: legal moves down to `depth`, captures from there, shorter than
  // `depth` only for want of a legal move; and it ends in a game whose static score is the value returned, its
  // sign changed once for every ply.
  lemma {:induction false} LineMeaning(g: Game, depth: nat, ys: seq<Ply>, v: int)
    requires Valid(g) && Line(g, depth, ys, v)
    ensures LegalRun(g, ys) && v == Sign(|ys|) * Score(AfterRun(g, ys))
    ensures CapturesFrom(g, ys, depth)
    ensures |ys| < depth ==> LegalPlies(AfterRun(g, ys)) == {}
    decreases |ys|
  {
    hide Valid, CapturePlies, LegalPlies, Score, After;
    if depth == 0 || LegalPlies(g) == {} {
      CaptureLineMeaning(g, ys, v);
      if ys != [] {
        CaptureIsLegal(g, ys[0]);
      }
    } else {
      LegalPlyKeepsValid(g, ys[0]);
      CaptureIsLegal(g, ys[0]);
      LineMeaning(After(g, ys[0]), depth - 1, ys[1..], -v);
      CapturesFromNext(g, ys, depth);
    }
  }
}
