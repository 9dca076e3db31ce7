/** Generation of the moves of bishops, rooks, queens, kings and knights (src/board.cc:227-279, 485-531).
    Each generator pushes onto the list it is given every pseudolegal move of its kind once. */
module Pieces {
  import opened Geometry
  import opened Bitboards
  import opened Chess
  import opened Positions

  // --- Going through a set of plies by a key -------------------------------------------------------------

  function Source(y: Ply): Square { y.src }

  function Target(y: Ply): Square { y.dst }

  function Kind(y: Ply): MoveType { y.kind }

  // The plies of S whose key is among `keys`.
  ghost function Within<K>(S: iset<Ply>, key: Ply -> K, keys: seq<K>): iset<Ply> {
    iset y | y in S && key(y) in keys
  }

  lemma WithinStep<K>(S: iset<Ply>, key: Ply -> K, keys: seq<K>, i: nat)
    requires i < |keys| && NoDuplicates(keys)
    ensures Within(S, key, keys[..i + 1]) == Within(S, key, keys[..i]) + Within(S, key, [keys[i]])
    ensures Within(S, key, keys[..i]) !! Within(S, key, [keys[i]])
  {
    assert keys[..i + 1] == keys[..i] + [keys[i]];
  }

  lemma WithinEnds<K>(S: iset<Ply>, key: Ply -> K, keys: seq<K>)
    ensures Within(S, key, keys[..0]) == iset{}
    ensures (forall y :: y in S ==> key(y) in keys) ==> Within(S, key, keys[..|keys|]) == S
  {
    assert keys[..|keys|] == keys;
  }

  // y alone, provided that the condition holds.
  ghost function When(condition: bool, y: Ply): iset<Ply> {
    if condition then iset{y} else iset{}
  }

  lemma AppendsWhen(p: Position, men: Men, a: seq<Move>, condition: bool, y: Ply)
    requires condition ==> OnBoard(y.src) && OnBoard(y.dst)
    ensures Appends(p, men, a, if condition then a + [Encode(p, men, y)] else a, When(condition, y))
  {
    hide Appends;
    if condition {
      AppendsOne(p, men, a, y);
    } else {
      AppendsNothing(p, men, a);
    }
  }

  // --- Sliding pieces --------------------------------------------------------------------------------------

  function KindOn(men: Men, s: Square): MoveType {
    if s in men then Capture else Simple
  }

  ghost function PieceMoves(men: Men, c: Color, piece: Piece): iset<Ply> {
    iset y | PieceMove(men, c, piece, y)
  }

  // The moves from a square in one direction.
  ghost function Slide(men: Men, c: Color, from: Square, d: Direction): iset<Ply> {
    iset y: Ply | y.src == from && Slides(men, from, d, y.dst) && !Friendly(men, c, y.dst) &&
                  y.kind == KindOn(men, y.dst)
  }

  // The first k - 1 squares of a ray, as moves.
  ghost function Walk(from: Square, d: Direction, k: int): iset<Ply> {
    iset y: Ply | y.src == from && y.kind == Simple && exists j :: 0 < j < k && y.dst == Along(from, d, j)
  }

  lemma AlongNext(s: Square, d: Direction, k: int)
    ensures Along(Along(s, d, k), d, 1) == Along(s, d, k + 1)
  {
  }

  lemma WalkNext(from: Square, d: Direction, k: int)
    requires 0 < k
    ensures Walk(from, d, k + 1) == Walk(from, d, k) + iset{Ply(from, Along(from, d, k), Simple)}
    ensures Walk(from, d, k) !! iset{Ply(from, Along(from, d, k), Simple)}
  {
    forall j | 0 < j < k
      ensures Along(from, d, j) != Along(from, d, k)
    {
      if Along(from, d, j) == Along(from, d, k) {
        RaysAreDisjoint(from, d, d, j, k);
      }
    }
  }

  // The squares of the ray before the k-th are on the board and vacant.
  ghost predicate Clear(men: Men, from: Square, d: Direction, k: int) {
    && 0 < k <= 8 && OnBoard(from) && Open(men, from, d, k)
    && (forall j :: 0 < j < k ==> OnBoard(Along(from, d, j)))
  }

  // The k-th square of the ray stops the walk: it is off the board or occupied.
  ghost predicate Stops(men: Men, from: Square, d: Direction, k: int) {
    Clear(men, from, d, k) && (OnBoard(Along(from, d, k)) ==> Along(from, d, k) in men)
  }

  lemma ClearAtFirst(men: Men, from: Square, d: Direction)
    requires OnBoard(from)
    ensures Clear(men, from, d, 1) && Walk(from, d, 1) == iset{}
  {
  }

  lemma ClearNext(men: Men, from: Square, d: Direction, k: int)
    requires Clear(men, from, d, k) && OnBoard(Along(from, d, k)) && Along(from, d, k) !in men
    ensures Clear(men, from, d, k + 1)
  {
    EighthStep(from, d);
  }

  // Where the walk stops the slide is complete, but for a capture on the square that stops it.
  lemma SlideIsWalk(men: Men, c: Color, from: Square, d: Direction, k: int)
    requires Stops(men, from, d, k)
    ensures var stop := Along(from, d, k);
            var taken := When(OnBoard(stop) && !Friendly(men, c, stop), Ply(from, stop, Capture));
            Slide(men, c, from, d) == Walk(from, d, k) + taken && Walk(from, d, k) !! taken
  {
    hide Along, Slides, Open, Friendly;
    forall y: Ply
      ensures y in Slide(men, c, from, d) <==>
              y in Walk(from, d, k) || y in When(OnBoard(Along(from, d, k)) && !Friendly(men, c, Along(from, d, k)),
                                                 Ply(from, Along(from, d, k), Capture))
    {
      if Slides(men, from, d, y.dst) {
        SlideStopsBy(men, from, d, k, y.dst);
      }
      SlideReaches(men, from, d, k, y.dst);
      NotFriendly(men, c, y.dst);
    }
  }

  lemma NotFriendly(men: Men, c: Color, s: Square)
    ensures s !in men ==> !Friendly(men, c, s)
  {
  }

  lemma SlideStopsBy(men: Men, from: Square, d: Direction, k: int, to: Square)
    requires Stops(men, from, d, k) && Slides(men, from, d, to)
    ensures (to !in men && exists j :: 0 < j < k && to == Along(from, d, j)) ||
            (to in men && to == Along(from, d, k) && OnBoard(to))
  {
    var j :| 0 < j < 8 && to == Along(from, d, j) && Open(men, from, d, j);
    if k < j {
      assert Along(from, d, k) !in men;
      BeyondEdge(from, d, k, j);
    } else if j == k {
    } else {
      assert to !in men;
    }
  }

  lemma SlideReaches(men: Men, from: Square, d: Direction, k: int, to: Square)
    requires Stops(men, from, d, k)
    ensures (exists j :: 0 < j < k && to == Along(from, d, j)) ==> Slides(men, from, d, to) && to !in men
    ensures OnBoard(to) && to == Along(from, d, k) ==> Slides(men, from, d, to) && to in men
  {
    hide Along;
    if j :| 0 < j < k && to == Along(from, d, j) {
      assert Open(men, from, d, j);
    }
    if OnBoard(to) && to == Along(from, d, k) {
      EighthStep(from, d);
    }
  }

  lemma BeyondEdge(from: Square, d: Direction, k: int, j: int)
    requires OnBoard(from) && 0 < k < j && !OnBoard(Along(from, d, k))
    ensures !OnBoard(Along(from, d, j))
  {
  }

  lemma EighthStep(from: Square, d: Direction)
    requires OnBoard(from)
    ensures !OnBoard(Along(from, d, 8))
  {
  }

  method AppendSlidingMoves(p: Position, ghost men: Men, ghost from: Square, direction: Direction, side: Color,
                            srcSquare: Bitboard, pieceMoving: Piece, before: seq<Move>)
    returns (res: seq<Move>)
    requires p.Shows(men) && Friendly(men, side, from)
    requires srcSquare == Bit(from) && pieceMoving == PieceOn(men, from)
    ensures Appends(p, men, before, res, Slide(men, side, from, direction))
  {
    hide Bit, Has, Bitboard.Meets, Bitboard.Any, Bitboard.IsSquare, StepOf, Along, Appends, Clear, Slide, Walk,
         Position.AllPieces, Position.Enemies, Position.Friends;
    MasksShow(p, men, side);
    MeetsSquare(p.Friends(side), from);
    assert srcSquare.Meets(p.Friends(side));  // ABSL_RAW_CHECK
    res := before;
    StepIsAlong(direction, from);
    var currSquare := StepOf(direction, srcSquare);
    var allPiecesMask := p.AllPieces();
    ghost var k := 1;
    AppendsNothing(p, men, before);
    ClearAtFirst(men, from, direction);
    MeetsSquare(allPiecesMask, Along(from, direction, k));
    EighthStep(from, direction);
    while currSquare.Any() && !currSquare.Meets(allPiecesMask)
      invariant 0 < k <= 8 && currSquare == Bit(Along(from, direction, k))
      invariant currSquare.Any() <==> OnBoard(Along(from, direction, k))
      invariant currSquare.Meets(allPiecesMask) <==> Along(from, direction, k) in men
      invariant Clear(men, from, direction, k)
      invariant Appends(p, men, before, res, Walk(from, direction, k))
      decreases 8 - k
    {
      ghost var here := Along(from, direction, k);
      ghost var y := Ply(from, here, Simple);
      AppendsOne(p, men, res, y);
      WalkNext(from, direction, k);
      ClearNext(men, from, direction, k);
      AppendsMore(p, men, before, res, res + [Encode(p, men, y)], Walk(from, direction, k), iset{y});
      res := res + [Move(srcSquare, currSquare, pieceMoving, Simple, p)];
      StepIsAlong(direction, here);
      AlongNext(from, direction, k);
      currSquare := StepOf(direction, currSquare);
      k := k + 1;
      MeetsSquare(allPiecesMask, Along(from, direction, k));
    }
    ghost var stop := Along(from, direction, k);
    ghost var taken := Ply(from, stop, Capture);
    MeetsSquare(p.Enemies(side), stop);
    ghost var condition := OnBoard(stop) && !Friendly(men, side, stop);
    AppendsWhen(p, men, res, condition, taken);
    SlideIsWalk(men, side, from, direction, k);
    AppendsMore(p, men, before, res, if condition then res + [Encode(p, men, taken)] else res,
                Walk(from, direction, k), When(condition, taken));
    if currSquare.Meets(p.Enemies(side)) {
      res := res + [Move(srcSquare, currSquare, pieceMoving, Capture, p)];
    }
  }

  // The moves from a square in several directions.
  ghost function Slidings(men: Men, c: Color, from: Square, ds: seq<Direction>): iset<Ply> {
    iset y: Ply | InSomeDirection(men, c, from, ds, y)
  }

  ghost predicate InSomeDirection(men: Men, c: Color, from: Square, ds: seq<Direction>, y: Ply) {
    exists d :: d in ds && y in Slide(men, c, from, d)
  }

  lemma SlidingsStep(men: Men, c: Color, from: Square, ds: seq<Direction>, i: nat)
    requires i < |ds| && NoDuplicates(ds)
    ensures Slidings(men, c, from, ds[..i + 1]) == Slidings(men, c, from, ds[..i]) + Slide(men, c, from, ds[i])
    ensures Slidings(men, c, from, ds[..i]) !! Slide(men, c, from, ds[i])
  {
    hide Along;
    assert ds[..i + 1] == ds[..i] + [ds[i]];
    assert Slidings(men, c, from, ds[..i + 1]) == Slidings(men, c, from, ds[..i]) + Slide(men, c, from, ds[i]);
    forall d, y: Ply | d in ds[..i] && y in Slide(men, c, from, d) && y in Slide(men, c, from, ds[i])
      ensures false
    {
      var j :| 0 < j < 8 && y.dst == Along(from, d, j);
      var k :| 0 < k < 8 && y.dst == Along(from, ds[i], k);
      RaysAreDisjoint(from, d, ds[i], j, k);
    }
  }

  // The directions of a sliding piece.
  predicate Directs(piece: Piece, ds: seq<Direction>) {
    (piece == Bishop && ds == BISHOP_MOVE_DIRECTIONS) ||
    (piece == Rook && ds == ROOK_MOVE_DIRECTIONS) ||
    (piece == Queen && ds == ALL_DIRECTIONS)
  }

  lemma DirectionsOf(piece: Piece, ds: seq<Direction>, d: Direction)
    requires Directs(piece, ds)
    ensures d in ds <==> piece == Queen || (IsDiagonal(d) <==> piece == Bishop)
  {
    if piece == Queen {
      assert ds[0] == North && ds[1] == South && ds[2] == East && ds[3] == West;
      assert ds[4] == Northeast && ds[5] == Northwest && ds[6] == Southeast && ds[7] == Southwest;
    } else if piece == Rook {
      assert ds[0] == North && ds[1] == South && ds[2] == East && ds[3] == West;
    } else {
      assert ds[0] == Northeast && ds[1] == Northwest && ds[2] == Southeast && ds[3] == Southwest;
    }
  }

  lemma SlidingsArePieceMoves(men: Men, c: Color, piece: Piece, from: Square, ds: seq<Direction>)
    requires Directs(piece, ds)
    requires from in men && men[from] == Man(c, piece)
    ensures Slidings(men, c, from, ds[..|ds|]) == Within(PieceMoves(men, c, piece), Source, [from])
    ensures NoDuplicates(ds)
  {
    hide Slides, Friendly;
    assert ds[..|ds|] == ds;
    forall d { DirectionsOf(piece, ds, d); }
    forall y: Ply
      ensures y in Slidings(men, c, from, ds) <==> y in Within(PieceMoves(men, c, piece), Source, [from])
    {
      SlidesOnBoard(men, from, y.dst);
      if y in Slidings(men, c, from, ds) {
        var d :| d in ds && y in Slide(men, c, from, d);
        assert Slides(men, from, d, y.dst);
      }
      if PieceMove(men, c, piece, y) && y.src == from {
        var d :| Slides(men, from, d, y.dst) && (piece == Queen || (IsDiagonal(d) <==> piece == Bishop));
        assert d in ds && y in Slide(men, c, from, d);
      }
    }
  }

  lemma SlidesOnBoard(men: Men, from: Square, to: Square)
    ensures (exists d :: Slides(men, from, d, to)) ==> OnBoard(to)
  {
  }

  // The common loop of append_pseudolegal_bishop_moves, _rook_moves and _queen_moves.
  method AppendSliderMoves(p: Position, ghost men: Men, side: Color, piece: Piece, ds: seq<Direction>,
                           before: seq<Move>)
    returns (res: seq<Move>)
    requires p.Shows(men) && Directs(piece, ds)
    ensures Appends(p, men, before, res, PieceMoves(men, side, piece))
  {
    hide Bit, Has, Appends, PieceMove, Slide, Slidings;
    var pieces: seq<Bitboard>;
    ghost var sources: seq<Square>;
    pieces, sources := BitboardSplit(p.placement.Of(Man(side, piece)));
    res := before;
    ghost var moves := PieceMoves(men, side, piece);
    AppendsNothing(p, men, before);
    WithinEnds(moves, Source, sources);
    for i := 0 to |pieces|
      invariant Appends(p, men, before, res, Within(moves, Source, sources[..i]))
    {
      ghost var from, soFar := sources[i], res;
      assert from in sources;
      assert from in men && men[from] == Man(side, piece);
      SlidingsArePieceMoves(men, side, piece, from, ds);
      AppendsNothing(p, men, res);
      NoSlidings(men, side, from, ds);
      for j := 0 to |ds|
        invariant Appends(p, men, soFar, res, Slidings(men, side, from, ds[..j]))
      {
        var more := AppendSlidingMoves(p, men, from, ds[j], side, pieces[i], piece, res);
        SlidingsStep(men, side, from, ds, j);
        AppendsMore(p, men, soFar, res, more, Slidings(men, side, from, ds[..j]), Slide(men, side, from, ds[j]));
        res := more;
      }
      WithinStep(moves, Source, sources, i);
      AppendsMore(p, men, before, soFar, res, Within(moves, Source, sources[..i]), Within(moves, Source, [from]));
    }
    SourcesOfPieceMoves(p, men, side, piece, sources);
  }

  lemma NoSlidings(men: Men, c: Color, from: Square, ds: seq<Direction>)
    ensures Slidings(men, c, from, ds[..0]) == iset{}
  {
  }

  lemma SourcesOfPieceMoves(p: Position, men: Men, c: Color, piece: Piece, sources: seq<Square>)
    requires p.Shows(men) && forall s :: s in sources <==> Has(p.placement.Of(Man(c, piece)), s)
    ensures forall y :: y in PieceMoves(men, c, piece) ==> Source(y) in sources
  {
    hide Has, Placement.Of;
  }

  method AppendBishopMoves(p: Position, ghost men: Men, side: Color, before: seq<Move>) returns (res: seq<Move>)
    requires p.Shows(men)
    ensures Appends(p, men, before, res, PieceMoves(men, side, Bishop))
  {
    res := AppendSliderMoves(p, men, side, Bishop, BISHOP_MOVE_DIRECTIONS, before);
  }

  method AppendRookMoves(p: Position, ghost men: Men, side: Color, before: seq<Move>) returns (res: seq<Move>)
    requires p.Shows(men)
    ensures Appends(p, men, before, res, PieceMoves(men, side, Rook))
  {
    res := AppendSliderMoves(p, men, side, Rook, ROOK_MOVE_DIRECTIONS, before);
  }

  method AppendQueenMoves(p: Position, ghost men: Men, side: Color, before: seq<Move>) returns (res: seq<Move>)
    requires p.Shows(men)
    ensures Appends(p, men, before, res, PieceMoves(men, side, Queen))
  {
    res := AppendSliderMoves(p, men, side, Queen, ALL_DIRECTIONS, before);
  }

  // --- Kings and knights -----------------------------------------------------------------------------------

  ghost function KingTargets(from: Square): seq<Square> {
    seq(8, i requires 0 <= i < 8 => Along(from, ALL_DIRECTIONS[i], 1))
  }

  ghost function KnightTargets(from: Square): seq<Square> {
    seq(8, i requires 0 <= i < 8 => Along(Along(from, KNIGHT_MOVE_DIRECTIONS[i].0, 1), KNIGHT_MOVE_DIRECTIONS[i].1, 1))
  }

  lemma KingTable(from: Square)
    ensures NoDuplicates(KingTargets(from))
    ensures forall to :: Touches(from, to) <==> to in KingTargets(from)
  {
    var t := KingTargets(from);
    assert t == [Square(from.file, from.rank + 1), Square(from.file, from.rank - 1),
                 Square(from.file + 1, from.rank), Square(from.file - 1, from.rank),
                 Square(from.file + 1, from.rank + 1), Square(from.file - 1, from.rank + 1),
                 Square(from.file + 1, from.rank - 1), Square(from.file - 1, from.rank - 1)];
    forall to
      ensures Touches(from, to) <==> to in t
    {
      assert to in t <==> to == t[0] || to == t[1] || to == t[2] || to == t[3] ||
                          to == t[4] || to == t[5] || to == t[6] || to == t[7];
    }
  }

  // The table of src/board.h:73-82 is exactly the eight (1,2) leaps.
  lemma KnightTable(from: Square)
    ensures NoDuplicates(KnightTargets(from))
    ensures forall to :: Leaps(from, to) <==> to in KnightTargets(from)
  {
    var t := KnightTargets(from);
    assert t == [Square(from.file - 1, from.rank + 2), Square(from.file + 1, from.rank + 2),
                 Square(from.file - 2, from.rank + 1), Square(from.file - 2, from.rank - 1),
                 Square(from.file + 2, from.rank + 1), Square(from.file + 2, from.rank - 1),
                 Square(from.file + 1, from.rank - 2), Square(from.file - 1, from.rank - 2)];
    forall to
      ensures Leaps(from, to) <==> to in t
    {
      assert to in t <==> to == t[0] || to == t[1] || to == t[2] || to == t[3] ||
                          to == t[4] || to == t[5] || to == t[6] || to == t[7];
    }
  }

  // The moves of a king or knight to one of its targets.
  lemma LeapIsWhen(men: Men, c: Color, piece: Piece, from: Square, to: Square)
    requires from in men && men[from] == Man(c, piece)
    requires (piece == King && Touches(from, to)) || (piece == Knight && Leaps(from, to))
    ensures Within(Within(PieceMoves(men, c, piece), Source, [from]), Target, [to]) ==
            When(OnBoard(to) && !Friendly(men, c, to), Ply(from, to, KindOn(men, to)))
  {
  }

  // One king: its bitboard is the bit of its square.
  lemma KingBit(p: Placement, men: Men, c: Color) returns (king: Square)
    requires p.Shows(men) && OneKing(men, c)
    ensures king in men && men[king] == Man(c, King) && OnBoard(king)
    ensures p.Of(Man(c, King)) == Bit(king)
  {
    hide Bit, Has, Placement.Of;
    king :| king in men && men[king] == Man(c, King);
    HasBit(king);
    forall t
      ensures Has(p.Of(Man(c, King)), t) <==> Has(Bit(king), t)
    {
      assert Has(p.Of(Man(c, King)), t) <==> t in men && men[t] == Man(c, King);
    }
    Extensional(p.Of(Man(c, King)), Bit(king));
  }

  method AppendKingMoves(p: Position, ghost men: Men, side: Color, before: seq<Move>) returns (res: seq<Move>)
    requires p.Shows(men) && OneKing(men, side)
    ensures Appends(p, men, before, res, PieceMoves(men, side, King))
  {
    hide Bit, Has, Bitboard.Meets, Bitboard.Any, Bitboard.IsSquare, StepOf, Appends, PieceMove, Position.Enemies,
         Position.Friends, KingTargets, Along, Touches;
    var kingSq := p.placement.Of(Man(side, King));
    var friendsMask := p.Friends(side);
    MasksShow(p, men, side);
    ghost var king := KingBit(p.placement, men, side);
    ghost var targets := KingTargets(king);
    ghost var moves := Within(PieceMoves(men, side, King), Source, [king]);
    KingTable(king);
    KingTarget(king, 0);
    WithinEnds(moves, Target, targets);
    res := before;
    AppendsNothing(p, men, before);
    for j := 0 to |ALL_DIRECTIONS|
      invariant Appends(p, men, before, res, Within(moves, Target, targets[..j]))
    {
      ghost var to := Along(king, ALL_DIRECTIONS[j], 1);
      KingTarget(king, j);
      StepIsAlong(ALL_DIRECTIONS[j], king);
      var dstSquare := StepOf(ALL_DIRECTIONS[j], kingSq);
      MeetsSquare(friendsMask, to);
      MeetsSquare(p.Enemies(side), to);
      var friendlyPieceOnDstSquare := dstSquare.Meets(friendsMask);
      ghost var soFar, condition, y := res, OnBoard(to) && !Friendly(men, side, to), Ply(king, to, KindOn(men, to));
      if dstSquare.Any() && !friendlyPieceOnDstSquare {
        var enemyPieceOnDstSquare := dstSquare.Meets(p.Enemies(side));
        var moveType := if enemyPieceOnDstSquare then Capture else Simple;
        res := res + [Move(kingSq, dstSquare, King, moveType, p)];
      }
      AppendsWhen(p, men, soFar, condition, y);
      LeapIsWhen(men, side, King, king, to);
      WithinStep(moves, Target, targets, j);
      AppendsMore(p, men, before, soFar, res, Within(moves, Target, targets[..j]), Within(moves, Target, [to]));
    }
    KingMovesComplete(men, side, king);
  }

  lemma KingTarget(from: Square, i: nat)
    requires i < 8
    ensures |KingTargets(from)| == 8 == |ALL_DIRECTIONS|
    ensures KingTargets(from)[i] == Along(from, ALL_DIRECTIONS[i], 1)
    ensures Touches(from, KingTargets(from)[i])
  {
    KingTable(from);
    assert KingTargets(from)[i] in KingTargets(from);
  }

  lemma KingMovesComplete(men: Men, c: Color, king: Square)
    requires OneKing(men, c) && king in men && men[king] == Man(c, King)
    ensures Within(PieceMoves(men, c, King), Source, [king]) == PieceMoves(men, c, King)
    ensures forall y :: y in PieceMoves(men, c, King) ==> Target(y) in KingTargets(king)
  {
    KingTable(king);
  }

  lemma KnightTarget(from: Square, i: nat)
    requires i < 8 && OnBoard(from)
    ensures |KnightTargets(from)| == 8 == |KNIGHT_MOVE_DIRECTIONS|
    ensures var first := Along(from, KNIGHT_MOVE_DIRECTIONS[i].0, 1);
            KnightTargets(from)[i] == Along(first, KNIGHT_MOVE_DIRECTIONS[i].1, 1) &&
            (OnBoard(KnightTargets(from)[i]) ==> OnBoard(first))
    ensures Leaps(from, KnightTargets(from)[i])
  {
    KnightTable(from);
    assert KnightTargets(from)[i] in KnightTargets(from);
  }

  lemma KnightMovesComplete(men: Men, c: Color, from: Square)
    requires from in men && men[from] == Man(c, Knight)
    ensures forall y :: y in Within(PieceMoves(men, c, Knight), Source, [from]) ==> Target(y) in KnightTargets(from)
  {
    KnightTable(from);
  }

  method AppendKnightMoves(p: Position, ghost men: Men, side: Color, before: seq<Move>) returns (res: seq<Move>)
    requires p.Shows(men)
    ensures Appends(p, men, before, res, PieceMoves(men, side, Knight))
  {
    hide Bit, Has, Appends, PieceMove, Within;
    var knights: seq<Bitboard>;
    ghost var sources: seq<Square>;
    knights, sources := BitboardSplit(p.placement.Of(Man(side, Knight)));
    ghost var moves := PieceMoves(men, side, Knight);
    res := before;
    AppendsNothing(p, men, before);
    WithinEnds(moves, Source, sources);
    for i := 0 to |knights|
      invariant Appends(p, men, before, res, Within(moves, Source, sources[..i]))
    {
      ghost var from := sources[i];
      assert from in sources;
      var more := AppendMovesOfKnight(p, men, from, side, knights[i], res);
      WithinStep(moves, Source, sources, i);
      AppendsMore(p, men, before, res, more, Within(moves, Source, sources[..i]), Within(moves, Source, [from]));
      res := more;
    }
    SourcesOfPieceMoves(p, men, side, Knight, sources);
  }

  // The inner loop of append_pseudolegal_knight_moves.
  method AppendMovesOfKnight(p: Position, ghost men: Men, ghost from: Square, side: Color, knightSq: Bitboard,
                             before: seq<Move>)
    returns (res: seq<Move>)
    requires p.Shows(men) && from in men && men[from] == Man(side, Knight) && knightSq == Bit(from)
    ensures Appends(p, men, before, res, Within(PieceMoves(men, side, Knight), Source, [from]))
  {
    hide Bit, Has, Bitboard.Meets, Bitboard.Any, Bitboard.IsSquare, StepOf, Appends, PieceMove, Position.Enemies,
         Position.Friends, KnightTargets, Along, Leaps;
    var friendsMask := p.Friends(side);
    MasksShow(p, men, side);
    ghost var targets := KnightTargets(from);
    ghost var moves := Within(PieceMoves(men, side, Knight), Source, [from]);
    KnightTable(from);
    KnightTarget(from, 0);
    WithinEnds(moves, Target, targets);
    res := before;
    AppendsNothing(p, men, before);
    for j := 0 to |KNIGHT_MOVE_DIRECTIONS|
      invariant Appends(p, men, before, res, Within(moves, Target, targets[..j]))
    {
      var (dir1, dir2) := KNIGHT_MOVE_DIRECTIONS[j];
      ghost var first := Along(from, dir1, 1);
      ghost var to := Along(first, dir2, 1);
      KnightTarget(from, j);
      StepIsAlong(dir1, from);
      var firstStep := StepOf(dir1, knightSq);
      MeetsSquare(friendsMask, to);
      MeetsSquare(p.Enemies(side), to);
      ghost var soFar, condition, y := res, OnBoard(to) && !Friendly(men, side, to), Ply(from, to, KindOn(men, to));
      if firstStep.Any() {
        StepIsAlong(dir2, first);
        var dstSquare := StepOf(dir2, firstStep);
        var friendlyPieceOnDstSquare := dstSquare.Meets(friendsMask);
        if dstSquare.Any() && !friendlyPieceOnDstSquare {
          var enemyPieceOnDstSquare := dstSquare.Meets(p.Enemies(side));
          var moveType := if enemyPieceOnDstSquare then Capture else Simple;
          res := res + [Move(knightSq, dstSquare, Knight, moveType, p)];
        }
      }
      AppendsWhen(p, men, soFar, condition, y);
      LeapIsWhen(men, side, Knight, from, to);
      WithinStep(moves, Target, targets, j);
      AppendsMore(p, men, before, soFar, res, Within(moves, Target, targets[..j]), Within(moves, Target, [to]));
    }
    KnightMovesComplete(men, side, from);
  }
}
