/** Generation of pawn moves (src/board.cc:281-483). The source repeats each loop once per colour; here the
    colour picks the direction functions and masks instead. */
module Pawns {
  import opened Geometry
  import opened Wrappers
  import opened Bitboards
  import opened Chess
  import opened Positions
  import opened Pieces

  const SEVENTH_RANK_MASK := RankMask(6)
  const SECOND_RANK_MASK := RankMask(1)
  const THIRD_RANK_MASK := RankMask(2)
  const PROMOTION_MOVE_TYPES: seq<MoveType> := [PromotionToRook, PromotionToBishop, PromotionToKnight, PromotionToQueen]

  function AheadOf(side: Color, b: Bitboard): Bitboard
    requires b.IsSquare()
  {
    if side == White then NorthOf(b) else SouthOf(b)
  }

  function AheadEastOf(side: Color, b: Bitboard): Bitboard
    requires b.IsSquare()
  {
    if side == White then NortheastOf(b) else SoutheastOf(b)
  }

  function AheadWestOf(side: Color, b: Bitboard): Bitboard
    requires b.IsSquare()
  {
    if side == White then NorthwestOf(b) else SouthwestOf(b)
  }

  // The pawns about to promote stand on this rank.
  function BeforeLastMask(side: Color): Bitboard {
    if side == White then SEVENTH_RANK_MASK else SECOND_RANK_MASK
  }

  function FirstPawnMask(side: Color): Bitboard {
    if side == White then SECOND_RANK_MASK else SEVENTH_RANK_MASK
  }

  function EastAhead(side: Color, s: Square): Square {
    Square(s.file + 1, s.rank + Forward(side))
  }

  function WestAhead(side: Color, s: Square): Square {
    Square(s.file - 1, s.rank + Forward(side))
  }

  lemma Steps(side: Color, s: Square)
    requires OnBoard(s)
    ensures Bit(s).IsSquare()
    ensures AheadOf(side, Bit(s)) == Bit(Ahead(side, s, 1))
    ensures AheadEastOf(side, Bit(s)) == Bit(EastAhead(side, s))
    ensures AheadWestOf(side, Bit(s)) == Bit(WestAhead(side, s))
  {
    hide Bit, NorthOf, SouthOf, NortheastOf, NorthwestOf, SoutheastOf, SouthwestOf, EastOf, WestOf, Bitboard.Any,
         Bitboard.IsSquare;
    StepIsAlong(North, s);
    StepIsAlong(South, s);
    StepIsAlong(Northeast, s);
    StepIsAlong(Northwest, s);
    StepIsAlong(Southeast, s);
    StepIsAlong(Southwest, s);
  }

  // Pawns stand on ranks 2 to 7.
  ghost predicate PawnsInside(men: Men) {
    forall s :: s in men && men[s].piece == Pawn ==> 1 <= s.rank <= 6
  }

  lemma PawnBoards(p: Position, men: Men, side: Color)
    requires p.Shows(men) && PawnsInside(men)
    ensures var pawns := p.placement.Of(Man(side, Pawn));
            && (forall s :: Has(pawns, s) <==> PawnAt(men, side, s))
            && (forall s :: Has(pawns.And(BeforeLastMask(side).Not()), s) <==>
                            PawnAt(men, side, s) && s.rank + Forward(side) != LastRank(side))
            && (forall s :: Has(pawns.And(BeforeLastMask(side)), s) <==>
                            PawnAt(men, side, s) && s.rank + Forward(side) == LastRank(side))
            && (forall s :: Has(pawns.And(FirstPawnMask(side)), s) <==>
                            PawnAt(men, side, s) && s.rank == PawnRank(side))
  {
    hide Has, Placement.Of, MaskUpTo, Bitboard.And, Bitboard.Not;
    MaskHas(8, 1);
    MaskHas(8, 6);
    var pawns := p.placement.Of(Man(side, Pawn));
    NotHas(BeforeLastMask(side));
    AndHas(pawns, BeforeLastMask(side).Not());
    AndHas(pawns, BeforeLastMask(side));
    AndHas(pawns, FirstPawnMask(side));
  }

  // --- The sets of plies, by generator ---------------------------------------------------------------------

  ghost function StepPlies(men: Men, c: Color): iset<Ply> { iset y | PawnStep(men, c, y) }

  ghost function DoubleStepPlies(men: Men, c: Color): iset<Ply> { iset y | PawnDoubleStep(men, c, y) }

  ghost function TakingPlies(men: Men, c: Color): iset<Ply> { iset y | PawnTakes(men, c, y) }

  ghost function PromotionPlies(men: Men, c: Color): iset<Ply> { iset y | Promotes(men, c, y) }

  ghost function PassingPlies(men: Men, ep: Option<Square>, c: Color): iset<Ply> {
    iset y | TakesInPassing(men, ep, c, y)
  }

  ghost function PawnPlies(men: Men, ep: Option<Square>, c: Color): iset<Ply> { iset y | PawnMove(men, ep, c, y) }

  // --- Steps -----------------------------------------------------------------------------------------------

  method AppendSimplePawnMoves(p: Position, ghost men: Men, side: Color, before: seq<Move>) returns (res: seq<Move>)
    requires p.Shows(men) && PawnsInside(men)
    ensures Appends(p, men, before, res, StepPlies(men, side))
  {
    hide Bit, Has, Bitboard.And, Bitboard.Not, Bitboard.Meets, Bitboard.IsSquare, AheadOf, Appends, Within,
         Position.AllPieces, MaskUpTo;
    PawnBoards(p, men, side);
    MasksShow(p, men, side);
    var pawns: seq<Bitboard>;
    ghost var sources: seq<Square>;
    pawns, sources := BitboardSplit(p.placement.Of(Man(side, Pawn)).And(BeforeLastMask(side).Not()));
    ghost var plies := StepPlies(men, side);
    res := before;
    AppendsNothing(p, men, before);
    WithinEnds(plies, Source, sources);
    for i := 0 to |pawns|
      invariant Appends(p, men, before, res, Within(plies, Source, sources[..i]))
    {
      ghost var from, soFar := sources[i], res;
      ghost var to := Ahead(side, from, 1);
      assert from in sources;
      Steps(side, from);
      MeetsSquare(p.AllPieces(), to);
      var aheadOfPawn := AheadOf(side, pawns[i]);
      var blocked := p.AllPieces().Meets(aheadOfPawn);
      if !blocked {
        res := res + [Move(pawns[i], aheadOfPawn, Pawn, Simple, p)];
      }
      StepsOfPawn(men, side, from);
      AppendsWhen(p, men, soFar, to !in men, Ply(from, to, Simple));
      WithinStep(plies, Source, sources, i);
      AppendsMore(p, men, before, soFar, res, Within(plies, Source, sources[..i]), Within(plies, Source, [from]));
    }
  }

  lemma StepsOfPawn(men: Men, c: Color, from: Square)
    requires PawnAt(men, c, from) && OnBoard(from) && PawnsInside(men) && from.rank + Forward(c) != LastRank(c)
    ensures Within(StepPlies(men, c), Source, [from]) ==
            When(Ahead(c, from, 1) !in men, Ply(from, Ahead(c, from, 1), Simple))
    ensures OnBoard(Ahead(c, from, 1))
  {
  }

  method AppendTwoStepPawnMoves(p: Position, ghost men: Men, side: Color, before: seq<Move>) returns (res: seq<Move>)
    requires p.Shows(men) && PawnsInside(men)
    ensures Appends(p, men, before, res, DoubleStepPlies(men, side))
  {
    hide Bit, Has, Bitboard.And, Bitboard.Not, Bitboard.Meets, Bitboard.IsSquare, AheadOf, Appends, Within,
         Position.AllPieces, MaskUpTo;
    PawnBoards(p, men, side);
    MasksShow(p, men, side);
    var pawns: seq<Bitboard>;
    ghost var sources: seq<Square>;
    pawns, sources := BitboardSplit(p.placement.Of(Man(side, Pawn)).And(FirstPawnMask(side)));
    ghost var plies := DoubleStepPlies(men, side);
    res := before;
    AppendsNothing(p, men, before);
    WithinEnds(plies, Source, sources);
    for i := 0 to |pawns|
      invariant Appends(p, men, before, res, Within(plies, Source, sources[..i]))
    {
      ghost var from, soFar := sources[i], res;
      ghost var over, to := Ahead(side, from, 1), Ahead(side, from, 2);
      assert from in sources;
      DoubleStepsOfPawn(men, side, from);
      Steps(side, from);
      Steps(side, over);
      MeetsSquare(p.AllPieces(), over);
      MeetsSquare(p.AllPieces(), to);
      var aheadOfPawn := AheadOf(side, pawns[i]);
      var twoAheadOfPawn := AheadOf(side, aheadOfPawn);
      var blocked := p.AllPieces().Meets(aheadOfPawn) || p.AllPieces().Meets(twoAheadOfPawn);
      if !blocked {
        res := res + [Move(pawns[i], twoAheadOfPawn, Pawn, TwoStepPawn, p)];
      }
      AppendsWhen(p, men, soFar, over !in men && to !in men, Ply(from, to, TwoStepPawn));
      WithinStep(plies, Source, sources, i);
      AppendsMore(p, men, before, soFar, res, Within(plies, Source, sources[..i]), Within(plies, Source, [from]));
    }
  }

  lemma DoubleStepsOfPawn(men: Men, c: Color, from: Square)
    requires PawnAt(men, c, from) && OnBoard(from) && from.rank == PawnRank(c)
    ensures OnBoard(Ahead(c, from, 1)) && OnBoard(Ahead(c, from, 2))
    ensures Ahead(c, Ahead(c, from, 1), 1) == Ahead(c, from, 2)
    ensures Within(DoubleStepPlies(men, c), Source, [from]) ==
            When(Ahead(c, from, 1) !in men && Ahead(c, from, 2) !in men, Ply(from, Ahead(c, from, 2), TwoStepPawn))
  {
  }

  // --- Captures --------------------------------------------------------------------------------------------

  method AppendPawnCaptures(p: Position, ghost men: Men, side: Color, before: seq<Move>) returns (res: seq<Move>)
    requires p.Shows(men) && PawnsInside(men)
    ensures Appends(p, men, before, res, TakingPlies(men, side))
  {
    hide Bit, Has, Bitboard.And, Bitboard.Not, Bitboard.Meets, Bitboard.IsSquare, AheadEastOf, AheadWestOf, Appends,
         Within, Position.Enemies, MaskUpTo;
    PawnBoards(p, men, side);
    MasksShow(p, men, side);
    var pawns: seq<Bitboard>;
    ghost var sources: seq<Square>;
    pawns, sources := BitboardSplit(p.placement.Of(Man(side, Pawn)).And(BeforeLastMask(side).Not()));
    ghost var plies := TakingPlies(men, side);
    res := before;
    AppendsNothing(p, men, before);
    WithinEnds(plies, Source, sources);
    for i := 0 to |pawns|
      invariant Appends(p, men, before, res, Within(plies, Source, sources[..i]))
    {
      ghost var from, soFar := sources[i], res;
      assert from in sources;
      ghost var east, west := EastAhead(side, from), WestAhead(side, from);
      ghost var takesEast, takesWest := Friendly(men, Other(side), east), Friendly(men, Other(side), west);
      Steps(side, from);
      MeetsSquare(p.Enemies(side), east);
      MeetsSquare(p.Enemies(side), west);
      var eastOfPawn := AheadEastOf(side, pawns[i]);
      var canCaptureEast := p.Enemies(side).Meets(eastOfPawn);
      if canCaptureEast {
        res := res + [Move(pawns[i], eastOfPawn, Pawn, Capture, p)];
      }
      ghost var halfway := res;
      var westOfPawn := AheadWestOf(side, pawns[i]);
      var canCaptureWest := p.Enemies(side).Meets(westOfPawn);
      if canCaptureWest {
        res := res + [Move(pawns[i], westOfPawn, Pawn, Capture, p)];
      }
      CapturesOfPawn(men, side, from);
      AppendsWhen(p, men, soFar, takesEast, Ply(from, east, Capture));
      AppendsWhen(p, men, halfway, takesWest, Ply(from, west, Capture));
      AppendsMore(p, men, soFar, halfway, res, When(takesEast, Ply(from, east, Capture)),
                  When(takesWest, Ply(from, west, Capture)));
      WithinStep(plies, Source, sources, i);
      AppendsMore(p, men, before, soFar, res, Within(plies, Source, sources[..i]), Within(plies, Source, [from]));
    }
  }

  lemma CapturesOfPawn(men: Men, c: Color, from: Square)
    requires forall s :: s in men ==> OnBoard(s)
    requires PawnAt(men, c, from) && from.rank + Forward(c) != LastRank(c)
    ensures var east, west := EastAhead(c, from), WestAhead(c, from);
            Within(TakingPlies(men, c), Source, [from]) ==
            When(Friendly(men, Other(c), east), Ply(from, east, Capture)) +
            When(Friendly(men, Other(c), west), Ply(from, west, Capture))
  {
  }

  // --- En passant ------------------------------------------------------------------------------------------

  function BehindWestOf(side: Color, b: Bitboard): Bitboard
    requires b.IsSquare()
  {
    if side == White then SouthwestOf(b) else NorthwestOf(b)
  }

  function BehindEastOf(side: Color, b: Bitboard): Bitboard
    requires b.IsSquare()
  {
    if side == White then SoutheastOf(b) else NortheastOf(b)
  }

  method AppendEnPassantMoves(p: Position, ghost men: Men, ghost ep: Option<Square>, side: Color, before: seq<Move>)
    returns (res: seq<Move>)
    requires p.Shows(men)
    requires EpIs(p.enPassantSquare, ep)
    ensures Appends(p, men, before, res, PassingPlies(men, ep, side))
  {
    hide Bit, Has, Bitboard.Meets, Bitboard.IsSquare, AheadEastOf, AheadWestOf, Appends;
    res := before;
    if p.enPassantSquare.Some? {
      ghost var e := ep.value;
      ghost var west, east := WestAhead(Other(side), e), EastAhead(Other(side), e);
      Steps(Other(side), e);
      BehindIsAhead(side, e);
      var pawns := p.placement.Of(Man(side, Pawn));
      MeetsSquare(pawns, west);
      MeetsSquare(pawns, east);
      var epSquare := p.enPassantSquare.value;
      var eastOfEpSquare := BehindEastOf(side, epSquare);
      var westOfEpSquare := BehindWestOf(side, epSquare);
      if westOfEpSquare.Meets(pawns) {
        res := res + [Move(westOfEpSquare, epSquare, Pawn, EnPassant, p)];
      }
      ghost var halfway := res;
      if eastOfEpSquare.Meets(pawns) {
        res := res + [Move(eastOfEpSquare, epSquare, Pawn, EnPassant, p)];
      }
      ghost var fromWest, fromEast := PawnAt(men, side, west), PawnAt(men, side, east);
      AppendsWhen(p, men, before, fromWest, Ply(west, e, EnPassant));
      AppendsWhen(p, men, halfway, fromEast, Ply(east, e, EnPassant));
      AppendsMore(p, men, before, halfway, res, When(fromWest, Ply(west, e, EnPassant)),
                  When(fromEast, Ply(east, e, EnPassant)));
      PassingFrom(men, side, e);
    } else {
      AppendsNothing(p, men, before);
      assert PassingPlies(men, ep, side) == iset{};
    }
  }

  lemma BehindIsAhead(side: Color, s: Square)
    requires OnBoard(s) && Bit(s).IsSquare()
    ensures BehindWestOf(side, Bit(s)) == AheadWestOf(Other(side), Bit(s))
    ensures BehindEastOf(side, Bit(s)) == AheadEastOf(Other(side), Bit(s))
  {
  }

  lemma PassingFrom(men: Men, c: Color, e: Square)
    requires OnBoard(e)
    ensures var west, east := WestAhead(Other(c), e), EastAhead(Other(c), e);
            PassingPlies(men, Some(e), c) ==
            When(PawnAt(men, c, west), Ply(west, e, EnPassant)) + When(PawnAt(men, c, east), Ply(east, e, EnPassant))
  {
  }

  // --- Promotions ------------------------------------------------------------------------------------------

  method AppendPromotions(p: Position, ghost men: Men, side: Color, before: seq<Move>) returns (res: seq<Move>)
    requires p.Shows(men) && PawnsInside(men)
    ensures Appends(p, men, before, res, PromotionPlies(men, side))
  {
    hide Bit, Has, Bitboard.And, Appends, Within, MaskUpTo, Bitboard.IsSquare;
    PawnBoards(p, men, side);
    var pawns: seq<Bitboard>;
    ghost var sources: seq<Square>;
    pawns, sources := BitboardSplit(p.placement.Of(Man(side, Pawn)).And(BeforeLastMask(side)));
    ghost var plies := PromotionPlies(men, side);
    res := before;
    AppendsNothing(p, men, before);
    WithinEnds(plies, Source, sources);
    for i := 0 to |pawns|
      invariant Appends(p, men, before, res, Within(plies, Source, sources[..i]))
    {
      ghost var from, soFar := sources[i], res;
      assert from in sources;
      ghost var own := Within(plies, Source, [from]);
      AppendsNothing(p, men, res);
      WithinEnds(own, Kind, PROMOTION_MOVE_TYPES);
      for j := 0 to |PROMOTION_MOVE_TYPES|
        invariant Appends(p, men, soFar, res, Within(own, Kind, PROMOTION_MOVE_TYPES[..j]))
      {
        var kind := PROMOTION_MOVE_TYPES[j];
        var more := AppendPromotionsTo(p, men, from, side, pawns[i], kind, res);
        assert NoDuplicates(PROMOTION_MOVE_TYPES);
        WithinStep(own, Kind, PROMOTION_MOVE_TYPES, j);
        AppendsMore(p, men, soFar, res, more, Within(own, Kind, PROMOTION_MOVE_TYPES[..j]), Within(own, Kind, [kind]));
        res := more;
      }
      PromotionKinds(men, side, from);
      WithinStep(plies, Source, sources, i);
      AppendsMore(p, men, before, soFar, res, Within(plies, Source, sources[..i]), own);
    }
    SourcesOfPromotions(men, side);
  }

  // The body of the loop over promotion pieces.
  method AppendPromotionsTo(p: Position, ghost men: Men, ghost from: Square, side: Color, pawn: Bitboard,
                            kind: MoveType, before: seq<Move>)
    returns (res: seq<Move>)
    requires p.Shows(men) && PawnAt(men, side, from) && from.rank + Forward(side) == LastRank(side)
    requires pawn == Bit(from) && IsPromotion(kind)
    ensures Appends(p, men, before, res, Within(Within(PromotionPlies(men, side), Source, [from]), Kind, [kind]))
  {
    hide Bit, Has, Bitboard.Meets, Bitboard.IsSquare, AheadOf, AheadEastOf, AheadWestOf, Appends, Within,
         Position.Enemies, Position.AllPieces;
    MasksShow(p, men, side);
    Steps(side, from);
    ghost var ahead, east, west := Ahead(side, from, 1), EastAhead(side, from), WestAhead(side, from);
    MeetsSquare(p.AllPieces(), ahead);
    MeetsSquare(p.Enemies(side), east);
    MeetsSquare(p.Enemies(side), west);
    res := before;
    var aheadOfPawn := AheadOf(side, pawn);
    var blocked := p.AllPieces().Meets(aheadOfPawn);
    if !blocked {
      res := res + [Move(pawn, aheadOfPawn, Pawn, kind, p)];
    }
    ghost var first := res;
    var eastOfPawn := AheadEastOf(side, pawn);
    var enemyEast := p.Enemies(side).Meets(eastOfPawn);
    if enemyEast {
      res := res + [Move(pawn, eastOfPawn, Pawn, kind, p)];
    }
    ghost var second := res;
    var westOfPawn := AheadWestOf(side, pawn);
    var enemyWest := p.Enemies(side).Meets(westOfPawn);
    if enemyWest {
      res := res + [Move(pawn, westOfPawn, Pawn, kind, p)];
    }
    ghost var steps := When(ahead !in men, Ply(from, ahead, kind));
    ghost var takesEast := When(Friendly(men, Other(side), east), Ply(from, east, kind));
    ghost var takesWest := When(Friendly(men, Other(side), west), Ply(from, west, kind));
    PromotionsOfPawn(men, side, from, kind);
    AppendsWhen(p, men, before, ahead !in men, Ply(from, ahead, kind));
    AppendsWhen(p, men, first, Friendly(men, Other(side), east), Ply(from, east, kind));
    AppendsWhen(p, men, second, Friendly(men, Other(side), west), Ply(from, west, kind));
    AppendsMore(p, men, before, first, second, steps, takesEast);
    AppendsMore(p, men, before, second, res, steps + takesEast, takesWest);
  }

  lemma PromotionsOfPawn(men: Men, c: Color, from: Square, kind: MoveType)
    requires forall s :: s in men ==> OnBoard(s)
    requires PawnAt(men, c, from) && from.rank + Forward(c) == LastRank(c) && IsPromotion(kind)
    ensures var ahead, east, west := Ahead(c, from, 1), EastAhead(c, from), WestAhead(c, from);
            Within(Within(PromotionPlies(men, c), Source, [from]), Kind, [kind]) ==
            When(ahead !in men, Ply(from, ahead, kind)) +
            When(Friendly(men, Other(c), east), Ply(from, east, kind)) +
            When(Friendly(men, Other(c), west), Ply(from, west, kind))
    ensures OnBoard(Ahead(c, from, 1))
  {
  }

  lemma PromotionKinds(men: Men, c: Color, from: Square)
    ensures forall y :: y in Within(PromotionPlies(men, c), Source, [from]) ==> Kind(y) in PROMOTION_MOVE_TYPES
  {
    var kinds := PROMOTION_MOVE_TYPES;
    assert kinds[0] == PromotionToRook && kinds[1] == PromotionToBishop;
    assert kinds[2] == PromotionToKnight && kinds[3] == PromotionToQueen;
  }

  lemma SourcesOfPromotions(men: Men, c: Color)
    ensures forall y :: y in PromotionPlies(men, c) ==>
                        PawnAt(men, c, y.src) && y.src.rank + Forward(c) == LastRank(c)
  {
  }

  // --- All of them -----------------------------------------------------------------------------------------

  method AppendPawnMoves(p: Position, ghost men: Men, ghost ep: Option<Square>, side: Color, before: seq<Move>)
    returns (res: seq<Move>)
    requires p.Shows(men) && PawnsInside(men)
    requires EpIs(p.enPassantSquare, ep)
    requires ep.Some? ==> ep.value !in men
    ensures Appends(p, men, before, res, PawnPlies(men, ep, side))
  {
    hide Appends, Bit, Has;
    ghost var steps, doubles, takes := StepPlies(men, side), DoubleStepPlies(men, side), TakingPlies(men, side);
    var a := AppendSimplePawnMoves(p, men, side, before);
    var b := AppendTwoStepPawnMoves(p, men, side, a);
    var c := AppendPawnCaptures(p, men, side, b);
    var d := AppendEnPassantMoves(p, men, ep, side, c);
    res := AppendPromotions(p, men, side, d);
    AppendsMore(p, men, before, a, b, steps, doubles);
    AppendsMore(p, men, before, b, c, steps + doubles, takes);
    AppendsMore(p, men, before, c, d, steps + doubles + takes, PassingPlies(men, ep, side));
    ghost var passes, promotions := PassingPlies(men, ep, side), PromotionPlies(men, side);
    AppendsMore(p, men, before, d, res, steps + doubles + takes + passes, promotions);
    assert steps + doubles + takes + passes + promotions == PawnPlies(men, ep, side);
  }
}
