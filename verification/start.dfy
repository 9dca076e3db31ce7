/** The starting position (src/board.cc:16-20, 48): the invariant holds there, so it holds in every game. */
module Start {
  import opened Geometry
  import opened Wrappers
  import opened Chess
  import opened Invariant
  import opened Articles
  import opened Attacking
  import opened Positions

  function BackRank(file: int): Piece {
    if file == 0 || file == 7 then Rook
    else if file == 1 || file == 6 then Knight
    else if file == 2 || file == 5 then Bishop
    else if file == 3 then Queen
    else King
  }

  ghost function StartMen(): Men {
    map s | s in AllSquares() && (s.rank <= 1 || 6 <= s.rank) ::
      Man(if s.rank <= 1 then White else Black, if s.rank == 1 || s.rank == 6 then Pawn else BackRank(s.file))
  }

  // rnbqkbnr/pppppppp/8/8/8/8/PPPPPPPP/RNBQKBNR w KQkq - 0 1
  ghost function StartGame(): Game {
    Game(StartMen(), White, None, Rights(true, true, true, true), 0, 1)
  }

  lemma OnStart(s: Square)
    ensures s in StartMen() <==> OnBoard(s) && (s.rank <= 1 || 6 <= s.rank)
  {
    assert s in AllSquares() <==> OnBoard(s);
  }

  // A line from White's two ranks to Black's last rank would leap over the pawns on the seventh.
  lemma NoLongSlide(from: Square, d: Direction, to: Square)
    requires OnBoard(from) && from.rank <= 1 && to.rank == 7
    ensures !Slides(StartMen(), from, d, to)
  {
    hide StartMen;
    forall k | 0 < k < 8 && OnBoard(to) && to == Along(from, d, k)
      ensures !Open(StartMen(), from, d, k)
    {
      var over := Along(from, d, k - 1);
      OnStart(over);
      assert over in StartMen();
    }
  }

  lemma NoAttackAtStart(from: Square, to: Square)
    requires from in StartMen() && StartMen()[from].color == White && to.rank == 7
    ensures !Attacks(StartMen(), from, to)
  {
    hide Slides;
    forall d { NoLongSlide(from, d, to); }
  }

  lemma ManAtStart(s: Square)
    requires s in StartMen()
    ensures StartMen()[s].color == (if s.rank <= 1 then White else Black)
    ensures StartMen()[s].piece == (if s.rank == 1 || s.rank == 6 then Pawn else BackRank(s.file))
  {
  }

  lemma OneKingAtStart(c: Color)
    ensures OneKing(StartMen(), c)
  {
    hide StartMen;
    var k := Square(4, HomeRank(c));
    OnStart(k);
    ManAtStart(k);
    assert k in StartMen() && StartMen()[k] == Man(c, King);
    forall j | j in StartMen() && StartMen()[j] == Man(c, King)
      ensures j == k
    {
      OnStart(j);
      ManAtStart(j);
    }
  }

  lemma StartIsOrderly()
    ensures Orderly(StartMen()) && RightsBacked(StartMen(), Rights(true, true, true, true))
  {
    hide StartMen, OneKing;
    OneKingAtStart(White);
    OneKingAtStart(Black);
    forall s | s in StartMen()
      ensures OnBoard(s) && (StartMen()[s].piece == Pawn ==> 1 <= s.rank <= 6)
    {
      OnStart(s);
      ManAtStart(s);
    }
    HomeAtStart(White);
    HomeAtStart(Black);
  }

  lemma HomeAtStart(c: Color)
    ensures At(StartMen(), 4, HomeRank(c), Man(c, King))
    ensures At(StartMen(), 0, HomeRank(c), Man(c, Rook)) && At(StartMen(), 7, HomeRank(c), Man(c, Rook))
  {
    hide StartMen;
    OnStart(Square(4, HomeRank(c)));
    OnStart(Square(0, HomeRank(c)));
    OnStart(Square(7, HomeRank(c)));
    ManAtStart(Square(4, HomeRank(c)));
    ManAtStart(Square(0, HomeRank(c)));
    ManAtStart(Square(7, HomeRank(c)));
  }

  lemma KingAtStart(k: Square)
    requires k in StartMen() && StartMen()[k] == Man(Black, King)
    ensures k.rank == 7
  {
  }

  lemma StartIsValid()
    ensures Valid(StartGame())
  {
    hide StartMen, Orderly, RightsBacked, Attacks;
    StartIsOrderly();
    forall k | k in StartMen() && StartMen()[k] == Man(Black, King)
      ensures !Attacked(StartMen(), White, k)
    {
      KingAtStart(k);
      forall from | from in StartMen() && StartMen()[from].color == White
        ensures !Attacks(StartMen(), from, k)
      {
        NoAttackAtStart(from, k);
      }
    }
  }

  // Every game that legal play reaches from the starting position is valid.
  lemma EveryGameIsValid(ys: seq<Ply>)
    requires LegalRun(StartGame(), ys)
    ensures Valid(AfterRun(StartGame(), ys))
  {
    hide Valid, StartGame;
    StartIsValid();
    RunKeepsValid(StartGame(), ys);
  }

  // From the starting position, the number of the move and the castling rights can be read off the moves played.
  lemma GameMeaning(ys: seq<Ply>)
    requires LegalRun(StartGame(), ys)
    ensures var e := AfterRun(StartGame(), ys);
            && (e.turn == White <==> |ys| % 2 == 0) && e.number == 1 + |ys| / 2 && e.clock == 0
            && (e.rights.whiteKingside <==>
                  forall y :: y in ys ==> y.src != Square(4, 0) && y.src != Square(7, 0) && y.dst != Square(7, 0))
            && (e.rights.whiteQueenside <==>
                  forall y :: y in ys ==> y.src != Square(4, 0) && y.src != Square(0, 0) && y.dst != Square(0, 0))
            && (e.rights.blackKingside <==>
                  forall y :: y in ys ==> y.src != Square(4, 7) && y.src != Square(7, 7) && y.dst != Square(7, 7))
            && (e.rights.blackQueenside <==>
                  forall y :: y in ys ==> y.src != Square(4, 7) && y.src != Square(0, 7) && y.dst != Square(0, 7))
  {
    hide StartMen, LegalRun, AfterRun;
    RunMeaning(StartGame(), ys);
  }

  // --- The diagram of the starting position ------------------------------------------------------------------

  // Rank by rank from White's side, in the letters of a FEN string.
  lemma StartIsDiagram(s: Square)
    requires OnBoard(s)
    ensures var letters := map[
              'P' := Man(White, Pawn), 'N' := Man(White, Knight), 'B' := Man(White, Bishop),
              'R' := Man(White, Rook), 'Q' := Man(White, Queen), 'K' := Man(White, King),
              'p' := Man(Black, Pawn), 'n' := Man(Black, Knight), 'b' := Man(Black, Bishop),
              'r' := Man(Black, Rook), 'q' := Man(Black, Queen), 'k' := Man(Black, King)];
            var rank := ["RNBQKBNR", "PPPPPPPP", "........", "........",
                         "........", "........", "pppppppp", "rnbqkbnr"][s.rank];
            |rank| == 8 &&
            if rank[s.file] in letters then s in StartMen() && StartMen()[s] == letters[rank[s.file]]
            else s !in StartMen()
  {
    hide StartMen;
    OnStart(s);
    if s in StartMen() {
      ManAtStart(s);
    }
  }

  // --- attack_squares is not the set of attacked squares ---------------------------------------------------

  // e4 is in it, because a pawn can be pushed there, but nothing attacks it.
  lemma PushedToIsNotAttacked()
    ensures Reaches(StartMen(), None, White, Square(4, 3)) && !Attacked(StartMen(), White, Square(4, 3))
  {
    hide StartMen, Orderly, Reaches;
    var e4 := Square(4, 3);
    StartIsOrderly();
    ReachesMeaning(StartMen(), None, White, e4);
    OnStart(e4);
    OnStart(Square(4, 2));
    OnStart(Square(4, 1));
    ManAtStart(Square(4, 1));
    assert Pushes(StartMen(), White, e4);
    forall from | from in StartMen() && StartMen()[from].color == White
      ensures !Attacks(StartMen(), from, e4)
    {
      OnStart(from);
      ManAtStart(from);
      if from.rank == 0 {
        forall d { NoSlideToFourth(from, d, e4); }
      }
    }
  }

  // From White's first rank a line to the fourth would leap over the pawns on the second.
  lemma NoSlideToFourth(from: Square, d: Direction, to: Square)
    requires OnBoard(from) && from.rank == 0 && to.rank == 3
    ensures !Slides(StartMen(), from, d, to)
  {
    hide StartMen;
    forall k | 0 < k < 8 && OnBoard(to) && to == Along(from, d, k)
      ensures !Open(StartMen(), from, d, k)
    {
      var over := Along(from, d, 1);
      OnStart(over);
      assert over in StartMen();
    }
  }

  // d1 is not in it, because the queen stands there, but the king defends her.
  lemma DefendedIsNotReached()
    ensures !Reaches(StartMen(), None, White, Square(3, 0)) && Attacked(StartMen(), White, Square(3, 0))
  {
    hide StartMen, Orderly, Reaches;
    var d1 := Square(3, 0);
    StartIsOrderly();
    ReachesMeaning(StartMen(), None, White, d1);
    OnStart(d1);
    ManAtStart(d1);
    HomeAtStart(White);
    ManAtStart(Square(4, 0));
    assert Attacks(StartMen(), Square(4, 0), d1);
    forall from | PawnAt(StartMen(), White, from)
      ensures !PawnAttacks(White, from, d1)
    {
      OnStart(from);
    }
  }

  // --- The Board of the starting position ------------------------------------------------------------------

  // Some Board stands for the starting position, so the theorems about valid positions speak of every game.
  lemma SomeStartPosition() returns (p: Position)
    ensures p.StandsFor(StartGame()) && Valid(StartGame())
  {
    hide Consistent, StartMen;
    StartIsValid();
    p := SomePosition(StartGame());
  }
}
