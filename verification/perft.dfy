/** number_of_moves (src/board.cc:1279-1291): counting lines of play on one mutable board. */
module Perft {
  import opened Geometry
  import opened Bitboards
  import opened Chess
  import opened Positions
  import opened Boards
  import opened Invariant
  import opened Legality
  import opened GameTree
  import opened Search

  // The lines of d legal plies from g.
  ghost function Lines(g: Game, d: nat): set<seq<Ply>>
    requires Valid(g)
    decreases d, 1
  {
    if d == 0 then {[]}
    else set y, line | y in LegalPlies(g) && line in Continuations(g, d, y) :: [y] + line
  }

  ghost function Continuations(g: Game, d: nat, y: Ply): set<seq<Ply>>
    requires Valid(g) && y in LegalPlies(g) && d > 0
    decreases d, 0
  {
    LegalPlyKeepsValid(g, y);
    Lines(After(g, y), d - 1)
  }

  lemma {:induction false} LinesMeaning(g: Game, d: nat, ys: seq<Ply>)
    requires Valid(g)
    ensures ys in Lines(g, d) <==> |ys| == d && LegalRun(g, ys)
    decreases d
  {
    hide Valid, LegalPlies, After, Legal;
    if d > 0 && ys != [] {
      assert ys == [ys[0]] + ys[1..];
      LegalPliesAreLegal(g, ys[0]);
      if ys[0] in LegalPlies(g) {
        LegalPlyKeepsValid(g, ys[0]);
        LinesMeaning(After(g, ys[0]), d - 1, ys[1..]);
        assert ys in Lines(g, d) <==> ys[1..] in Continuations(g, d, ys[0]) by { FirstOfLine(g, d, ys); }
      } else {
        SourceOfLegal(g, ys[0]);
      }
    }
  }

  lemma FirstOfLine(g: Game, d: nat, ys: seq<Ply>)
    requires Valid(g) && d > 0 && ys != [] && ys[0] in LegalPlies(g)
    ensures ys in Lines(g, d) <==> ys[1..] in Continuations(g, d, ys[0])
  {
    hide Valid, LegalPlies, Continuations;
    assert ys == [ys[0]] + ys[1..];
    if ys in Lines(g, d) {
      var y, line :| y in LegalPlies(g) && line in Continuations(g, d, y) && ys == [y] + line;
      assert line == ys[1..];
    }
  }

  lemma SourceOfLegal(g: Game, y: Ply)
    requires Valid(g) && y !in LegalPlies(g)
    ensures !Legal(g, y)
  {
    LegalPliesAreLegal(g, y);
  }

  // The lines that begin with one of `firsts`.
  ghost function LinesBy(g: Game, d: nat, firsts: seq<Ply>): set<seq<Ply>>
    requires Valid(g)
  {
    set line | line in Lines(g, d) && line != [] && line[0] in firsts
  }

  lemma PrefixedSize(y: Ply, s: set<seq<Ply>>)
    ensures |set line | line in s :: [y] + line| == |s|
  {
    var prefixed := set line | line in s :: [y] + line;
    if s != {} {
      Inhabited(s);
      var line :| line in s;
      var rest := set l | l in s - {line} :: [y] + l;
      PrefixedSize(y, s - {line});
      forall l | l in s && [y] + l == [y] + line
        ensures l == line
      {
        assert l == ([y] + l)[1..] && line == ([y] + line)[1..];
      }
      assert prefixed == rest + {[y] + line};
    } else {
      assert prefixed == {};
    }
  }

  lemma LinesByOne(g: Game, d: nat, y: Ply)
    requires Valid(g) && d > 0 && y in LegalPlies(g)
    ensures |LinesBy(g, d, [y])| == |Continuations(g, d, y)|
  {
    hide Valid, LegalPlies, Continuations, Lines;
    PrefixedSize(y, Continuations(g, d, y));
    var prefixed := set line | line in Continuations(g, d, y) :: [y] + line;
    forall ys
      ensures ys in LinesBy(g, d, [y]) <==> ys in prefixed
    {
      if ys != [] && ys[0] == y {
        FirstOfLine(g, d, ys);
        assert ys == [y] + ys[1..];
      }
      if ys in prefixed {
        var line :| line in Continuations(g, d, y) && ys == [y] + line;
        assert ys[1..] == line;
      }
    }
    assert LinesBy(g, d, [y]) == prefixed;
  }

  lemma LinesByStep(g: Game, d: nat, firsts: seq<Ply>, y: Ply)
    requires Valid(g) && d > 0 && y in LegalPlies(g) && y !in firsts
    ensures |LinesBy(g, d, firsts + [y])| == |LinesBy(g, d, firsts)| + |Continuations(g, d, y)|
  {
    hide Valid, LegalPlies, Continuations, Lines;
    LinesByOne(g, d, y);
    assert LinesBy(g, d, firsts + [y]) == LinesBy(g, d, firsts) + LinesBy(g, d, [y]);
    assert LinesBy(g, d, firsts) !! LinesBy(g, d, [y]);
  }

  lemma LinesByAll(g: Game, d: nat, firsts: seq<Ply>)
    requires Valid(g) && d > 0 && forall y :: y in LegalPlies(g) ==> y in firsts
    ensures LinesBy(g, d, firsts) == Lines(g, d)
    ensures LinesBy(g, d, []) == {}
  {
    hide Valid, LegalPlies, Continuations;
  }

  lemma PliesOfList(p: Position, men: Men, moves: seq<Move>, S: iset<Ply>, T: set<Ply>)
    requires Lists(p, men, moves, S) && forall y :: y in T <==> y in S
    ensures NoDuplicates(Plies(moves)) && forall y :: y in T <==> y in Plies(moves)
    ensures forall i :: 0 <= i < |moves| ==> moves[i] == Encode(p, men, Plies(moves)[i])
  {
    hide PlyOf, Encode, Lists;
    ListedPlies(p, men, moves, S, T);
    forall i | 0 <= i < |moves|
      ensures moves[i] == Encode(p, men, Plies(moves)[i]) && Plies(moves)[i] in T
    {
      ListsMember(p, men, moves, S, i);
    }
    forall i, j | 0 <= i < j < |moves|
      ensures Plies(moves)[i] != Plies(moves)[j]
    {
      ListsMember(p, men, moves, S, j);
      assert moves[i] in moves[..j];
    }
    forall y | y in T
      ensures y in Plies(moves)
    {
      var j :| 0 <= j < |moves| && PlyOf(moves[j]) == y;
      assert Plies(moves)[j] == y;
    }
  }

  // Doing and undoing every legal move in turn on one board counts the lines of legal play of length d: each
  // move carries the position it was generated in, so undoing it restores the board completely.
  method NumberOfMoves(p: Position, ghost g: Game, halfMoveDepth: nat) returns (res: nat)
    requires p.StandsFor(g) && Valid(g)
    ensures res == |Lines(g, halfMoveDepth)|
    decreases halfMoveDepth
  {
    hide Valid, LegalPlies, Lines, LinesBy, PlyOf, Encode, Plies, Position.StandsFor, After, Pseudolegal, Bit,
         CastlesKingside, CastlesQueenside, Continuations, Consistent, Playable, Writes;
    if halfMoveDepth == 0 {
      OneEmptyLine(g);
      return 1;
    }
    var board := new Board(p);
    res := 0;
    var moves := LegalMoves(board.Value(), g);
    ghost var firsts := Plies(moves);
    PliesOfList(p, g.men, moves, (iset y | y in LegalPlies(g)), LegalPlies(g));
    LinesByAll(g, halfMoveDepth, firsts);
    PliesSize(moves);
    assert firsts[..0] == [];
    for i := 0 to |moves|
      invariant board.Value() == p
      invariant res == |LinesBy(g, halfMoveDepth, firsts[..i])|
    {
      ghost var y := firsts[i];
      assert y in firsts;
      ReadyToPlay(p, g, y);
      ContinuationsAre(g, halfMoveDepth, y);
      board.DoMove(moves[i], g, y);
      var more := NumberOfMoves(board.Value(), After(g, y), halfMoveDepth - 1);
      res := res + more;
      board.UndoMove(moves[i]);
      EncodedState(p, g.men, y);
      assert firsts[..i + 1] == firsts[..i] + [y];
      LinesByStep(g, halfMoveDepth, firsts[..i], y);
    }
    assert firsts[..|moves|] == firsts;
  }

  lemma OneEmptyLine(g: Game)
    requires Valid(g)
    ensures |Lines(g, 0)| == 1
  {
    hide Valid;
  }

  lemma PliesSize(moves: seq<Move>)
    ensures |Plies(moves)| == |moves|
  {
  }

  lemma ContinuationsAre(g: Game, d: nat, y: Ply)
    requires Valid(g) && y in LegalPlies(g) && d > 0
    ensures y.src in g.men && Valid(After(g, y)) && Continuations(g, d, y) == Lines(After(g, y), d - 1)
  {
    hide Valid, LegalPlies, Lines, After;
    LegalPlyKeepsValid(g, y);
  }

  lemma EncodedState(p: Position, men: Men, y: Ply)
    ensures Encode(p, men, y).boardState == p
  {
  }
}
