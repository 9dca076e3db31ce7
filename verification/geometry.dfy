/** The vocabulary shared by the rules of chess and by the bitboards: colours, men, squares given by
    coordinates, and the eight directions of src/board.h. */
module Geometry {

  datatype Color = White | Black

  datatype Piece = Pawn | Rook | Knight | Bishop | Queen | King

  datatype Man = Man(color: Color, piece: Piece)

  datatype Direction = North | South | East | West | Northeast | Northwest | Southeast | Southwest

  // File 0 is the a-file, rank 0 is White's first rank.
  datatype Square = Square(file: int, rank: int)

  predicate OnBoard(s: Square) {
    0 <= s.file < 8 && 0 <= s.rank < 8
  }

  function Other(c: Color): Color {
    if c == White then Black else White
  }

  // The square k steps from s in direction d, possibly off the board.
  function Along(s: Square, d: Direction, k: int): Square {
    match d
    case North => Square(s.file, s.rank + k)
    case South => Square(s.file, s.rank - k)
    case East => Square(s.file + k, s.rank)
    case West => Square(s.file - k, s.rank)
    case Northeast => Square(s.file + k, s.rank + k)
    case Northwest => Square(s.file - k, s.rank + k)
    case Southeast => Square(s.file + k, s.rank - k)
    case Southwest => Square(s.file - k, s.rank - k)
  }

  const ALL_DIRECTIONS: seq<Direction> := [North, South, East, West, Northeast, Northwest, Southeast, Southwest]
  const BISHOP_MOVE_DIRECTIONS: seq<Direction> := [Northeast, Northwest, Southeast, Southwest]
  const ROOK_MOVE_DIRECTIONS: seq<Direction> := [North, South, East, West]
  const KNIGHT_MOVE_DIRECTIONS: seq<(Direction, Direction)> := [
    (North, Northwest), (North, Northeast), (West, Northwest), (West, Southwest),
    (East, Northeast), (East, Southeast), (South, Southeast), (South, Southwest)]

  ghost predicate NoDuplicates<T>(s: seq<T>) {
    forall i, j :: 0 <= i < j < |s| ==> s[i] != s[j]
  }

  // Two rays from one square never meet.
  lemma RaysAreDisjoint(s: Square, d: Direction, e: Direction, j: int, k: int)
    requires 0 < j && 0 < k && Along(s, d, j) == Along(s, e, k)
    ensures d == e && j == k
  {
  }

  ghost function AllSquares(): set<Square> {
    set f, r | 0 <= f < 8 && 0 <= r < 8 :: Square(f, r)
  }

  lemma AllSquaresSize()
    ensures |AllSquares()| == 64
  {
    ghost var done: set<Square> := {};
    for r := 0 to 8
      invariant done == set f, q | 0 <= f < 8 && 0 <= q < r :: Square(f, q)
      invariant |done| == 8 * r
    {
      var line := {Square(0, r), Square(1, r), Square(2, r), Square(3, r),
                   Square(4, r), Square(5, r), Square(6, r), Square(7, r)};
      assert |line| == 8;
      assert done !! line;
      assert |done + line| == |done| + |line|;
      assert forall f | 0 <= f < 8 :: Square(f, r) in line;
      done := done + line;
    }
  }
}
