/** The rules of chess on a plain board of men, after Article 3 of the FIDE Laws of Chess. Nothing in this
    module refers to bitboards or to the program; it is the specification the program is proved against. */
module Chess {
  import opened Geometry
  import opened Wrappers

  type Men = map<Square, Man>

  datatype MoveType =
    | Simple | EnPassant | CastleKingside | CastleQueenside | Capture | TwoStepPawn
    | PromotionToRook | PromotionToBishop | PromotionToKnight | PromotionToQueen

  datatype Rights = Rights(whiteKingside: bool, whiteQueenside: bool, blackKingside: bool, blackQueenside: bool)

  datatype Game = Game(men: Men, turn: Color, ep: Option<Square>, rights: Rights, clock: int, number: int)

  datatype Ply = Ply(src: Square, dst: Square, kind: MoveType)

  // --- Attacks: Articles 3.1.2 to 3.6 and 3.8.1 -------------------------------------------------------

  // Travelling from `from` in direction d one reaches `to` without leaping over a man.
  ghost predicate Slides(men: Men, from: Square, d: Direction, to: Square) {
    OnBoard(to) &&
    exists k :: 0 < k < 8 && to == Along(from, d, k) && Open(men, from, d, k)
  }

  // The squares strictly between `from` and the k-th square of the ray are vacant.
  ghost predicate Open(men: Men, from: Square, d: Direction, k: int) {
    forall j :: 0 < j < k ==> Along(from, d, j) !in men
  }

  predicate IsDiagonal(d: Direction) {
    d.Northeast? || d.Northwest? || d.Southeast? || d.Southwest?
  }

  function Forward(c: Color): int {
    if c == White then 1 else -1
  }

  predicate Touches(from: Square, to: Square) {
    from != to && -1 <= to.file - from.file <= 1 && -1 <= to.rank - from.rank <= 1
  }

  predicate Leaps(from: Square, to: Square) {
    var df, dr := to.file - from.file, to.rank - from.rank;
    ((df == 1 || df == -1) && (dr == 2 || dr == -2)) || ((df == 2 || df == -2) && (dr == 1 || dr == -1))
  }

  predicate PawnAttacks(c: Color, from: Square, to: Square) {
    to.rank == from.rank + Forward(c) && (to.file == from.file + 1 || to.file == from.file - 1)
  }

  ghost predicate Attacks(men: Men, from: Square, to: Square) {
    from in men && OnBoard(to) &&
    match men[from].piece
    case Pawn => PawnAttacks(men[from].color, from, to)
    case Knight => Leaps(from, to)
    case King => Touches(from, to)
    case Bishop => exists d :: IsDiagonal(d) && Slides(men, from, d, to)
    case Rook => exists d :: !IsDiagonal(d) && Slides(men, from, d, to)
    case Queen => exists d :: Slides(men, from, d, to)
  }

  ghost predicate Attacked(men: Men, side: Color, s: Square) {
    exists from :: from in men && men[from].color == side && Attacks(men, from, s)
  }

  ghost predicate InCheck(men: Men, c: Color) {
    exists k :: k in men && men[k] == Man(c, King) && Attacked(men, Other(c), k)
  }

  // --- Moves, before asking about the king's safety: Articles 3.1.1 and 3.2 to 3.8.1 --------------------

  predicate Friendly(men: Men, c: Color, s: Square) {
    s in men && men[s].color == c
  }

  ghost predicate PieceMove(men: Men, c: Color, p: Piece, y: Ply) {
    && p != Pawn
    && y.src in men && men[y.src] == Man(c, p)
    && Attacks(men, y.src, y.dst)
    && !Friendly(men, c, y.dst)
    && y.kind == (if y.dst in men then Capture else Simple)
  }

  function LastRank(c: Color): int {
    if c == White then 7 else 0
  }

  function PawnRank(c: Color): int {
    if c == White then 1 else 6
  }

  predicate IsPromotion(k: MoveType) {
    k.PromotionToRook? || k.PromotionToBishop? || k.PromotionToKnight? || k.PromotionToQueen?
  }

  predicate PawnAt(men: Men, c: Color, s: Square) {
    s in men && men[s] == Man(c, Pawn)
  }

  function Ahead(c: Color, s: Square, n: int): Square {
    if c == White then Square(s.file, s.rank + n) else Square(s.file, s.rank - n)
  }

  // One step forward, not to the last rank.
  predicate PawnStep(men: Men, c: Color, y: Ply) {
    PawnAt(men, c, y.src) && OnBoard(y.dst) && y.dst == Ahead(c, y.src, 1) && y.dst !in men &&
    y.dst.rank != LastRank(c) && y.kind == Simple
  }

  predicate PawnDoubleStep(men: Men, c: Color, y: Ply) {
    PawnAt(men, c, y.src) && y.src.rank == PawnRank(c) && y.dst == Ahead(c, y.src, 2) &&
    Ahead(c, y.src, 1) !in men && y.dst !in men && y.kind == TwoStepPawn
  }

  predicate PawnTakes(men: Men, c: Color, y: Ply) {
    PawnAt(men, c, y.src) && OnBoard(y.dst) && PawnAttacks(c, y.src, y.dst) &&
    Friendly(men, Other(c), y.dst) && y.dst.rank != LastRank(c) && y.kind == Capture
  }

  // Article 3.7.5: reaching the last rank, by a step or by a capture.
  predicate Promotes(men: Men, c: Color, y: Ply) {
    PawnAt(men, c, y.src) && OnBoard(y.dst) && y.dst.rank == LastRank(c) && IsPromotion(y.kind) &&
    ((y.dst == Ahead(c, y.src, 1) && y.dst !in men) ||
     (PawnAttacks(c, y.src, y.dst) && Friendly(men, Other(c), y.dst)))
  }

  // Article 3.7.4: ep is the square an enemy pawn has just passed over.
  predicate TakesInPassing(men: Men, ep: Option<Square>, c: Color, y: Ply) {
    PawnAt(men, c, y.src) && OnBoard(y.dst) && ep == Some(y.dst) && PawnAttacks(c, y.src, y.dst) &&
    y.kind == EnPassant
  }

  ghost predicate PawnMove(men: Men, ep: Option<Square>, c: Color, y: Ply) {
    PawnStep(men, c, y) || PawnDoubleStep(men, c, y) || PawnTakes(men, c, y) || Promotes(men, c, y) ||
    TakesInPassing(men, ep, c, y)
  }

  // Every move of colour c except castling, whether or not it leaves its king attacked.
  ghost predicate Pseudolegal(men: Men, ep: Option<Square>, c: Color, y: Ply) {
    PawnMove(men, ep, c, y) || exists p :: PieceMove(men, c, p, y)
  }

  // --- Castling: Article 3.8.2 -----------------------------------------------------------------------------

  function HomeRank(c: Color): int {
    if c == White then 0 else 7
  }

  function KingsideRight(r: Rights, c: Color): bool {
    if c == White then r.whiteKingside else r.blackKingside
  }

  function QueensideRight(r: Rights, c: Color): bool {
    if c == White then r.whiteQueenside else r.blackQueenside
  }

  predicate At(men: Men, file: int, rank: int, m: Man) {
    Square(file, rank) in men && men[Square(file, rank)] == m
  }

  // The king stands on e, the rook on h; f and g are vacant; e, f and g are not attacked.
  ghost predicate CastlesKingside(g: Game, y: Ply) {
    var c, r := g.turn, HomeRank(g.turn);
    && KingsideRight(g.rights, c)
    && At(g.men, 4, r, Man(c, King)) && At(g.men, 7, r, Man(c, Rook))
    && Square(5, r) !in g.men && Square(6, r) !in g.men
    && !Attacked(g.men, Other(c), Square(4, r))
    && !Attacked(g.men, Other(c), Square(5, r))
    && !Attacked(g.men, Other(c), Square(6, r))
    && y == Ply(Square(4, r), Square(6, r), CastleKingside)
  }

  // The king stands on e, the rook on a; b, c and d are vacant; c, d and e are not attacked.
  ghost predicate CastlesQueenside(g: Game, y: Ply) {
    var c, r := g.turn, HomeRank(g.turn);
    && QueensideRight(g.rights, c)
    && At(g.men, 4, r, Man(c, King)) && At(g.men, 0, r, Man(c, Rook))
    && Square(1, r) !in g.men && Square(2, r) !in g.men && Square(3, r) !in g.men
    && !Attacked(g.men, Other(c), Square(4, r))
    && !Attacked(g.men, Other(c), Square(3, r))
    && !Attacked(g.men, Other(c), Square(2, r))
    && y == Ply(Square(4, r), Square(2, r), CastleQueenside)
  }

  // --- Playing a move --------------------------------------------------------------------------------------

  function PromotedPiece(k: MoveType): Piece
    requires IsPromotion(k)
  {
    match k
    case PromotionToRook => Rook
    case PromotionToBishop => Bishop
    case PromotionToKnight => Knight
    case PromotionToQueen => Queen
  }

  function Relocate(men: Men, from: Square, to: Square): Men
    requires from in men
  {
    (men - {from})[to := men[from]]
  }

  function MenAfter(men: Men, y: Ply): Men
    requires y.src in men
  {
    match y.kind
    case EnPassant => Relocate(men, y.src, y.dst) - {Square(y.dst.file, y.src.rank)}
    case CastleKingside =>
      var rook := Square(7, y.src.rank);
      var moved := Relocate(men, y.src, y.dst);
      if rook in moved then Relocate(moved, rook, Square(5, y.src.rank)) else moved
    case CastleQueenside =>
      var rook := Square(0, y.src.rank);
      var moved := Relocate(men, y.src, y.dst);
      if rook in moved then Relocate(moved, rook, Square(3, y.src.rank)) else moved
    case Simple => Relocate(men, y.src, y.dst)
    case Capture => Relocate(men, y.src, y.dst)
    case TwoStepPawn => Relocate(men, y.src, y.dst)
    case _ => (men - {y.src})[y.dst := Man(men[y.src].color, PromotedPiece(y.kind))]
  }

  // A castling right is lost for good once a man leaves the king's or the rook's square, or the rook is taken.
  function KeepsRight(right: bool, king: Square, rook: Square, y: Ply): bool {
    right && y.src != king && y.src != rook && y.dst != rook
  }

  function RightsAfter(r: Rights, y: Ply): Rights {
    Rights(
      KeepsRight(r.whiteKingside, Square(4, 0), Square(7, 0), y),
      KeepsRight(r.whiteQueenside, Square(4, 0), Square(0, 0), y),
      KeepsRight(r.blackKingside, Square(4, 7), Square(7, 7), y),
      KeepsRight(r.blackQueenside, Square(4, 7), Square(0, 7), y))
  }

  function After(g: Game, y: Ply): Game
    requires y.src in g.men
  {
    Game(
      MenAfter(g.men, y),
      Other(g.turn),
      if y.kind == TwoStepPawn then Some(Square(y.src.file, (y.src.rank + y.dst.rank) / 2)) else None,
      RightsAfter(g.rights, y),
      g.clock,
      g.number + if g.turn == Black then 1 else 0)
  }

  // --- Legal moves: Article 3.9 ----------------------------------------------------------------------------

  ghost predicate Legal(g: Game, y: Ply) {
    || (Pseudolegal(g.men, g.ep, g.turn, y) && !InCheck(MenAfter(g.men, y), g.turn))
    || CastlesKingside(g, y)
    || CastlesQueenside(g, y)
  }

  // A ply that moves as the men do, whatever becomes of the king.
  ghost predicate Playable(g: Game, y: Ply) {
    Pseudolegal(g.men, g.ep, g.turn, y) || CastlesKingside(g, y) || CastlesQueenside(g, y)
  }

  // Every ply that can be written down.
  ghost function AllPlies(): set<Ply> {
    set src, dst, kind: MoveType | src in AllSquares() && dst in AllSquares() :: Ply(src, dst, kind)
  }

  ghost function LegalPlies(g: Game): set<Ply> {
    set y | y in AllPlies() && y.src in g.men && Legal(g, y)
  }

  // --- Well-formed games -----------------------------------------------------------------------------------

  ghost predicate OneKing(men: Men, c: Color) {
    (exists k :: k in men && men[k] == Man(c, King)) &&
    forall j, k :: j in men && k in men && men[j] == Man(c, King) && men[k] == Man(c, King) ==> j == k
  }

  // What any board of men must satisfy: all on the board, one king each, no pawn on a last rank.
  ghost predicate Orderly(men: Men) {
    && (forall s :: s in men ==> OnBoard(s))
    && OneKing(men, White) && OneKing(men, Black)
    && (forall s :: s in men && men[s].piece == Pawn ==> 1 <= s.rank <= 6)
  }

  predicate RightsBacked(men: Men, r: Rights) {
    && (r.whiteKingside ==> At(men, 4, 0, Man(White, King)) && At(men, 7, 0, Man(White, Rook)))
    && (r.whiteQueenside ==> At(men, 4, 0, Man(White, King)) && At(men, 0, 0, Man(White, Rook)))
    && (r.blackKingside ==> At(men, 4, 7, Man(Black, King)) && At(men, 7, 7, Man(Black, Rook)))
    && (r.blackQueenside ==> At(men, 4, 7, Man(Black, King)) && At(men, 0, 7, Man(Black, Rook)))
  }

  // The enemy of `turn` has just moved a pawn two squares, over the vacant square ep.
  predicate PassedOver(men: Men, turn: Color, ep: Square) {
    && OnBoard(ep) && ep.rank == PawnRank(Other(turn)) + Forward(Other(turn))
    && ep !in men && Ahead(turn, ep, 1) !in men
    && PawnAt(men, Other(turn), Ahead(turn, ep, -1))
  }

  ghost predicate Consistent(g: Game) {
    Orderly(g.men) && RightsBacked(g.men, g.rights) && (g.ep.Some? ==> PassedOver(g.men, g.turn, g.ep.value))
  }

  // The invariant of play: moreover the side that has just moved is not in check.
  ghost predicate Valid(g: Game) {
    Consistent(g) && !InCheck(g.men, Other(g.turn))
  }
}
