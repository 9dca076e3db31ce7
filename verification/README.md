# A model of a chess engine and of the library code below it

The project models two things in Dafny and proves what they are for.

**The chess engine** (`src/board.cc`, `src/board.h`), in four layers.

* *Bitboards* (`words.dfy`, `bitboards.dfy`, `positions.dfy`): single-bit words, direction shifts, splitting and
  counting, and the twelve bitboards of a board as one placement of men.
* *Moves* (`geometry.dfy`, `chess.dfy`, `pieces.dfy`, `pawns.dfy`, `attacks.dfy`, `board.dfy`, `legality.dfy`,
  `invariant.dfy`, `articles.dfy`, `start.dfy`). `chess.dfy` states articles 3.1 to 3.9 of the FIDE Laws of Chess on a map from
  squares to men, without any bitboard. Against it stand the move generators, `attack_squares`, the castling guards,
  `do_move` and `undo_move` on a mutable `Board`, the filter for checks, and the invariant that makes all of them
  right. `articles.dfy` says in coordinates and in terms of check what the rules of `chess.dfy` come to.
* *Search* (`gametree.dfy`, `search.dfy`): plain minimax with quiescence on games, and the fail-hard alpha-beta
  search that refines it, with its principal variation.
* *Perft* (`perft.dfy`), and the symmetry of the two colours (`symmetry.dfy`).

**Code of the vendored Abseil**, each part on its own: `call_once` (`callonce.dfy`), two-word arithmetic and its
division (`int128.dfy`), rounding of hexadecimal floats (`hexfloat.dfy`), printing and parsing of integers
(`numbers.dfy`), C escapes (`cescape.dfy`), Base64 (`base64.dfy`) and `InlinedVector` (`inlinedvector.dfy`);
`powers.dfy`, `ascii.dfy` and `wrappers.dfy` are shared.

## How the model relates to the source

* A `Position` is the value that copying a `Board` copies, a `Game` what it stands for: men, turn, rights, e.p. square
  and the two counters. `StandsFor` relates them, `Valid` is the invariant. Parameters named `g`, `men` or `y` are
  ghost: they name the game or the move that the machine data stand for.
* The twelve bitboard fields are one record, `placement`; pointers into `all_bitboards` are updates of it. A bitboard
  is a 64-bit vector in a record of one field. `BitAt(n)` stands for `lsb_bitboard << n`.
* The code written once for White and once for Black is modelled once, with directions and masks chosen by the colour;
  which function is chosen is what the source has in each copy.
* A `std::vector<Move>*` that is appended to is a list passed in and out; `Appends` says what has been appended.
  `remove_if` is a loop that keeps the rest. Passing a `Board` by value is passing a `Position`.
* Words of `int128.h`, mantissas and accumulators are numbers, with every wrap-around written out; `|` is defined bit by
  bit. Iterators and pointers are indices; what is in or out of bounds is proved.
* Storage of `InlinedVector` consists of slots that are raw, moved from, or hold a value. Constructing needs a raw slot,
  assigning and destroying need an object, so the lifetimes are checked along with the contents.

## Where the code and its documentation differ

* A hexadecimal escape `\x...` is documented to be refused above 0xff. The accumulator has 32 bits, so exactly the
  escapes whose number is above 0xff modulo 2^32 are refused (`CEscape.HexEscapeIsModular`, `CEscape.HexEscapeWraps`).
* `ShiftRightAndRound` is documented to round to nearest. From a shift of 128 on it returns 0, which is nearest exactly
  when the value is at most half of 2^shift, or 2 less when there is an error (`HexFloat.ShiftRightAndRound`,
  `HexFloat.OverHalfIsLost`, `HexFloat.NearHalfIsLost`). Neither caller passes a larger value with such a shift.
* `attack_squares` is documented to be the squares attacked by a side. It is something else (`Attacking.ReachesMeaning`,
  `Start.PushedToIsNotAttacked`, `Start.DefendedIsNotReached`), equal to it at a square under an exact condition
  (`Attacking.ReachesIsAttackedWhen`), and its uses are right.
* Stalemate counts as a loss in `static_evaluation`; the minimax specification counts it so too.

## Model

| member | source | states |
|---|---|---|
| `Bitboards.LayoutMeaning` | src/board.cc:1220-1222 | The word for a file and a rank gives them back, for every square; a8 is the most significant bit of a word and h1 the least, as board.h lays down. |
| `Bitboards.StrToSquare` | src/board.cc:1200-1208 | A square name such as e4 gives the bit of the square it names. |
| `Bitboards.IsSquareMeaning` | src/board.cc:1105-1110 | `is_square` holds exactly of the 64 single-bit words, that is, of the bits of the squares of the board. |
| `Bitboards.SquareIdx` | src/board.cc:1112-1119 | The counting loop finds the index of the highest bit, the index that the inverse of the layout needs. |
| `Bitboards.BitOfSquareOf` | src/board.cc:1112-1129 | Rank and file computed from a single-bit word are those of the square whose bit it is. |
| `Bitboards.SquareOfBit` | src/board.cc:1112-1129 | The other direction: the coordinates computed from the bit of a square are the square. |
| `Bitboards.PopCount` | src/board.cc:1096-1103 | Clearing the lowest bit until nothing is left counts the squares of the bitboard. |
| `Bitboards.BitboardSplit` | src/board.cc:1224-1233 | The result is the squares of the bitboard, each exactly once, in ascending order of their bits, and as many as there are. |
| `Bitboards.StepIsAlong` | src/board.cc:1135-1198 | Each of the eight direction functions is one coordinate step, and gives 0 exactly when the step leaves the board: no file or rank wraps around. |
| `Bitboards.DirectionMeaning` | src/board.cc:1135-1198 | The eight functions by name: north is one rank up, east one file towards h, and so on. |
| `Bitboards.MaskHas` | src/board.cc:25-36 | A rank mask holds exactly the squares of its rank. |
| `Positions.SomeMen` | src/board.h:93-132 | Twelve bitboards no two of which share a square show one placement of men, and only one. |
| `Positions.ShownIsDisjoint` | src/board.h:93-132 | Conversely, bitboards that show a placement are disjoint. |
| `Positions.SomePlacement` | src/board.h:93-132 | Every board of men is shown by some twelve bitboards, so the two say the same. |
| `Positions.SomePosition` | src/board.h:93-132 | Every consistent game is what some Board stands for. |
| `Positions.MasksShow` | src/board.cc:180-197 | `friends`, `enemies` and `all_pieces` are the squares of one colour, of the other, and of both. |
| `Positions.PlyOfEncode` | src/board.h:255-275 | A move determines the source, the target and the kind it was built from, so distinct moves of chess are distinct moves of the program. |
| `Pieces.SlideIsWalk` | src/board.cc:227-247 | Walking until something stops the ray, and taking an enemy there, is exactly what article 3 lets a line piece reach in that direction. |
| `Pieces.AppendSlidingMoves` | src/board.cc:227-247 | Appends exactly the moves along one ray, no move twice: the open squares and one enemy blocker, with the right kind. |
| `Pieces.AppendBishopMoves` | src/board.cc:249-259 | Appends exactly the bishop moves of a side, each once. |
| `Pieces.AppendRookMoves` | src/board.cc:261-269 | Appends exactly the rook moves of a side, each once. |
| `Pieces.AppendQueenMoves` | src/board.cc:271-279 | Appends exactly the queen moves of a side, each once. |
| `Pieces.AppendKingMoves` | src/board.cc:485-503 | Appends exactly the king moves of a side to neighbouring squares without a friend, each once. |
| `Pieces.KnightTable` | src/board.h:73-82 | The table of two-step directions yields each (1,2) leap exactly once. |
| `Pieces.AppendKnightMoves` | src/board.cc:505-531 | Appends exactly the knight moves of a side that stay on the board and do not land on a friend, each once. |
| `Pawns.AppendSimplePawnMoves` | src/board.cc:281-306 | Appends exactly the single steps that do not reach the last rank, each once. |
| `Pawns.AppendTwoStepPawnMoves` | src/board.cc:308-335 | Appends exactly the double steps from the second rank over two vacant squares, each once. |
| `Pawns.AppendEnPassantMoves` | src/board.cc:337-368 | Appends exactly the captures onto the e.p. square, each once, whatever the e.p. square. |
| `Pawns.AppendPromotions` | src/board.cc:370-429 | Appends exactly the four promotions of every pawn that can step or take onto the last rank, each once. |
| `Pawns.AppendPawnCaptures` | src/board.cc:431-474 | Appends exactly the diagonal captures that do not reach the last rank, each once. |
| `Pawns.AppendPawnMoves` | src/board.cc:476-483 | The five lists together are exactly the pawn moves of article 3.7, without overlap. |
| `Attacking.PseudolegalMoves` | src/board.cc:533-542 | The list is exactly the moves that article 3 gives the pieces of a side, before the safety of the king is looked at, each once. |
| `Attacking.PawnAttackSquares` | src/board.cc:199-217 | Exactly the squares diagonally ahead of a pawn of the side. |
| `Attacking.AttackSquares` | src/board.cc:219-225 | Exactly the squares that a pseudolegal move ends on or a pawn covers. |
| `Attacking.ReachesMeaning` | src/board.cc:199-225 | How that differs from being attacked: it leaves out squares the attacker defends, and adds pawn pushes (and squares of its own men that its pawns cover). |
| `Attacking.ReachesIsAttackedWhen` | src/board.cc:199-225 | The exact condition under which a square is in the set if and only if it is attacked: a friend defended there is defended by a pawn, and no pawn can be pushed there unless the square is attacked. |
| `Start.PushedToIsNotAttacked` | src/board.cc:199-225 | In the initial position e4 is in the set but not attacked. |
| `Start.DefendedIsNotReached` | src/board.cc:199-225 | In the initial position d1 is attacked by White, but not in the set. |
| `Attacking.IsKingAttacked` | src/board.cc:601-604 | In spite of that difference, the test holds exactly when a king of the side is attacked in the sense of article 3. |
| `Attacking.PathIsReached` | src/board.cc:544-589 | On the vacant squares of a castling path the difference does not matter either, provided the king is not in check. |
| `Attacking.IsCastleKingsideLegal` | src/board.cc:544-562 | Holds exactly when article 3.8.2 allows castling kingside. |
| `Attacking.IsCastleQueensideLegal` | src/board.cc:564-589 | Holds exactly when article 3.8.2 allows castling queenside; the b-file square must be vacant, but may be attacked. |
| `Legality.AppendCastlingMoves` | src/board.cc:591-599 | Appends exactly the castling moves that are allowed. |
| `Legality.IsPseudolegalMoveLegal` | src/board.cc:606-616 | Doing the move on a copy and looking at the king decides exactly whether the move leaves the mover in check, pins and e.p. discoveries included. |
| `Legality.LegalMoves` | src/board.cc:618-628 | For every valid position the list is exactly the legal moves of articles 3.1 to 3.9, sound, complete and without repetition, each with the position it was generated from. |
| `Legality.IsCaptureMove` | src/board.cc:630-633 | Holds exactly when an enemy stands on the target square. |
| `Legality.LegalCaptureMoves` | src/board.cc:635-642 | Exactly the legal moves that take a man on their target square, each once. |
| `Legality.CapturesMeaning` | src/board.cc:630-642 | What counts as a capture there: a legal move to a square where a man of the other colour stands. |
| `Articles.AttacksMeaning` | src/board.cc:227-279 | Rook, bishop and queen attack along unobstructed files, ranks and diagonals, the knight at (1,2), the king at distance one, the pawn diagonally ahead, all in coordinates. |
| `Articles.WhitePawnMeaning` | src/board.cc:281-483 | All the moves of a white pawn in coordinates, with their types. |
| `Articles.BlackPawnMeaning` | src/board.cc:281-483 | All the moves of a black pawn in coordinates, with their types. |
| `Articles.OtherMenMeaning` | src/board.cc:227-279 | Every other man moves to where it attacks, to a vacant square or to an enemy, with the right type. |
| `Articles.CheckMeaning` | src/board.cc:601-604 | A side is in check exactly when a man of the other colour attacks its king. |
| `Articles.LegalMeaning` | src/board.cc:606-628 | A move other than castling is legal exactly when its man may so move and its own king is not in check afterwards. |
| `Articles.SteppingKing` | src/board.cc:544-589 | A king that is not in check may step to a vacant square exactly when nothing attacks that square, although the step opens lines. |
| `Articles.KingsideCastlingMeaning` | src/board.cc:544-562 | Castling kingside is legal exactly when the right stands, both squares between king and rook are vacant, and the king is not in check where it stands nor after a step to either square. |
| `Articles.QueensideCastlingMeaning` | src/board.cc:564-589 | Castling queenside is legal exactly when the right stands, all three squares between king and rook are vacant, and the king is not in check where it stands nor after a step to the two squares it crosses. |
| `Articles.MenAfterMeaning` | src/board.cc:646-833 | Square by square what every legal move of each type changes, and that nothing else changes: the pawn taken in passing, the rook of a castling king, the piece a pawn becomes. |
| `Articles.PromotionMeaning` | src/board.cc:741-778 | Which piece stands on the target after each of the four promotions, and that a new knight attacks as a knight does. |
| `Articles.PromotedBitboard` | src/board.cc:752-777 | In which of the twelve bitboards a board that has made the promotion shows the new man. |
| `Articles.EpMeaning` | src/board.cc:787-833 | The e.p. square after a double step is on the third or the sixth rank, and after any other move there is none. |
| `Articles.RunMeaning` | src/board.cc:646-833 | After any run of moves a castling right stands exactly when it stood before and no move has left the square of the king or the rook or reached that of the rook; whose turn it is and the number of the move follow from the length of the run. |
| `Boards.Board.RemovePieceOn` | src/board.cc:683-690 | The bitboards afterwards show the placement without the man on that square. |
| `Boards.Board.MovePiece` | src/board.cc:692-703 | The bitboards afterwards show the placement with the man relocated. |
| `Boards.Board.AdjustCastlingRights` | src/board.cc:646-681 | The rights afterwards are those that no king or rook move and no capture on a corner has forfeited. |
| `Boards.Board.DoEnPassantMove` | src/board.cc:705-714 | Takes the pawn that has just passed and leaves everything else as the rules say. |
| `Boards.Board.DoCastleMove` | src/board.cc:716-739 | Moves king and rook as article 3.8.2 says, on either wing, and gives up both rights. |
| `Boards.Board.DoPromotionMove` | src/board.cc:741-778 | Replaces the pawn by the chosen piece, takes what stands there, and adjusts the rights a captured rook backed. |
| `Boards.Board.DoCaptureMove` | src/board.cc:780-785 | Takes the man on the target square and moves there. |
| `Boards.Board.DoTwoStepPawnMove` | src/board.cc:787-792 | Moves two steps and sets the e.p. square to the one passed over. |
| `Boards.Board.DoSimpleMove` | src/board.cc:794-798 | Moves to a vacant square, clears the e.p. square and adjusts the rights. |
| `Boards.Board.UndoMove` | src/board.cc:800 | Every field is again as in the position that the move carries. |
| `Boards.Board.DoMove` | src/board.cc:802-833 | From a position that stands for a game, every playable move leads to a position that stands for the game after that move by the rules, counters included, and neither ABSL_RAW_CHECK fails. |
| `Invariant.TakesByAttack` | src/board.cc:646-833 | A move onto an occupied square attacks it, and takes an enemy; it is a capture or a capturing promotion. |
| `Invariant.NoKingIsTaken` | src/board.cc:646-833 | In a valid position no playable move takes a king. |
| `Invariant.CastledKingIsSafe` | src/board.cc:624-627 | The castling moves that bypass the filter for checks leave the king unattacked, so the bypass is sound. |
| `Invariant.LegalKeepsValid` | src/board.cc:618-833 | Every legal move keeps the whole invariant: one king a side, no pawn on the first or last rank, rights backed by king and rook at home, the e.p. square behind a pawn that has just passed, and the side that moved not in check. |
| `Invariant.RunKeepsValid` | src/board.cc:618-833 | So does every sequence of legal moves, of any length. |
| `Start.StartIsValid` | src/board.cc:16-20 | The initial position satisfies the invariant. |
| `Start.StartIsDiagram` | src/board.cc:16-20 | The initial position, square by square, is the diagram of the FEN string. |
| `Start.GameMeaning` | src/board.cc:646-833 | In every game from the initial position: the turn, the move number and the four castling rights, read off the moves played. |
| `Start.SomeStartPosition` | src/board.cc:16-48 | Some Board stands for the initial position, which is valid. |
| `Start.EveryGameIsValid` | src/board.cc:618-833 | Every position that legal moves reach from the initial one satisfies the invariant. |
| `GameTree.ScoreBound` | src/board.cc:835-852 | The static value of a valid position lies between -1000 and 1000, because no square is counted twice. |
| `GameTree.OneManIsWorth` | src/board.cc:840-851 | One more pawn, knight, bishop, rook, queen or king changes the material by 1, 3, 3, 5, 9 or 0, with the other sign if it is black. |
| `GameTree.NobodyIsWorthNothing` | src/board.cc:840-851 | The empty board has no material, so the former determines the material of every board. |
| `GameTree.OneManIsEvaluated` | src/board.cc:835-852 | The static value changes by the same wherever the side to move has a legal move. |
| `GameTree.NoMoveIsLoss` | src/board.cc:835-839 | Without a legal move the side to move is lost, by 1000. |
| `GameTree.CaptureTakesOne` | src/board.cc:1065-1094 | Every capture searched takes exactly one man off the board and is neither e.p. nor castling, so quiescence ends. |
| `GameTree.QuiesceIsBest` | src/board.cc:1065-1094 | The quiescence value of the specification is the best of standing pat and of all captures, and one of them attains it. |
| `GameTree.SearchedCaptures` | src/board.cc:1065-1094 | The moves searched in quiescence are the legal moves to a square where a man of the other colour stands. |
| `GameTree.NegamaxAtLeaf` | src/board.cc:1038-1043 | At depth 0 and without legal moves the value is that of quiescence. |
| `GameTree.NegamaxIsBest` | src/board.cc:1034-1063 | The value of the specification is the best that any legal move attains. |
| `GameTree.NegamaxBound` | src/board.cc:1030-1032 | Every value, at any depth, lies between -1000 and 1000, well inside the window of `evaluation`. |
| `Search.StaticEvaluation` | src/board.cc:835-852 | Material, or a lost game for a side without legal moves, whether checkmate or stalemate. |
| `Search.ClampMeaning` | src/board.cc:1045-1062 | Clamping is fail-hard: the value itself inside the window, the nearer end outside it. |
| `Search.QuiescenceSearch` | src/board.cc:1065-1094 | For every window, the unpruned quiescence value clamped to the window; strictly inside it, pv is a line of captures that attains the value. |
| `Search.AlphaBeta` | src/board.cc:1034-1063 | For every depth and window and any order of moves, the unpruned minimax value clamped to the window; strictly inside it, pv is a line that attains the value. |
| `Search.Evaluation` | src/board.cc:1030-1032 | The wide window clamps nothing: the exact minimax value, with a line that attains it. |
| `Search.CaptureLineMeaning` | src/board.cc:1065-1094 | A line of captures is playable, and its value is the static value at its end with the sign of its length. |
| `Search.LineMeaning` | src/board.cc:1045-1093 | A line is playable move by move, with captures only behind `depth`; its value is the static value at its end with the sign of its length; and when shorter than `depth` it ends where there is no legal move. |
| `Perft.LinesMeaning` | src/board.cc:1279-1291 | The lines that are counted are exactly the sequences of `d` legal moves. |
| `Perft.NumberOfMoves` | src/board.cc:1279-1291 | Doing and undoing on one board counts exactly the sequences of legal moves of the given length: what every undo restores is the position the loop started from. |
| `Symmetry.MirrorGameMirrors` | src/board.cc:281-503 | Every game has a mirror image, so what follows holds of every game. |
| `Symmetry.ValidMirror` | src/board.cc:281-503 | Flipping ranks and swapping colours keeps the invariant. |
| `Symmetry.LegalMirror` | src/board.cc:281-503 | It takes legal moves to legal moves. |
| `Symmetry.AfterMirror` | src/board.cc:646-833 | It commutes with making a move, the move counter apart. |
| `Symmetry.LegalPliesMirror` | src/board.cc:533-628 | A move is legal exactly when its mirror image is, so the two sides are treated alike by all the duplicated code. |
| `Symmetry.ScoreMirror` | src/board.cc:835-852 | It negates the static evaluation, and keeps it from the point of view of the mover. |
| `Symmetry.QuiesceMirror` | src/board.cc:1065-1094 | It keeps the quiescence value. |
| `Symmetry.NegamaxMirror` | src/board.cc:1030-1063 | It keeps the evaluation at every depth. |
| `CallOnce.StepKeeps` | lib/abseil-cpp-master/absl/base/call_once.h:143-180 | Every atomic step of every thread keeps the invariant that ties the control word, the owner of the flag and the progress of fn together. |
| `CallOnce.RunKeeps` | lib/abseil-cpp-master/absl/base/call_once.h:143-180 | So does every interleaving of any number of threads. |
| `CallOnce.CallOnceIsSafe` | lib/abseil-cpp-master/absl/base/call_once.h:143-180 | In every reachable state fn has started at most once, at most one thread is between claiming kOnceInit and storing kOnceDone, and no call has returned before fn has completed. |
| `CallOnce.DoneForGood` | lib/abseil-cpp-master/absl/base/call_once.h:143-180 | Once kOnceDone is stored it stays, and fn is never started again. |
| `CallOnce.NeverStuck` | lib/abseil-cpp-master/absl/base/call_once.h:158-174 | Every thread can take a step, but for one that waits while the control word is kOnceWaiter; and then another thread, the owner of the flag, can. |
| `Int128.ComparisonMeaning` | lib/abseil-cpp-master/absl/numeric/int128.h:539-570 | The two-word comparisons order the words as the numbers they stand for. |
| `Int128.Uint128.ShiftLeft` | lib/abseil-cpp-master/absl/numeric/int128.h:626-638 | The number times a power of two, modulo 2^128, for every amount below 128. |
| `Int128.Uint128.ShiftRight` | lib/abseil-cpp-master/absl/numeric/int128.h:640-652 | The number divided by a power of two, for every amount below 128. |
| `Int128.Uint128.Plus` | lib/abseil-cpp-master/absl/numeric/int128.h:654-661 | The carry test makes the two-word sum the sum modulo 2^128. |
| `Int128.Uint128.Minus` | lib/abseil-cpp-master/absl/numeric/int128.h:663-670 | The borrow test makes the two-word difference the difference modulo 2^128. |
| `Int128.Times` | lib/abseil-cpp-master/absl/numeric/int128.h:686-697 | The four 32-bit partial products and two shifted additions give the product modulo 2^128. |
| `Int128.Fls64` | lib/abseil-cpp-master/absl/numeric/int128.cc:38-55 | The four conditional shifts and the lookup in a packed table find the highest bit of every nonzero word. |
| `Int128.Fls128` | lib/abseil-cpp-master/absl/numeric/int128.cc:59-64 | The floor of the binary logarithm of every nonzero 128-bit number. |
| `Int128.Aligned` | lib/abseil-cpp-master/absl/numeric/int128.cc:87-90 | Aligning the highest bits shifts no bit of the divisor out, and starts the division high enough. |
| `Int128.DivMod` | lib/abseil-cpp-master/absl/numeric/int128.cc:69-107 | For every nonzero divisor: dividend = quotient * divisor + remainder, and the remainder is below the divisor. |
| `HexFloat.FormatsAreIeee` | lib/abseil-cpp-master/absl/strings/charconv.cc:63-139 | The constants of double and float are those of binary64 and binary32 in section 3.6 of IEEE 754-2008. |
| `HexFloat.FormatRange` | lib/abseil-cpp-master/absl/strings/charconv.cc:63-139 | The largest and the smallest positive number of a format. |
| `HexFloat.ShiftRightAndRound` | lib/abseil-cpp-master/absl/strings/charconv.cc:371-413 | For an exact value, nearest with ties to even, if and only if the shift is below 128 or the value is at most half of 2^shift. For an inexact one and a result reported exact, nearest whatever the error between 0 and 2, if and only if the shift is below 128 or the value is at most half of 2^shift less 2. |
| `HexFloat.OverHalfIsLost` | lib/abseil-cpp-master/absl/strings/charconv.cc:378-384 | A value that a shift of 128 does not round to nearest. |
| `HexFloat.NearHalfIsLost` | lib/abseil-cpp-master/absl/strings/charconv.cc:378-384 | A value that is rounded the wrong way only because of an error, though reported exact. |
| `HexFloat.NarrowValuesAreKept` | lib/abseil-cpp-master/absl/strings/charconv.cc:378-384 | No value of 64 bits or less is, exact or not. |
| `HexFloat.CalculatedFloatFromRawValues` | lib/abseil-cpp-master/absl/strings/charconv.cc:498-513 | For every mantissa and exponent that rounding may leave, a carry into one more bit included: overflow exactly when the number they stand for is above the largest one of the format, underflow exactly when it is zero, and otherwise the same number as the format writes it. |
| `HexFloat.CalculateFromParsedHexadecimal` | lib/abseil-cpp-master/absl/strings/charconv.cc:516-530 | For every nonzero mantissa and every exponent, the number of the format that is nearest with ties to even among all of them, subnormals included; overflow exactly when that is above the largest number of the format, underflow exactly when it is zero, and otherwise the number itself. |
| `HexFloat.DeliveredTells` | lib/abseil-cpp-master/absl/strings/charconv.cc:505-512 | The comparison of the exponent with kMaxExponent and of the mantissa with zero decides exactly that. |
| `HexFloat.NearestIsUnique` | lib/abseil-cpp-master/absl/strings/charconv.cc:516-530 | Section 4.3.1 of IEEE 754-2008 determines that number: no other one is nearest, and it is written in only one way. |
| `Numbers.DigitMeaning` | lib/abseil-cpp-master/absl/strings/numbers.cc:637-651 | The digit values of the table, for every base up to 36, capital or small. |
| `Numbers.DecimalIsCanonical` | lib/abseil-cpp-master/absl/strings/numbers.cc:171-239 | The text printed has no leading zero. |
| `Numbers.FastUint32ToBuffer` | lib/abseil-cpp-master/absl/strings/numbers.cc:171-239 | Writes the canonical decimal text of every 32-bit number and a terminating zero, and touches no other byte. |
| `Numbers.FastInt32ToBuffer` | lib/abseil-cpp-master/absl/strings/numbers.cc:241-251 | Of every signed 32-bit number: a minus sign if it is negative, and the text of its absolute value, the smallest number included. |
| `Numbers.FastUint64ToBuffer` | lib/abseil-cpp-master/absl/strings/numbers.cc:253-292 | Writes the canonical decimal text of every 64-bit number, put together from two or three parts without a gap or a lost zero. |
| `Numbers.FastInt64ToBuffer` | lib/abseil-cpp-master/absl/strings/numbers.cc:294-301 | Of every signed 64-bit number: a minus sign if it is negative, and the text of its absolute value, the smallest number included. |
| `Numbers.SafeParsePositiveInt` | lib/abseil-cpp-master/absl/strings/numbers.cc:783-815 | Stops at the first character that is no digit, and saturates exactly when the digits before it are above the largest value: the overflow guards are exact. |
| `Numbers.SafeParseNegativeInt` | lib/abseil-cpp-master/absl/strings/numbers.cc:817-856 | The same downwards: saturates exactly when the number is below the smallest value, and accepts the smallest value itself. |
| `Numbers.DigitsParseExactly` | lib/abseil-cpp-master/absl/strings/numbers.cc:783-856 | A text of digits in base 2 to 36 is converted exactly when its number is in range, and gives the end of the range otherwise. |
| `Numbers.SafeParseSignAndBase` | lib/abseil-cpp-master/absl/strings/numbers.cc:656-726 | What is left when the spaces at both ends, one sign and the prefix of the base are gone, or a refusal. |
| `Numbers.ConvertedMeaning` | lib/abseil-cpp-master/absl/strings/numbers.cc:656-884 | What a text of spaces, sign, prefix and digits is converted to: in base 16 or 0 after 0x, in base 8 after 0 in base 0, in base 10 otherwise in base 0, and in any base from 2 to 36; saturated at the range of the type. |
| `Numbers.RefusalMeaning` | lib/abseil-cpp-master/absl/strings/numbers.cc:656-726 | Nothing but spaces, a sign or a prefix is refused, and so is any other base. |
| `Numbers.IntTypeMeaning` | lib/abseil-cpp-master/absl/strings/numbers.cc:886-902 | The ranges are those of 32 and 64 bits, signed and unsigned. |
| `Numbers.SafeIntInternal` | lib/abseil-cpp-master/absl/strings/numbers.cc:860-873 | Sign, base and digits together, for the signed types. |
| `Numbers.SafeUintInternal` | lib/abseil-cpp-master/absl/strings/numbers.cc:875-884 | Sign, base and digits together, for the unsigned types, which refuse a minus sign. |
| `Numbers.PrintedIsParsed` | lib/abseil-cpp-master/absl/strings/numbers.cc:171-301 | Every number of every type, printed and then parsed in base ten, with spaces around it or not, comes back. |
| `CEscape.CEscapeInternal` | lib/abseil-cpp-master/absl/strings/escaping.cc:327-367 | The escaped form, byte by byte, in all four variants; a hexadecimal digit right behind a hexadecimal escape is escaped as well. |
| `CEscape.EscapedUnescapes` | lib/abseil-cpp-master/absl/strings/escaping.cc:103-367 | Unescaping gives back every byte string, for `CEscape`, `CHexEscape`, `Utf8SafeCEscape` and `Utf8SafeCHexEscape`. |
| `CEscape.SimpleMeaning` | lib/abseil-cpp-master/absl/strings/escaping.cc:122-132 | The eleven two-character escapes, each with its byte, in front of any text. |
| `CEscape.OthersAreRefused` | lib/abseil-cpp-master/absl/strings/escaping.cc:117-286 | Any other character behind a backslash is refused, and so is a backslash at the end. |
| `CEscape.OctalMeaning` | lib/abseil-cpp-master/absl/strings/escaping.cc:133-165 | One, two or three octal digits with their value in base eight, refused exactly above 0xff. |
| `CEscape.RuneMeaning` | lib/abseil-cpp-master/absl/strings/escaping.cc:198-281 | Four digits behind u or eight behind U give the UTF-8 bytes of the code point with that number, refused exactly for a non-digit, a surrogate or a number above 0x10FFFF. |
| `CEscape.RuneIsCutOff` | lib/abseil-cpp-master/absl/strings/escaping.cc:198-281 | With fewer characters left the text is refused. |
| `CEscape.HexDigitMeaning` | lib/abseil-cpp-master/absl/strings/escaping.cc:64-72 | The sixteen hexadecimal digits and their values, capital or small. |
| `CEscape.HexNumberMeaning` | lib/abseil-cpp-master/absl/strings/escaping.cc:166-195 | A number of hexadecimal digits is read in base sixteen. |
| `CEscape.EscapedIsPrintable` | lib/abseil-cpp-master/absl/strings/escaping.cc:327-367 | Escaped text consists of printable characters, but for the bytes that the UTF-8 variants leave alone. |
| `CEscape.CEscapedLength` | lib/abseil-cpp-master/absl/strings/escaping.cc:393-397 | The sum over the table is the length of the escaped form, and equals the length of the source only if nothing needs escaping. |
| `CEscape.CEscapeAndAppendInternal` | lib/abseil-cpp-master/absl/strings/escaping.cc:399-449 | The table-driven form appends exactly what `CEscapeInternal` returns without its two flags, and stays within the space it has calculated. |
| `CEscape.CUnescapeInternal` | lib/abseil-cpp-master/absl/strings/escaping.cc:103-292 | In place, in the very buffer it reads: succeeds exactly on the well-formed texts, with the bytes they stand for, and bytes behind the text are untouched; so writing never overtakes reading. |
| `CEscape.HexEscapeIsModular` | lib/abseil-cpp-master/absl/strings/escaping.cc:166-195 | When a hexadecimal escape is refused: exactly when its number modulo 2^32 exceeds 0xff. |
| `CEscape.HexEscapeWraps` | lib/abseil-cpp-master/absl/strings/escaping.cc:166-195 | A nine-digit escape far above 0xff that is accepted. |
| `CEscape.Utf8Meaning` | lib/abseil-cpp-master/absl/strings/internal/utf8.cc:23-51 | The bytes written for a code point are its shortest encoding, with the markers of UTF-8 in the first byte and the others, and decode to it. |
| `Base64.AlphabetIsTable` | lib/abseil-cpp-master/absl/strings/escaping.cc:936-940 | The two alphabets are, character by character, tables 1 and 2 of RFC 4648. |
| `Base64.DecoderIsTable` | lib/abseil-cpp-master/absl/strings/escaping.cc:714-781 | The decoding tables give exactly the characters of the alphabet their place in it. |
| `Base64.GroupIsWord` | lib/abseil-cpp-master/absl/strings/escaping.cc:851-932 | Three bytes and their four sextets are the same 24 bits, with zero bits where the data ends. |
| `Base64.WordIsGroup` | lib/abseil-cpp-master/absl/strings/escaping.cc:481-662 | Four sextets are decoded to their 24 bits, and two or three left over to their first 8 or 16, whatever the bits behind them. |
| `Base64.PaddingFills` | lib/abseil-cpp-master/absl/strings/escaping.cc:866-932 | Padding fills the text up to whole groups of four with equals signs, and adds no group. |
| `Base64.Base64EscapeInternal` | lib/abseil-cpp-master/absl/strings/escaping.cc:831-936 | The text of section 4 or 5 of RFC 4648, in a buffer of any size: complete if it fits, and length 0 if it does not. |
| `Base64.CalculateBase64EscapedLen` | lib/abseil-cpp-master/absl/strings/escaping.cc:785-829 | Exactly the length of the escaped text of every string of that length. |
| `Base64.Base64Escape` | lib/abseil-cpp-master/absl/strings/escaping.cc:942-953 | In a buffer of the calculated length the whole text fits. |
| `Base64.EscapedUnescapes` | lib/abseil-cpp-master/absl/strings/escaping.cc:451-936 | Whatever spaces are inserted anywhere into an escaped text, of either alphabet and padded or not, it stands for the original bytes. |
| `Base64.QuadMeaning` | lib/abseil-cpp-master/absl/strings/escaping.cc:503-512 | The test of the high bit of the optimistic word holds exactly when one of the four characters is no data, and otherwise the word is that of the slow path. |
| `Base64.DecodeQuads` | lib/abseil-cpp-master/absl/strings/escaping.cc:481-563 | The fast and the slow path of the first loop agree: the bytes written are those of the data read, and a stop leaves the data of the unfinished group. |
| `Base64.Base64UnescapeInternal` | lib/abseil-cpp-master/absl/strings/escaping.cc:451-682 | Succeeds exactly on the texts that stand for data that fits into the buffer, with exactly those bytes; stale high bits in the accumulator never reach the output. |
| `Base64.Base64Unescape` | lib/abseil-cpp-master/absl/strings/escaping.cc:955-982 | The space that is allotted always suffices, so the result is the decoding of the text. |
| `InlinedVectors.InlinedVector.constructor` | lib/abseil-cpp-master/absl/container/inlined_vector.h:1101-1110 | n copies, inlined exactly if they fit. |
| `InlinedVectors.InlinedVector.EnlargeBy` | lib/abseil-cpp-master/absl/container/inlined_vector.h:983-1001 | More room, the same elements, and no object left undestroyed in the old storage. |
| `InlinedVectors.InlinedVector.ShiftRight` | lib/abseil-cpp-master/absl/container/inlined_vector.h:1013-1069 | Opens a gap, in place or in a new allocation, and says exactly which of its slots hold an object. |
| `InlinedVectors.InlinedVector.InsertWithCount` | lib/abseil-cpp-master/absl/container/inlined_vector.h:1152-1163 | Prefix, n copies, suffix; objects are assigned to and other slots constructed in, never the other way round. |
| `InlinedVectors.InlinedVector.InsertWithForwardRange` | lib/abseil-cpp-master/absl/container/inlined_vector.h:1165-1181 | Prefix, the range, suffix. |
| `InlinedVectors.InlinedVector.Emplace` | lib/abseil-cpp-master/absl/container/inlined_vector.h:643-663 | Prefix, the new element, suffix, at any position. |
| `InlinedVectors.InlinedVector.EmplaceBack` | lib/abseil-cpp-master/absl/container/inlined_vector.h:670-686 | One more element at the end, in either representation, growing if need be. |
| `InlinedVectors.InlinedVector.PopBack` | lib/abseil-cpp-master/absl/container/inlined_vector.h:702-712 | All but the last element; its slot holds no object any more. |
| `InlinedVectors.InlinedVector.Erase` | lib/abseil-cpp-master/absl/container/inlined_vector.h:734-757 | Exactly the range is gone, and the freed slots hold no object. |
| `InlinedVectors.InlinedVector.Clear` | lib/abseil-cpp-master/absl/container/inlined_vector.h:763-772 | Empty and inlined, and every object of the storage that was in use is destroyed. |
| `InlinedVectors.InlinedVector.Reserve` | lib/abseil-cpp-master/absl/container/inlined_vector.h:783-788 | Room for n, the same elements. |
| `InlinedVectors.InlinedVector.SwapImpl` | lib/abseil-cpp-master/absl/container/inlined_vector.h:1183-1251 | In all four combinations of representations the two vectors exchange elements and tags, and go on sharing no storage. |

## Left out

- Printing and reading of boards (`to_pretty_str`, `PrintTo`, FEN): positions that satisfy the invariant are the inputs.
- The fifty-move clock, repetition and every other draw: the code does not look at them.
- Negative search depths, and machine overflow of scores and node counts, which are unbounded here.
- The order of generated moves, beyond the order within one `bitboard_split`: the search theorems hold for any order.
- The `__int128` and `_umul128` branches, signed and floating-point conversions of `int128.h`.
- Decimal floats, `BigUnsigned`, the text of hexadecimal floats, NaN and infinity, and packing of the bits by `Make`: the
  result of rounding is a mantissa and an exponent. Exponents are unbounded, so `int` overflow of an exponent is not modelled.
- `SimpleAtof`, `SixDigitsToBuffer` and the table of two-digit texts as bytes.
- `leave_nulls_escaped`, which is never set, and the error messages of `CUnescape`.
- Unescaping between two different buffers, which shares every step with the case in place.
- The Base64 decoder without a destination, which only validates.
- CallOnce.NeverStuck: does not say that a sleeping thread is woken, because loading the control word and storing
  kOnceDone are separate steps; and the inside of `SpinLockWait` is the table of its transitions, one row a step.
- Exceptions from fn in `call_once`, and memory orders weaker than sequential consistency.
- InlinedVectors.InlinedVector.SwapImpl: the union of inlined space and allocation is two fields of which one is in use,
  so that clobbering one through the other shows only as a slot that is not raw.
- Assignment, `resize`, `shrink_to_fit`, allocators, exceptions and self-aliasing arguments of `InlinedVector`.
- Hash containers, `Mutex`, stack traces and all other parts of the vendored library.
