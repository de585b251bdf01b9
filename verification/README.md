# Chess engine core and genetic algorithms, modelled in Dafny

This project models the core of a small chess program and the genetic
algorithms that tune or search with it:

- **Pieces.** The `piece` class and its six subclasses: the move pattern
  each one generates through `itopos`, `move` with its castling special
  case, `place` and `copy_piece`. Also the `move_status` messages,
  `mirror_vertically` and the two-character square names.
- **Board and spaces.**
  - `board` gives the starting layout, the square colours and the
    144-character text form.
  - `space` gives the copy constructor, assignment, and `possible_moves`
    sorted by file and then rank.
- **Controllers and the wire protocol.**
  - The base `controller` remembers a selected space and then moves it.
  - The server's `listen` loop dispatches on command prefixes to its
    handlers: board text, possible moves, a move, and the game state.
  - The client parses the possible-moves reply.
- **Evaluator.** Covered parts of `ai_controller`:
  - the `chromosome_t` layout of 402 floats, as 18 scalars plus six 8x8
    tables;
  - the board-only features: material, development, doubled, isolated,
    connected and passed pawns, bishop pair, connected rooks, king
    centralisation and king shield;
  - the piece-square `position_score`.
- **Search.** Alpha-beta `minimax` and `select_best_move`, in C++ and in
  `Smarter_GA.py`.
- **Genetic algorithms.** `Smarter_GA.py` evolves weight vectors.
  `GA_random_moves.py` evolves move sequences. Both share the generation
  loop: two elites, then tournament, crossover and mutation.

A board is a total map from the 64 squares (rank and file in 1..8) to an
optional man (kind and colour). Every board feature is a fold over the
squares in the source's own order, ranks outer and files inner. Floating
point scores are `real`.

Python's `random` becomes explicit inputs: coins in [0, 1), deltas and
indices. python-chess and Stockfish become abstract parameters: legal
moves, push, game over, result and material. The evaluator that
`Smarter_GA.py`'s search calls is a parameter too.

Many properties are stated through the colour-swapped mirror image of a
board, `Mirror.SwapMirror`. It moves each man to `mirror_vertically` of
his square and gives him to the other side. A feature that treats both
sides alike must score the image for one side exactly as it scores the
original for the other. The starting layout is its own image.

Some enumerators in the code are not declared. `piece.hpp` names the
files `a`..`h` and the ranks `one`..`eight`, numbered 1..8, but the code
also uses the fourteen names below. The model reads each one as the number
its name evidently means:

- `pawn.cpp`: `rank_t::a` = 1, `rank_t::b` = 2, `rank_t::g` = 7,
  `rank_t::h` = 8, `file_t::two` = 2, `file_t::seven` = 7. The pawn
  pattern (`Patterns.PawnMoves`) rests on these readings.
- `board.cpp`: `file_t::one` = 1, `file_t::two` = 2, `file_t::three` = 3,
  `file_t::four` = 4, `file_t::five` = 5, `file_t::six` = 6,
  `file_t::seven` = 7, `file_t::eight` = 8. The starting layout
  (`Board.NewBoard`) rests on these readings.

`pawn.cpp` also pushes `itopos` results without checking them. Those
squares always lie on the board, so the model writes them as squares.

`material_balance` in `Smarter_GA.py` and `material_score` in
`GA_random_moves.py` are the same function. `Balance.MaterialBalance`
models both.

## Model

| member | source | states |
|---|---|---|
| Geometry.Itopos | game/pieces/src/piece.cpp:102-122 | A square exactly when both integers lie in 1..8, and then it carries those coordinates unchanged. |
| Geometry.MirrorVertically | game/pieces/include/piece.hpp:97-119 | Rank r maps to rank 9 - r on the same file. |
| Geometry.MirrorInvolution | game/pieces/include/piece.hpp:97-119 | Mirroring twice gives the square back, and no square is its own mirror. |
| Geometry.PosToString | game/pieces/include/piece.hpp:129-188 | Two characters: the file letter counted from 'A', then the rank digit counted from '1'. |
| Geometry.PosToStringInjective | game/pieces/include/piece.hpp:129-188 | Distinct squares print differently. |
| Status.SuccessIsValidOrCastle | game/pieces/include/piece.hpp:121-127 | A status counts as success exactly when it is `valid` or one of the four castles. |
| Status.StatusMessage | game/pieces/include/piece.hpp:60-93 | The length of each status message; a castle's message starts with 'W' or 'B' by the castling side. |
| Status.StatusMessageInjective | game/pieces/include/piece.hpp:60-93 | Different statuses print different messages. |
| Candidates.CollectMember | game/pieces/src/knight.cpp:13-43 | The `itopos(...).has_value()` pattern keeps a square exactly when its coordinates are among the candidates. |
| Candidates.CollectDistinct | game/pieces/src/knight.cpp:13-43 | Distinct candidates yield distinct squares. |
| Patterns.KingMovesExact | game/pieces/src/king.cpp:7-24 | The king reaches exactly the squares one king step away. |
| Patterns.KingMovesDistinct | game/pieces/src/king.cpp:7-24 | The king's list has no repeats. |
| Patterns.KingMovesCount | game/pieces/src/king.cpp:7-24 | Eight moves away from the edge, three from a corner. |
| Patterns.KnightMovesExact | game/pieces/src/knight.cpp:9-46 | The knight reaches exactly the on-board L-jumps. |
| Patterns.KnightMovesDistinct | game/pieces/src/knight.cpp:9-46 | The knight's list has no repeats. |
| Patterns.KnightMovesCount | game/pieces/src/knight.cpp:9-46 | Eight moves from the central 4x4 block, two from a corner. |
| Patterns.RookMovesExact | game/pieces/src/rook.cpp:7-25 | The rook reaches exactly the other squares of its rank and file. |
| Patterns.RookMovesCount | game/pieces/src/rook.cpp:7-25 | Fourteen distinct squares from every square. |
| Patterns.BishopMovesExact | game/pieces/src/bishop.cpp:10-30 | The bishop reaches exactly the other squares of its two diagonals. |
| Patterns.BishopMovesCount | game/pieces/src/bishop.cpp:10-30 | Distinct squares, as many as its diagonals hold: 7 to 13, and 7 from a corner. |
| Patterns.QueenMovesExact | game/pieces/src/queen.cpp:8-36 | The queen's squares are exactly the union of the rook's and the bishop's. |
| Patterns.QueenMovesCount | game/pieces/src/queen.cpp:8-36 | Distinct squares, 14 plus the bishop's count, so at least 21. |
| Patterns.PawnMovesExact | game/pieces/src/pawn.cpp:7-52 | From ranks 2 to 7 only: one rank forward with the file changing by at most one, or two ranks straight ahead from the home rank. |
| Patterns.PawnMovesShape | game/pieces/src/pawn.cpp:7-52 | At most four distinct squares; none on rank 1 or 8; otherwise the straight step is always present. |
| Pieces.OwnSquareNeverGenerated | game/pieces/include/piece.hpp:204 | No piece's pattern contains the square it stands on. |
| Pieces.Place | game/pieces/src/piece.cpp:62-66 | Only the square changes; the kind and colour stay. |
| Pieces.Move | game/pieces/src/piece.cpp:68-100 | A square in the pattern is `valid` and moves the piece. A king sent outside its pattern to g1/c1 (white) or g8/c8 (black) reports that castle and moves. Anything else is `piece_error` and leaves the piece in place. |
| Pieces.CopyPiece | game/pieces/src/piece.cpp:31-56 | The copy has the same kind, colour, rank and file. |
| Spaces.CopySpace | game/game/src/space.cpp:14-19 | The copy equals the source, piece included (a deep copy). |
| Spaces.Assign | game/game/src/space.cpp:21-36 | Assignment yields the other space, an empty square included; self-assignment changes nothing. |
| Spaces.SortMoves | game/game/src/space.cpp:47-51 | The result is sorted by file then rank and is a permutation of the input. |
| Spaces.PossibleMoves | game/game/src/space.cpp:41-56 | Empty for an empty square; otherwise a permutation of the piece's pattern, sorted by file then rank. |
| Spaces.PossibleMovesStrictlyAscending | game/game/src/space.cpp:41-56 | The sorted list is strictly ascending, so it has no repeats. |
| Board.Get | game/game/include/board.hpp:35 | The space at a square reports that square, and so does its piece. |
| Board.SquareColours | game/game/src/board.cpp:13-24 | a1 is dark and h1 is light; neighbours along a rank or a file differ in colour. |
| Board.NewBoardLayout | game/game/src/board.cpp:86-170 | A non-empty new board holds R N B Q K B N R on ranks 1 and 8 and pawns on ranks 2 and 7, white below. An empty one holds nothing. |
| Board.InitialCount | game/game/src/board.cpp:86-170 | Sixteen men per side at the start. |
| Board.ToStringShape | game/game/src/board.cpp:30-84 | The text is eight 18-character lines, rank 8 first; each opens with '\|' and ends with a newline. |
| Board.ToStringAt | game/game/src/board.cpp:30-84 | Square (r, f) prints at line 8 - r, column 2f - 1. |
| Board.DecodeIconInverse | game/game/src/board.cpp:42-79 | A printed cell reads back as the man on that square: the letter names the kind, upper case means white, and '0'/'1' mean empty. |
| Board.ToStringDeterminesBoard | game/game/src/board.cpp:30-84 | Two boards with the same text hold the same man on every square. |
| Mirror.NewBoardIsInitial | game/game/src/board.cpp:86-170 | The constructor's layout is the starting layout. |
| Mirror.InitialSymmetric | game/game/src/board.cpp:86-170 | The starting layout is its own colour-swapped mirror image. |
| Controllers.SelectSpace | game/controllers/src/controller.cpp:10-14 | Remembers the game's space at the square; the game is untouched. |
| Controllers.Move | game/controllers/src/controller.cpp:16-29 | With a selection, the game's move of it and its status. Without one, `no_space_to_move_from` and an unchanged game. Either way the selection is cleared. |
| Controllers.SelectThenMove | game/controllers/src/controller.cpp:10-29 | Selecting then moving plays exactly the selected space. A second move without a new selection fails with `no_space_to_move_from`. |
| Wire.ToPos | game/controllers/src/server_controller.cpp:85-95 | A bad pair yields the error "Non Position String:" followed by the two characters. |
| Wire.ToPosExact | game/controllers/src/server_controller.cpp:85-95 | Accepts exactly a letter A-H followed by a digit 1-8, and the square it returns prints as those two characters. |
| Wire.ToPosRoundTrip | networking/client/src/client_game.cpp:62-73 | Reading back a printed square gives the square. |
| Wire.ParseMovesText | networking/client/src/client_game.cpp:75-94 | Parsing the text of a list of squares gives the list back. |
| Wire.MovesTextOfParse | networking/client/src/client_game.cpp:75-94 | Printing what a successful parse returns gives the text back. |
| Wire.StringToSpaces | networking/client/src/client_game.cpp:75-94 | An odd-length payload gives the "not even length" error. On success, one space per two characters. |
| Wire.PossibleMovesHandler | game/controllers/src/server_controller.cpp:112-134 | A request naming no square is answered with the empty string. |
| Wire.MoveHandler | game/controllers/src/server_controller.cpp:97-110 | The reply is the move prefix or the empty string. A bad square escapes as an error. |
| Wire.Dispatch | game/controllers/src/server_controller.cpp:35-72 | The first matching prefix decides. A board request gets the board text and a status request gets the state message. Anything else gets no reply. Only a move request can change the game. |
| Wire.DispatchAnswersTwice | game/controllers/src/server_controller.cpp:42-53 | A possible-moves payload of the wrong size is answered twice. |
| Wire.DispatchIntended | game/controllers/src/server_controller.cpp:35-72 | With the early return, at most one reply per message, and an escaping error leaves the game untouched with no reply. |
| Wire.DispatchIntendedAgrees | game/controllers/src/server_controller.cpp:35-72 | On payloads of the right size the corrected loop behaves exactly as written. |
| Wire.PossibleMovesRequest | networking/client/src/client_game.cpp:36-46 | The request carries the prefix and exactly two more characters. |
| Wire.ClientPossibleMoves | networking/client/src/client_game.cpp:36-60 | A reply without the prefix yields no moves. |
| Wire.ClientUpdateBoard | networking/client/src/client_game.cpp:14-34 | A reply without the prefix leaves the board unchanged; otherwise the board is loaded from the reply. |
| Wire.PossibleMovesRoundTrip | networking/client/src/client_game.cpp:36-60 | End to end, a request for a space's moves gets one reply. The client reads that reply back as exactly the spaces the server's game listed. |
| Chromosomes.TableOf | game/controllers/include/ai_controller.hpp:41-46 | A kind reads the table declared for it, in the declaration order pawn, knight, bishop, rook, queen, king. |
| Chromosomes.TableOfBijective | game/controllers/include/ai_controller.hpp:41-46 | Each of the six tables is read by exactly one kind, and distinct kinds read distinct tables. |
| Chromosomes.Value | game/controllers/include/ai_controller.hpp:102-109 | Values lie in 0..9, and only the king is worth 0. |
| Chromosomes.AssignGrid | game/controllers/include/ai_controller.hpp:92-99 | Entry (row, col) is element offset + 8 row + col. |
| Chromosomes.AssignGridAgrees | game/controllers/include/ai_controller.hpp:92-99 | The nested loops build the same grid as the row-major reading. |
| Chromosomes.NatToStringValue | game/controllers/include/ai_controller.hpp:54-55 | The decimal digits in the error message read back as the size. |
| Chromosomes.Decode | game/controllers/include/ai_controller.hpp:48-89 | Succeeds exactly on 402 floats. Scalar k is element k and table t entry (row, col) is element 18 + 64t + 8row + col. Otherwise it fails with the size message. |
| Chromosomes.DecodeEncode | game/controllers/include/ai_controller.hpp:48-89 | Decoding the flattened chromosome gives it back. |
| Chromosomes.EncodeDecode | game/controllers/include/ai_controller.hpp:48-89 | Every one of the 402 inputs is read by exactly one field: flattening the decoded chromosome gives the vector back. |
| Features.CountSwapMirror | game/controllers/src/ai_controller.cpp:32-75 | The mirror image holds as many men of each kind for one side as the original for the other. |
| Features.MaterialAntisymmetric | game/controllers/src/ai_controller.cpp:32-75 | White's material score is minus black's. |
| Features.MaterialIgnoresKings | game/controllers/src/ai_controller.cpp:32-75 | Boards that differ only in their kings score alike (the king is worth 0). |
| Features.MaterialSwapMirror | game/controllers/src/ai_controller.cpp:32-75 | The mirror image scores for one side as the original for the other. |
| Features.MaterialInitial | game/controllers/src/ai_controller.cpp:32-75 | Material is level in the starting position, whatever the weight. |
| Features.MaterialWeightSquared | game/controllers/src/ai_controller.cpp:852 | The weight is applied inside the feature and again in `evaluate_position`, so each man counts with the weight squared. |
| Features.DevelopmentBounds | game/controllers/src/ai_controller.cpp:214-253 | Between 0 and the number of own men: no man scores more than one point. |
| Features.DevelopmentSwapMirror | game/controllers/src/ai_controller.cpp:214-253 | Mirror-image boards score alike for opposite sides. |
| Features.DevelopmentInitial | game/controllers/src/ai_controller.cpp:214-253 | Nothing is developed at the start. |
| Features.ConnectedPawnsBounds | game/controllers/src/ai_controller.cpp:325-377 | Between 0 and two points per own pawn. |
| Features.ConnectedPawnsSwapMirror | game/controllers/src/ai_controller.cpp:325-377 | Mirror-image boards score alike for opposite sides. |
| Features.ConnectedPawnsInitial | game/controllers/src/ai_controller.cpp:325-377 | No pawn is connected at the start. |
| Features.ScanFindsBlocker | game/controllers/src/ai_controller.cpp:404-418 | The rank scan finds an enemy pawn exactly when one stands ahead of the pawn on its own file. |
| Features.PassedPawnsBounds | game/controllers/src/ai_controller.cpp:379-428 | Between 0 and the number of own pawns. |
| Features.PassedIgnoresOtherFiles | game/controllers/src/ai_controller.cpp:379-428 | A man put on another file, adjacent files included, never changes whether a pawn is passed. |
| Features.PassedPawnsSwapMirror | game/controllers/src/ai_controller.cpp:379-428 | Mirror-image boards score alike for opposite sides. |
| Features.BishopPairBlackIgnored | game/controllers/src/ai_controller.cpp:570-592 | As written, black never earns the bonus, whatever the board. |
| Features.BishopPairWhiteAgrees | game/controllers/src/ai_controller.cpp:570-592 | For white the code as written scores as intended. |
| Features.BishopPairSwapMirror | game/controllers/src/ai_controller.cpp:570-592 | Corrected, mirror-image boards score alike for opposite sides. |
| Features.BishopPairInitial | game/controllers/src/ai_controller.cpp:570-592 | At the start both sides hold the pair, yet as written only white is paid. |
| PawnFiles.DoubledPawnsCount | game/controllers/src/ai_controller.cpp:255-283 | The penalty is minus (pawns - files holding pawns), never positive. |
| PawnFiles.DoubledPawnsSwapMirror | game/controllers/src/ai_controller.cpp:255-283 | Mirror-image boards score alike for opposite sides. |
| PawnFiles.DoubledPawnsInitial | game/controllers/src/ai_controller.cpp:255-283 | No doubled pawns at the start. |
| PawnFiles.IsolatedPawnsBounds | game/controllers/src/ai_controller.cpp:285-323 | At most one point per pawn file, never a bonus. |
| PawnFiles.IsolatedPawnsSwapMirror | game/controllers/src/ai_controller.cpp:285-323 | Mirror-image boards score alike for opposite sides. |
| PawnFiles.IsolatedPawnsInitial | game/controllers/src/ai_controller.cpp:285-323 | No isolated pawns at the start. |
| Rooks.CollectRooks | game/controllers/src/ai_controller.cpp:506-514 | The list holds exactly the side's rooks, in scan order. |
| Rooks.ClearLineIff | game/controllers/src/ai_controller.cpp:528-540 | The walk reports clear exactly when every square strictly between is empty. |
| Rooks.ConnectedAsScannedIff | game/controllers/src/ai_controller.cpp:519-565 | A pair scores exactly when the rooks share a rank or a file with only empty squares between. |
| Rooks.ConnectedSymmetric | game/controllers/src/ai_controller.cpp:519-565 | Whether a pair scores does not depend on which rook the walk starts from. |
| Rooks.PairsBound | game/controllers/src/ai_controller.cpp:519-565 | No more points than pairs. |
| Rooks.ConnectedRooksScore | game/controllers/src/ai_controller.cpp:501-569 | The score counts the connected pairs among the side's rooks, at most n(n-1)/2. |
| Rooks.ConnectedRooksInitial | game/controllers/src/ai_controller.cpp:501-569 | At the start the two rooks of a side are a1/h1 (or a8/h8), blocked by their own men, and score nothing. |
| Kings.MinDistanceLeast | game/controllers/src/ai_controller.cpp:611-615 | The loop ends on the least of its start and every distance, and that value is attained. |
| Kings.CentreDistanceClosed | game/controllers/src/ai_controller.cpp:609-615 | The distance to the nearest centre square is the larger of the two coordinates' distances to lines 4-5, at most 3. |
| Kings.CentreDistanceMirror | game/controllers/src/ai_controller.cpp:609-615 | The centre is the same seen from either side. |
| Kings.KingCentralizationAsWrittenAsymmetric | game/controllers/src/ai_controller.cpp:619-627 | As written, a black king on the mirror square scores half a point less than the white king. |
| Kings.KingCentralization | game/controllers/src/ai_controller.cpp:594-629 | Corrected, the score lies between -4.75 and 0. |
| Kings.KingCentralizationSymmetric | game/controllers/src/ai_controller.cpp:594-629 | Corrected, mirror images score alike for opposite sides. The as-written score is off by a quarter, up for white and down for black. |
| Kings.KingShieldAsWritten | game/controllers/src/ai_controller.cpp:747-783 | As written, the `.value()` throws exactly when the king has no rank in front of it. |
| Kings.ShieldSquare | game/controllers/src/ai_controller.cpp:772-779 | Corrected: 0 to 2 points. Only the side's own men score, and a pawn scores exactly 1. |
| Kings.KingShield | game/controllers/src/ai_controller.cpp:747-783 | Corrected: between 0 and 6, and 0 for a king with no rank in front of it. |
| Kings.KingShieldSwapMirror | game/controllers/src/ai_controller.cpp:747-783 | Corrected, mirror images score alike for opposite sides. |
| Kings.KingShieldAgrees | game/controllers/src/ai_controller.cpp:747-783 | As written and corrected agree when each man in front of the king stands on a square of his own colour. |
| Kings.KingShieldInitial | game/controllers/src/ai_controller.cpp:747-783 | At the start the corrected shield is 3 and the as-written one is 1. A white king on rank 8 makes the as-written code throw. |
| Placement.PlacementTermFlip | game/controllers/src/ai_controller.cpp:785-837 | A white man and a black man of the same kind on mirrored squares read the same entry with opposite signs. |
| Placement.PositionScoreSwapMirror | game/controllers/src/ai_controller.cpp:785-837 | Swapping colours and mirroring the board negates the score. |
| Placement.PositionScoreIgnoresKingTable | game/controllers/src/ai_controller.cpp:785-837 | The king table and the scalars are never read. |
| Placement.PositionScorePlace | game/controllers/src/ai_controller.cpp:785-837 | A man put on an empty square changes the score by exactly his entry. For white that is table[rank-1][file-1]; for black it is minus the entry on row 8-rank; a king adds nothing. |
| Placement.PositionScoreInitial | game/controllers/src/ai_controller.cpp:785-837 | The starting layout scores 0 whatever the tables hold. |
| Search.AlphaBetaSound | game/controllers/src/ai_controller.cpp:1004-1050 | Fail-soft: inside the window the result is the minimax value. At or below alpha it bounds that value from above; at or above beta, from below. |
| Search.AlphaBetaFullWindow | game/controllers/src/ai_controller.cpp:1004-1050 | Over the full window pruning changes nothing: the search returns the minimax value. |
| Search.PickSound | game/controllers/src/ai_controller.cpp:1066-1087 | The root loop picks the first move whose score is best for the mover. It picks nothing when no score beats the starting infinity. |
| Search.SentinelUnbeaten | game/controllers/src/ai_controller.cpp:1063-1064 | No score beats the mover's starting infinity exactly when it equals it. |
| Search.RootScoresAreMinimax | game/controllers/src/ai_controller.cpp:1066-1073 | Each root score is the child's minimax value. |
| Search.SelectBestMoveSpec | game/controllers/src/ai_controller.cpp:1052-1091 | "No Legal Moves" exactly when there is no move. `bad_optional_access` exactly when every move scores the mover's worst. Otherwise the first move with the best minimax value. |
| Search.PySelectBestMoveAgrees | genetic_algorithms_python/Smarter_GA.py:296-342 | With the corrected flag, the Python search picks what the C++ search picks, and None where the C++ one fails. |
| Search.PySelectBestMoveCounterexample | genetic_algorithms_python/Smarter_GA.py:328-340 | A two-move position where the flag as written picks move 0 and the corrected search picks move 1. |
| Balance.MaterialBalancePlace | genetic_algorithms_python/Smarter_GA.py:377-389 | Putting a man on an empty square adds his value for white and subtracts it for black; a king changes nothing. |
| Balance.MaterialBalanceSwapMirror | genetic_algorithms_python/Smarter_GA.py:377-389 | The mirror image has the opposite balance. |
| Balance.MaterialBalanceInitial | genetic_algorithms_python/GA_random_moves.py:53-67 | The starting position is level. |
| Evolution.SortByFitnessSpec | genetic_algorithms_python/Smarter_GA.py:413 | The sort orders by fitness, highest first, and is a permutation. |
| Evolution.SortedFirstIsFirstFittest | genetic_algorithms_python/Smarter_GA.py:413 | The sort is stable: the head is the first entry of greatest fitness. |
| Evolution.TournamentSpec | genetic_algorithms_python/Smarter_GA.py:398-402 | The winner is the first of the sampled entries with the greatest fitness, and no sampled entry is fitter. |
| Evolution.ElitesAreFittest | genetic_algorithms_python/Smarter_GA.py:412-418 | The first elite is the first fittest entry, and the second is at least as fit as every entry after it. |
| Evolution.NextGeneration | genetic_algorithms_python/Smarter_GA.py:409-428 | Exactly the population size: the two elites in order, then one bred child per draw. |
| SmarterGA.Crossover | genetic_algorithms_python/Smarter_GA.py:258-275 | Slot i comes from parent 1 when its coin is below 0.5 and from parent 2 otherwise. |
| SmarterGA.CrossoverIsCross | genetic_algorithms_python/Smarter_GA.py:258-275 | The two loops build the slot-by-slot choice. |
| SmarterGA.CrossSpec | genetic_algorithms_python/Smarter_GA.py:258-275 | The child keeps the shape and every slot comes from a parent. Crossing a parent with itself, or drawing only low coins, gives parent 1. |
| SmarterGA.MutateSpec | genetic_algorithms_python/Smarter_GA.py:277-294 | The shape is kept and each weight moves by at most the strength. A weight changes only when its coin is below the rate, and a rate of 0 changes nothing. |
| SmarterGA.RateSpec | genetic_algorithms_python/Smarter_GA.py:425 | The rate starts at 0.1, never rises, and never drops below 0.02. |
| SmarterGA.PlaySpec | genetic_algorithms_python/Smarter_GA.py:345-371 | At most `max_moves` plies. +inf exactly when the game ended in time with "1-0", -inf exactly for "0-1", and otherwise the material balance of the last position. |
| SmarterGA.BestOfSpec | genetic_algorithms_python/Smarter_GA.py:391-396 | The running maximum is at least its start and every game, and equals one of them. |
| SmarterGA.EvaluateFitnessSpec | genetic_algorithms_python/Smarter_GA.py:391-396 | Fitness is never below 0, at least every game's score, and either 0 or one of the scores. |
| SmarterGA.TournamentShaped | genetic_algorithms_python/Smarter_GA.py:398-402 | A tournament over well-shaped chromosomes returns a well-shaped one. |
| SmarterGA.NextGen | genetic_algorithms_python/Smarter_GA.py:404-428 | Twenty chromosomes: the two elites first, then for each draw the mutated crossover of two tournament winners from the sorted population. All are well-shaped. |
| MoveGA.ReplayAppend | genetic_algorithms_python/GA_random_moves.py:31-39 | Replaying a + b is replaying b from where a ends; an illegal prefix stops everything. |
| MoveGA.FirstIllegal | genetic_algorithms_python/GA_random_moves.py:31-39 | A replay fails exactly when some move is illegal in the position its prefix reaches. |
| MoveGA.FitnessSpec | genetic_algorithms_python/GA_random_moves.py:28-51 | -inf exactly when some move is illegal where it is played, and then every extension is -inf too. "1-0" gives 1000 and "0-1" gives -1000. |
| MoveGA.RandomChromosome | genetic_algorithms_python/GA_random_moves.py:17-26 | At most 200 moves, all legal. It stops at 200 moves or when the game is over, and fails like `random.choice` on an empty move list. |
| MoveGA.RandomChromosomeFit | genetic_algorithms_python/GA_random_moves.py:17-51 | A chromosome that replays legally is never scored -inf. |
| MoveGA.Crossover | genetic_algorithms_python/GA_random_moves.py:69-82 | As long as the longer parent. Even slots come from parent 1 and odd slots from parent 2, then the rest of the longer parent (parent 2 on a tie). |
| MoveGA.CrossoverSpec | genetic_algorithms_python/GA_random_moves.py:69-82 | Every slot comes from a parent at the same index; crossing a parent with itself gives it back. |
| MoveGA.MutateAsWritten | genetic_algorithms_python/GA_random_moves.py:84-110 | As written: the standing move is played and then a replacement drawn from the position after it is also played. The length is kept. |
| MoveGA.MutateAsWrittenCounterexample | genetic_algorithms_python/GA_random_moves.py:89-106 | A legal one-move chromosome that the mutation as written turns into an illegal one. |
| MoveGA.Mutate | genetic_algorithms_python/GA_random_moves.py:84-110 | Corrected: the length is kept, and the walk stops within the chromosome. |
| MoveGA.MutateSpec | genetic_algorithms_python/GA_random_moves.py:84-110 | Corrected: the prefix before the mutated index and the tail past the stop are unchanged, and everything up to the stop replays legally. Only positions whose coin won can change, so with no winning coin the chromosome comes back as it was. |
| MoveGA.TournamentBound | genetic_algorithms_python/GA_random_moves.py:141-145 | The winner is no longer than the longest chromosome. |
| MoveGA.LongestSorted | genetic_algorithms_python/GA_random_moves.py:119 | The fitness sort is a permutation, so the longest chromosome is as long before it as after it. |
| MoveGA.NextGen | genetic_algorithms_python/GA_random_moves.py:112-134 | Twenty chromosomes: the two elites first, then for each draw the mutated crossover of two tournament winners from the sorted population. No child is longer than the longest parent. |

## Left out

- `chess_game` (game.cpp) is not part of this model. That leaves out its rules: check, checkmate, castling rights, legal-move generation and `move`. The controllers and the server take the game as a parameter: its text, `get`, legal moves, move and state.
- Features of `ai_controller` that need the game's legal moves or state are left out: mobility, castling bonus, king pressure, piece defence, knight outposts, blocked pieces and space control (`ai_controller.cpp` lines 77-212 and 430-499, 631-746). For the same reason `evaluate_position`'s weighted sum is not modelled as a whole; only the double use of the material weight is stated.
- Features.MaterialWeightSquared: stated for one square's term, not summed over the whole evaluation, because the remaining terms are left out.
- The Zobrist table, the `play`/`activate` threads, the timing calls, and all logging to `std::cout` are left out, as are the GUI, texture loading, the socket client and server, mutexes and the sample programs.
- Floating point becomes exact `real` arithmetic; rounding, NaN and the `float`/`double` mix in the search are not modelled. Infinities are explicit (`Search.Ext`).
- `Smarter_GA.py`: `generate_chromosome`, `king_safety`, `evaluate_position`, Stockfish and the final report after the loop are not modelled. The evaluator and the opponent's move are parameters of the game.
- SmarterGA.Crossover: modelled for parents of the generated shape only; a shorter second parent would raise `IndexError` in Python.
- SmarterGA.MutateSpec: the nudged weights are exact reals; numpy's in-place float update is not modelled.
- `GA_random_moves.py`: the final `max(population, key=evaluate_fitness)`, `sequence_to_pgn` and the `__main__` block are left out, as is `play_bot.py`.
- MoveGA.RandomChromosome: the "no legal moves" failure cannot arise in real chess (the game is over first). It is kept because the rules are abstract here.
- MoveGA.NextGen: the generation loop breeds with the corrected mutation (`MoveGA.Mutate`), not the `mutate` that GA_random_moves.py line 131 calls; the mutation as written is modelled, with its defect exhibited, by `MoveGA.MutateAsWritten`.
- MoveGA.FitnessSpec: the draw ("1/2-1/2") and material cases are in the definition but not restated as separate clauses.
- Rooks: no mirror-symmetry lemma for connected rooks.
- python-chess's move parsing is folded into the legal-move test: a string that does not parse is never a legal move.

## Findings

| source | as written | input that shows it | evidently intended | confidence | as-written member | corrected member |
|---|---|---|---|---|---|---|
| game/controllers/src/ai_controller.cpp:580 | The guard `colour() && colour() == white` only counts white bishops, so black's bishop pair is never scored. | The starting position scored for black: 0, although black holds both bishops. | Count the bishops of the side being scored. | high, not executed | Features.BishopPairAsWritten | Features.BishopPair |
| game/controllers/src/ai_controller.cpp:619-627 | The far-side distance is `7 - rank` for white and `rank` for black. | A white king on e1 and a black king on e8 score -4.5 and -5.0. | Mirror images score alike: `8 - rank` for white and `rank - 1` for black. | medium, not executed | Kings.KingCentralizationAsWritten | Kings.KingCentralization |
| game/controllers/src/ai_controller.cpp:772 | The shield tests the square's colour instead of the man's, and `itopos(forward_rank, i).value()` throws for a king on its last rank. | The starting position: 1 instead of 3 for each side. A white king on e8 throws `bad_optional_access`. | Count own men in front of the king; a king with no rank in front has no shield. | high, not executed | Kings.KingShieldAsWritten | Kings.KingShield |
| genetic_algorithms_python/Smarter_GA.py:330 | After white's move the child search is told to maximise when `board.turn == chess.BLACK`, i.e. when black is to move. | `Search.Trap`: white picks the move that lets black win 10 points. | The side to move after the push maximises iff it is white. | high, not executed | Search.PySelectBestMoveAsWritten | Search.PySelectBestMove |
| genetic_algorithms_python/GA_random_moves.py:94 | Mutation first plays the standing move, then draws the replacement from the position after it and plays that too. The board ends one ply ahead and the chromosome becomes illegal. | `MoveGA.Alternate` with the chromosome ["w"] and a coin of 0.0: it becomes ["b"], which scores -inf. | Draw the replacement from the position before the mutated move and play only one of the two. | high, not executed | MoveGA.MutateAsWritten | MoveGA.Mutate |
| game/controllers/src/server_controller.cpp:45-52 | A possible-moves payload of the wrong size is answered with the empty string and then handled anyway, so the client receives two replies. | The payload "A1x" after the possible-moves prefix. | Return after rejecting the payload. | medium, not executed | Wire.Dispatch | Wire.DispatchIntended |
