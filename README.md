# A pawns-only chess engine, modelled in Dafny

The engine plays a chess variant with pawns only. White starts on rank 2 and black on rank 7.
A side wins when one of its pawns reaches the last rank, or when the opponent has no legal move.
The model covers the engine's core:

- **The bitboard board** (`FBoard`). Two 10x10 boolean arrays hold the pawns; the 8x8 board sits
  inside a one-cell padding. The board also holds the side to move and two cached move lists, one
  per colour. Here a move is the (white, black) pair of boards after it, as in the engine.
- **The move generator** (`legal_moves_boards`), in the order the engine lists moves:
  - pushes, including the double step from the starting rank;
  - captures to the left;
  - captures to the right.
- **The game state** (`is_checkmate`), the move itself (`make_move`) and the key of a position (`key`).
- **Board notation**:
  - reading the piece-placement field of FEN (`fen2bit`);
  - writing it (`bit2fen`);
  - the coordinate name of an agent's move (`move2san`).
- **The position graph** (`Graph`). It maps a position's key to a node. Each node is expanded
  lazily, once, into child keys, and records its parents.
- **The evaluation** (`heuristic`), in three tiers:
  1. the pawn race;
  2. mobility below a threshold;
  3. material balance.
- **The searches**:
  - fixed-depth `minimax` and `alphabeta` (fail-soft), walking the graph;
  - the root choice of the minimax and alpha-beta agents' `ply`, each with its warm-up of
    random moves.
- **The best agent's depth schedule and clock** (`depth_scheduler`, `BestAgent.ply`).
- **The server's setup line** (`handle_setup`). Tokens such as `Wb4 Bg7` are placed on an empty
  board, and the result is written out as FEN.

## Modules

The code is imperative in the engine, and it stays imperative in the model:

- `FBoard`, `Graph`, the agents and the best agent are classes whose methods update their fields.
- The loops of `legal_moves_boards`, `fen2bit`, `bit2fen`, `exploit` and `handle_setup` are
  `while` loops. The child loops of the searches and the root loops of the agents' `ply` are
  `for` loops.
- Each method is proved equal to a function on values. The properties are lemmas about those
  functions. In "## Model", the rows marked "definition" name those functions. Each such row cites
  the source lines the function models and names the lemmas that state what it means.

| module | file | contents |
|---|---|---|
| Common | common.dfy | `Option`, `Result`, extended reals (`-inf`/`+inf`), text splitting |
| Board | board.dfy | positions as cell sets, the move generator as a function, checkmate, the termination potential |
| BitBoards | fboard.dfy | the array board `FBoard` and the array move generator |
| Notation | notation.dfy | FEN reading and writing, move names |
| Setup | setup.dfy | `handle_setup` |
| Evaluator | evaluator.dfy | `heuristic` |
| Graphs | graph.dfy | keys, nodes and the `Graph` class |
| Search | search.dfy | minimax and fail-soft alpha-beta over any game, and the root pick |
| Agents | agents.dfy | the engine's game, the agent class `Engine` with its memoised evaluation, searches and plies |
| Scheduler | scheduler.dfy | the depth schedule and the class `BestAgent` |

## Main results

- **The move generator is exact.** `Board.WhiteMovesExactly` and `Board.BlackMovesExactly` prove
  that a move is generated if and only if it is a single or double push, or a diagonal capture,
  of a pawn of the side to move. `BitBoards.FBoard.LegalMovesBoards` proves that the array loops
  compute exactly that list.
- **Every move lowers a potential.** `Board.MoveLowersPotential` proves that every move strictly
  lowers a natural-number potential of the position. So the searches terminate at any depth,
  including the negative depths the best agent's schedule can produce.
- **FEN round trip.** `Notation.FenRoundTripExact` proves that reading back the written FEN of a
  board gives the board again, for a board inside the 8x8 window with the colours apart.
  `Notation.StartFromFen` proves that `GameBoard`'s default FEN reads as the start position.
- **Alpha-beta agrees with minimax.**
  - `Search.AlphaBetaFailSoft` proves the fail-soft bounds inside any window.
  - `Search.AlphaBetaFullWindow` proves that the full window gives the minimax value.
  - `Agents.AlphaBetaChoiceIsMinimax` proves that the alpha-beta agent's root choice is the one
    minimax values would give.
- **The searching methods are proved against these values.** That holds for the graph-walking
  methods and the root loops. Fetching a node, expanding it and memoising its evaluation all keep
  the graph consistent.
- **The depth schedule.** Its result is capped at 20. It moves the depth by at most −1..+3 per
  ply. It falls as the time ratio grows. Division by a zero clock is an error result.

## Model

| member | source | states |
|---|---|---|
| Common.Split | Board.py:158 | splitting on a separator set yields at least one part |
| Common.SplitLength | Board.py:158-160 | the number of parts is the number of separators plus one (the `len(rows) != 8` test counts separators) |
| Common.SplitPartsSeparatorFree | Board.py:158 | no part contains a separator |
| Common.SplitAppendSep | Game.py:136 | appending a separator appends an empty part |
| Common.SplitAppendPiece | Game.py:136 | appending separator-free text extends the last part |
| Common.Max | Agents.py:190 | `max` of two scores is an upper bound equal to one of them |
| Common.Min | Agents.py:195 | `min` of two scores is a lower bound equal to one of them |
| Common.LeTotal | Agents.py:215 | any two scores, infinities included, compare |
| Common.LeTrans | Agents.py:241-243 | score order is transitive |
| Common.LeAntisym | Agents.py:215 | score order is antisymmetric |
| Board.GenAt | Board.py:27-98 | definition: the moves one of the six loops produces at one cell; Board.GenAtIff characterises it |
| Board.Collect | Board.py:26-98 | definition: one loop over the first n cells in row-major order; Board.CollectMember and Board.CollectExactly characterise it |
| Board.WhiteMoves | Board.py:22-59 | definition: white's list, pushes then left captures then right captures; Board.WhiteMovesExactly characterises it |
| Board.BlackMoves | Board.py:61-98 | definition: black's list in the same order; Board.BlackMovesExactly characterises it |
| Board.LegalMoves | Board.py:100-107 | definition: the side to move's list; Board.MoveMaterial, Board.MoveLowersPotential and Board.StartPositionMoves state its properties |
| Board.OppMoves | Board.py:103-106 | definition: the other side's list |
| Board.IsCheckmate | Board.py:109-121 | definition: the verdict in the source's order of tests; Board.NotOverArrived and BitBoards.FBoard.IsCheckmate relate it to the board |
| Board.Successor | Board.py:133-137 | definition: the position a move leads to, with the turn flipped; Board.MoveStaysOnBoard and Board.MoveLowersPotential state its properties |
| Board.Children | Agents.py:27-36 | definition: the distinct successors in first-occurrence order; Board.ChildrenFacts and Graphs.ChildKeysExactly state their properties |
| Board.CellIndex | Board.py:26 | a window cell's row-major index lies in 0..99 and maps back to the cell |
| Board.IndexCell | Board.py:26 | every index 0..99 names a window cell and is that cell's index |
| Board.GenAtIff | Board.py:27-98 | the moves produced at one cell by one of the six loops are exactly those its rule describes (push with double step from row 7 or 2, capture from the diagonal) |
| Board.CollectMember | Board.py:26-27 | a move is collected over the first n cells iff some cell below n produces it |
| Board.CollectExactly | Board.py:26-98 | a move is in a loop's list iff some window cell produces it under that loop's rule |
| Board.WhiteMovesExactly | Board.py:22-59 | a white move is generated iff it is a push of a white pawn to a free cell ahead (or the double step from row 7), or a left or right capture of a black pawn |
| Board.BlackMovesExactly | Board.py:61-98 | the same for black, including the double step that also clears the white array at the origin |
| Board.WhitePushMaterial | Board.py:28-39 | a white push keeps the colours apart and the pawn counts |
| Board.WhiteCaptureMaterial | Board.py:41-59 | a white capture keeps the colours apart and removes exactly one black pawn |
| Board.BlackPushMaterial | Board.py:64-78 | a black push keeps the colours apart and the pawn counts |
| Board.BlackCaptureMaterial | Board.py:80-98 | a black capture keeps the colours apart and removes exactly one white pawn |
| Board.GenMaterial | Board.py:27-98 | every move of a loop keeps the colours apart and the counts its kind implies |
| Board.CollectMaterial | Board.py:27-98 | the same for every move of a loop's whole list |
| Board.MoveMaterial | Board.py:100-107 | a legal move keeps the colours apart, keeps the mover's count, and lowers the opponent's by at most one |
| Board.Successors | Board.py:123-139 | definition: the positions the legal moves lead to, in list order; Board.ChildrenFacts and Board.MoveLowersPotential prove that each one is a window position of lower potential |
| Board.Dedup | Agents.py:35-36 | the first-occurrence list has the same members as its input and no duplicates |
| Board.StartMember | Board.py:149 | the starting position has white on row 7 and black on row 2, columns 1..8 |
| Board.StartPushes | Board.py:27-39 | on the start position the push loop yields two moves per pawn, none of them capturing |
| Board.StartNoCaptures | Board.py:41-59 | on the start position neither capture loop yields a move |
| Board.StartPositionMoves | Board.py:17-107 | the start position has 16 legal moves, all of them pushes |
| Board.OnlyPushes | Board.py:100-107 | with no capture available, white's list is its push list |
| Board.PotentialTwoPoints | Board.py:27-98 | changing the grids at two cells changes the potential only by those cells' weights |
| Board.TwoCellChange | Board.py:27-98 | the same, stated for cells |
| Board.GenLowersPotential | Board.py:27-98 | every move a loop produces strictly lowers the potential |
| Board.WhiteGenLowersPotential | Board.py:27-59 | every white move strictly lowers the potential |
| Board.BlackGenLowersPotential | Board.py:64-98 | every black move strictly lowers the potential |
| Board.CollectLowersPotential | Board.py:27-98 | every move in a loop's list strictly lowers the potential |
| Board.MoveLowersPotential | Board.py:123-139 | every legal move strictly lowers the potential, so play from any position ends |
| Board.NotOverArrived | Board.py:109-121 | a position `is_checkmate` calls not over has no white pawn on row 1 and no black pawn on row 8 |
| Board.GenStaysOnBoard | Board.py:27-98 | moves stay in the 10x10 window, and on the 8x8 board while no pawn has arrived |
| Board.MoveStaysOnBoard | Board.py:123-139 | a legal move stays in the window; from a position not over, on the 8x8 board |
| Board.MoveSource | Board.py:26-98 | every legal move comes from one loop at one cell |
| Board.ChildrenFacts | Agents.py:27-36 | every distinct child of a board lies in the window and has lower potential; if the board is not over, its children are on the 8x8 board |
| BitBoards.ToGrid | Board.py:8-12 | the cell set of an array holds only cells in range that are `True` |
| BitBoards.ToGridMember | Board.py:26 | a cell is in the set iff its array entry is `True` |
| BitBoards.MovesAt | Board.py:27-98 | the array code for one loop at one cell yields exactly that cell's moves |
| BitBoards.CollectMoves | Board.py:26-98 | one loop over all cells of the array yields exactly that loop's list |
| BitBoards.ColourMoves | Board.py:22-98 | the three loops of a colour yield exactly that colour's move list |
| BitBoards.GridArray | Board.py:29-32 | a fresh 10x10 array holding exactly the given cells |
| BitBoards.FBoard.constructor | Board.py:9-15 | the new board holds the given arrays and turn, with both lists computed |
| BitBoards.FBoard.LegalMovesBoards | Board.py:17-107 | `moves` becomes the side to move's list and `opp_moves` the other's; the board is unchanged and the result is `moves` |
| BitBoards.FBoard.IsCheckmate | Board.py:109-121 | reading the arrays gives the value-level verdict: no move means the mover lost; a white pawn on row 1 means white won; a black pawn on row 8 means black won |
| BitBoards.FBoard.ToGridRows | Board.py:117-119 | `True in white[1]` (or `black[8]`) iff the cell set has a cell in that row |
| BitBoards.FBoard.MakeMove | Board.py:123-139 | a pair that is not a member of `moves` is refused with nothing changed (the legality test as intended; see "## Findings"); otherwise the board becomes the successor, the turn flips and the lists are recomputed |
| BitBoards.ElementwiseIn | Board.py:130 | definition: numpy's `new_board in self.moves` on the stacked move array, true when some entry agrees with the pair at some cell |
| BitBoards.ElementwiseInNonEmpty | Board.py:130 | with the padding empty, the test passes iff the list is not empty, whatever the pair |
| BitBoards.ElementwiseInAcceptsIllegal | Board.py:130-131 | from the start position the empty pair is not a legal move, yet the test lets it through |
| Notation.Step | Board.py:164-174 | definition: one character of a row: a digit skips columns, `p`/`q` and `P`/`Q` place a pawn, `.` skips one, anything else is ignored; a pawn past column 8 is the index error |
| Notation.Scan | Board.py:163-174 | definition: one row's characters in turn; Notation.ScanAppend and Notation.ScanInterior state its properties |
| Notation.ScanRows | Board.py:161-174 | definition: the rows in turn |
| Notation.FenToGrids | Board.py:155-178 | definition: `fen2bit` on values; Notation.FenRowCount, Notation.FenInterior and Notation.FenRoundTripExact characterise it |
| Notation.RowText | Board.py:184-202 | definition: one row's text; Notation.RowTextReads proves that it reads back |
| Notation.FenUpTo | Board.py:203-204 | definition: the first n row texts joined by `/`; Notation.FenUpToJoined relates it to the row list |
| Notation.GridsToFen | Board.py:180-205 | definition: `bit2fen` on values; Notation.SplitFen and Notation.FenRoundTrip characterise it |
| Notation.Move2San | Board.py:207-223 | definition: the changed white cells, else the changed black cells, named origin-then-target; Notation.WhiteSan, Notation.BlackSan and Notation.LegalMoveSan characterise it |
| Notation.StartToFen | Board.py:149 | `bit2fen` of the start position is `GameBoard`'s default text `8/pppppppp/8/8/8/8/PPPPPPPP/8` |
| Notation.StartFromFen | Board.py:149-151 | `fen2bit` of `GameBoard`'s default text is the start position, white on row 7 and black on row 2 |
| Notation.ScanNotInvalid | Board.py:161-174 | scanning a row never fails with the row-count error |
| Notation.ScanRowsNotInvalid | Board.py:161-174 | scanning the rows never fails with the row-count error |
| Notation.FenRowCount | Board.py:158-160 | reading fails with "Invalid board" iff the text has other than 7 separators |
| Notation.ScanInterior | Board.py:163-177 | a row scan that succeeds marks padded cells on the 8x8 board |
| Notation.ScanRowsInterior | Board.py:161-177 | a successful read marks cells on the 8x8 board only |
| Notation.FenInterior | Board.py:155-178 | every board read from FEN lies on the 8x8 board |
| Notation.PaddedMember | Board.py:176-177 | padding shifts each cell of the 8x8 array by one row and one column |
| Notation.Mark | Board.py:168-171 | setting one entry adds exactly that padded cell |
| Notation.Fen2Bit | Board.py:155-178 | the array loop gives the value-level reading, including both error outcomes |
| Notation.RowScan | Board.py:185-200 | the pending empty count never exceeds the squares scanned |
| Notation.RowStep | Board.py:187-200 | one square raises the empty count by at most one |
| Notation.RowFenSquare | Board.py:187-200 | the loop body for one square performs one step of the row's text |
| Notation.RowFen | Board.py:184-202 | the loop over one row writes that row's text |
| Notation.Bit2Fen | Board.py:180-205 | the two loops write the value-level FEN of the board |
| Notation.ScanAppend | Board.py:163 | scanning concatenated text is scanning its two parts in turn |
| Notation.ScanFlushThen | Board.py:164-166 | reading a written empty count skips that many columns |
| Notation.RowScanReads | Board.py:184-200 | reading back the first n squares of a written row marks exactly those squares' pawns |
| Notation.RowScanReadsStep | Board.py:187-200 | the same, one square further |
| Notation.RowScanReadsEmpty | Board.py:199-200 | an empty square is read back as empty |
| Notation.RowScanReadsWhite | Board.py:187-192 | a white square is read back as white |
| Notation.RowScanReadsBlack | Board.py:193-198 | a black square is read back as black |
| Notation.RowTextReads | Board.py:184-202 | a written row reads back its 8 squares, white winning a cell claimed by both |
| Notation.RowScanSeparatorFree | Board.py:185-200 | a row's text holds no separator |
| Notation.RowTexts | Board.py:184-205 | one text per row, in row order |
| Notation.FenUpToJoined | Board.py:203-204 | the FEN is the row texts joined with `/` |
| Notation.SplitRow | Board.py:158 | splitting text that ends a row yields that row |
| Notation.SplitJoinedStep | Board.py:158 | splitting a joined prefix yields its rows, one row further |
| Notation.SplitJoined | Board.py:158 | splitting the joined rows yields the rows |
| Notation.SplitFen | Board.py:203-204 | splitting a written FEN gives back its 8 row texts |
| Notation.ScanRowsReads | Board.py:161-174 | reading the written rows marks each row's pawns |
| Notation.FenRoundTrip | Board.py:155-205 | reading back a written board gives its 8x8 part, white winning contested cells |
| Notation.FenRoundTripExact | Board.py:155-205 | for a board on the 8x8 board with the colours apart, reading back its FEN gives the board |
| Notation.CellsInOrder | Board.py:210 | the cells listed in row-major order are members of the set and in the window |
| Notation.TwoInOrder | Board.py:210 | a set with two window cells lists them in row-major order |
| Notation.NoneInOrder | Board.py:210 | a set with no window cell lists nothing |
| Notation.OneInOrder | Board.py:210 | a set with one window cell lists one cell |
| Notation.WhiteSan | Board.py:208-215 | a white step from f to t is named by the origin then the target, with `q` on reaching rank 8 |
| Notation.BlackSan | Board.py:216-223 | a black step from f to t, with or without a white pawn removed, is named the same way, with `q` on reaching rank 1 |
| Notation.WhitePushSan | Board.py:208-215 | a white push has a name |
| Notation.WhiteCaptureSan | Board.py:208-215 | a white capture has a name |
| Notation.BlackPushSan | Board.py:216-223 | a black push has a name |
| Notation.BlackCaptureSan | Board.py:216-223 | a black capture has a name |
| Notation.WhiteMoveSan | Board.py:207-215 | every generated white move has a name |
| Notation.BlackMoveSan | Board.py:207-223 | every generated black move has a name |
| Notation.LegalMoveSan | Board.py:207-223 | on a position with the colours apart, every legal move has a name: the mover's origin, then its target |
| Setup.Place | Game.py:138-142 | definition: the tokens placed in turn, stopping at the first bad one; Setup.PlaceResult characterises it |
| Setup.SetupFen | Game.py:135-143 | definition: `handle_setup` on values; Setup.SetupResult, Setup.SetupReadsBack and Setup.SetupRepeat characterise it |
| Setup.TokenCell | Game.py:139-142 | a token that is read names a cell in the 10x10 array, after Python's negative-index wrap; short tokens and non-digit ranks are errors |
| Setup.EmptyRowScan | Board.py:184-200 | an empty row writes no pawn and counts all its squares |
| Setup.EmptyRows | Board.py:184-202 | every row of an empty board writes as `8` |
| Setup.EmptyBoardFen | Board.py:180-205 | the empty board writes as `8/8/8/8/8/8/8/8` |
| Setup.EmptyFenIsEmpty | Game.py:137 | `8/8/8/8/8/8/8/8` reads as the empty board, so fresh all-false arrays stand for it |
| Setup.SetCell | Game.py:140-142 | setting one entry adds exactly that cell |
| Setup.HandleSetup | Game.py:135-143 | the token loop gives the value-level result, errors included |
| Setup.FirstBad | Game.py:138-142 | the first bad token: every earlier token is read, and this one fails |
| Setup.PlaceResult | Game.py:138-142 | placing fails with the first bad token's error; otherwise it adds the cells named by the W tokens to white and the rest to black |
| Setup.SetupResult | Game.py:135-143 | `handle_setup` fails with the first bad token's error, or writes the FEN of the named cells |
| Setup.SetupReadsBack | Game.py:135-143 | a successful setup's FEN reads back as the named cells on the 8x8 board |
| Setup.SplitAddToken | Game.py:136 | appending a space and a token appends that token |
| Setup.SetupRepeat | Game.py:138-142 | repeating a token changes nothing |
| Setup.RepeatNamed | Game.py:138-142 | repeating a token keeps the first bad token and the named cells |
| Setup.FirstBadAppend | Game.py:138-142 | appending a token does not move an earlier bad token |
| Evaluator.WhiteDist | Agents.py:88-91 | definition: a white pawn's distance to row 1: row - 1 when it is on row 4 or above with no black pawn ahead in its own or a neighbouring column, else 10 |
| Evaluator.BlackDist | Agents.py:93-96 | definition: a black pawn's distance to row 8, the mirror of the white rule |
| Evaluator.WhiteRace | Agents.py:98 | definition: the minimum white distance, 10 with no white pawn; Evaluator.WhiteRaceIsMinimum characterises it |
| Evaluator.BlackRace | Agents.py:99 | definition: the minimum black distance; Evaluator.BlackRaceIsMinimum characterises it |
| Evaluator.Race | Agents.py:100-102 | definition: the two distances, the side to move's lowered by one on a tie below 10 |
| Evaluator.RaceScore | Agents.py:103-120 | definition: tier 1; Evaluator.RaceFallsThrough, Evaluator.RaceScoreRange and Evaluator.RaceScoreColour characterise it |
| Evaluator.Mobility | Agents.py:123-135 | definition: tier 2 for a move count; Evaluator.MobilitySign characterises it |
| Evaluator.MobilityScore | Agents.py:122-135 | definition: tier 2 on a position |
| Evaluator.MaterialScore | Agents.py:141-145 | definition: tier 3; Evaluator.MaterialBound and Evaluator.MaterialScoreRange characterise it |
| Evaluator.Heuristic | Agents.py:82-148 | definition: the first tier with a verdict; Evaluator.HeuristicFinite and Evaluator.MaterialScoreRange state its properties |
| Evaluator.WhiteRaceIsMinimum | Agents.py:87-98 | the white race distance is the minimum over white pawns (10 when none is free to run) |
| Evaluator.BlackRaceIsMinimum | Agents.py:92-99 | the black race distance is the minimum over black pawns (10 when none is free to run) |
| Evaluator.RaceValues | Agents.py:87-99 | on the 8x8 board each race distance is 0..3 or 10 |
| Evaluator.RaceFallsThrough | Agents.py:100-120 | tier 1 gives no verdict iff neither colour has a free runner |
| Evaluator.RaceScoreRange | Agents.py:100-120 | a tier-1 score is a multiple of 1000 between 2000 and 6000 in size, positive iff the agent's colour wins the race |
| Evaluator.RaceScoreColour | Agents.py:103-120 | the white and black agents' tier-1 scores are opposite |
| Evaluator.MobilitySign | Agents.py:122-135 | tier 2 is zero iff the mover has at least `threshold` moves, negative iff the agent is the mover with fewer, and bounded by 5000 |
| Evaluator.CollectNoPawn | Board.py:26-27 | a colour with no pawn generates no move |
| Evaluator.MoverHasPawn | Board.py:26-27 | a side with a legal move has a pawn |
| Evaluator.MaterialScoreRange | Agents.py:137-148 | when tiers 1 and 2 give no verdict, the score is tier 3; some pawn exists; the score is -inf iff the agent has no pawn; otherwise it is at most 5000, reached iff the opponent has none |
| Evaluator.MaterialBound | Agents.py:141-145 | tier 3 is at most 5000, reached iff the opponent has no pawn |
| Evaluator.MaterialRatio | Agents.py:143-145 | the material ratio is at most 5000, reached iff the opponent count is zero |
| Evaluator.HeuristicFinite | Agents.py:82-148 | the evaluation is -inf exactly when all three tiers fall through with no pawn of the agent's, and never +inf |
| Graphs.KeyOf | Agents.py:49 | definition: the key of a position; Graphs.KeyOfInjective proves that it tells window positions apart |
| Graphs.GetKey | Agents.py:46-49 | definition: `get_key`; Graphs.GetKeyFacts characterises it |
| Graphs.NewNode | Agents.py:15-24 | definition: a fresh node: terminal status from `is_checkmate`, score 0 not computed, not expanded, no links |
| Graphs.Link | Agents.py:35-39 | definition: add the child to the parent's children and the parent to the child's parents, each unless present; Graphs.LinkShape and Graphs.LinkedLink characterise it |
| Graphs.Render | Agents.py:49 | an array's text has one character per cell |
| Graphs.RenderInjective | Agents.py:49 | different window grids have different texts |
| Graphs.KeyOfInjective | Agents.py:46-49 | two window positions have equal keys iff they are equal |
| Graphs.GetKeyFacts | Agents.py:46-49 | a string key is returned unchanged; tuple keys of window positions are equal iff the positions are |
| Graphs.KeysOf | Agents.py:32-36 | definition: the keys of a list of positions; Graphs.DedupKeys and Graphs.ChildKeysExactly prove that deduplicating them matches deduplicating the positions |
| Graphs.KeysOfAppend | Agents.py:35-36 | keys of an extended list extend the keys |
| Graphs.DedupKeysStep | Agents.py:35-36 | one step of "append the key unless present" |
| Graphs.DedupKeys | Agents.py:35-36 | deduplicating keys is the same as deduplicating the positions, because keys are injective |
| Graphs.ChildKeysExactly | Agents.py:27-36 | a node's child list is the first-occurrence list of its successors' keys: no duplicates, one key per distinct successor |
| Graphs.ChildBoards | Agents.py:27-39 | each child key of an expanded node is in the graph, holds the matching successor, and lists the node as a parent |
| Graphs.ChildBoard | Agents.py:35-39 | a child key in a consistent graph holds that child's board and lists the parent |
| Graphs.KeyedUpdate | Agents.py:33 | storing a node under its own key keeps every key matching its board |
| Graphs.CompleteUpdate | Agents.py:40 | storing an expanded node keeps all nodes but one complete |
| Graphs.LinkedSameLists | Agents.py:40 | updating a node's flags keeps the parent and child links |
| Graphs.LinkedFresh | Agents.py:33 | adding a node with no links keeps the links consistent |
| Graphs.LinkShape | Agents.py:35-39 | linking adds the child to the parent's children and the parent to the child's parents, each only if absent |
| Graphs.LinkedLink | Agents.py:35-39 | linking keeps each child list matched by the parent lists |
| Graphs.FreshKeeps | Agents.py:32-33 | adding a new node keeps the expansion's invariant |
| Graphs.FreshKeepsInv | Agents.py:42-44 | adding a new node keeps the graph invariant |
| Graphs.LinkKeeps | Agents.py:35-39 | linking a child keeps the expansion's invariant and grows the child list by that key unless present |
| Graphs.MarkKeeps | Agents.py:40 | marking the node expanded keeps the expansion's invariant |
| Graphs.StartExploiting | Agents.py:26-27 | an unexpanded node of a consistent graph starts the expansion |
| Graphs.EndExploiting | Agents.py:26-40 | an expansion that has linked every child leaves the graph consistent |
| Graphs.ExploitDone | Agents.py:26-40 | after the loop, the node's children are its child keys, it is expanded iff it has a move, and a node without moves leaves the graph unchanged |
| Graphs.ScoreKeeps | Agents.py:105-147 | storing a score keeps the graph invariant |
| Graphs.FreshGrows | Agents.py:33 | adding a node keeps every existing node's board and score |
| Graphs.LinkGrows | Agents.py:35-39 | linking keeps every node's board and score |
| Graphs.MarkGrows | Agents.py:40 | marking keeps every node's board and score |
| Graphs.GrowsTrans | Agents.py:26-56 | growth is transitive |
| Graphs.GrowsRefl | Agents.py:26-56 | growth is reflexive |
| Graphs.Graph.constructor | Agents.py:12-13 | a new graph is empty and consistent |
| Graphs.Graph.SetScore | Agents.py:105-147 | the node's score is stored and it is marked computed; nothing else changes |
| Graphs.Graph.AddNode | Agents.py:42-44 | the position's new node is stored under its key: not computed, not expanded, no links, its checkmate flag set |
| Graphs.Graph.Visit | Agents.py:28-39 | one child is added if new and linked both ways if not yet linked; existing boards and scores are kept |
| Graphs.Graph.ExploitStep | Agents.py:27-40 | one pass of the loop extends the child list by the next successor's key unless present |
| Graphs.Graph.Exploit | Agents.py:26-40 | after expansion the children are exactly the first-occurrence keys of the successors; the node counts as expanded iff it has a move; a node without moves leaves the graph unchanged |
| Graphs.Graph.Locate | Agents.py:51-53 | the key is in the graph, holding the given board; a known key changes nothing; a new node is not expanded |
| Graphs.Graph.GetNode | Agents.py:51-56 | the node returned is stored under the key, holds the requested board, its checkmate flag, and its child keys; each child holds its successor and lists the node as a parent; a node already expanded leaves the graph unchanged |
| Search.Minimax | Agents.py:183-196 | definition: `minimax` over any game; Search.MinimaxIsExtreme characterises it |
| Search.MinimaxOver | Agents.py:187-196 | definition: the child loop over the first n children; Search.MinimaxOverIsExtreme and Search.MinimaxOverMonotone characterise it |
| Search.AlphaBeta | Agents.py:233-252 | definition: `alphabeta` over any game; Search.AlphaBetaFailSoft and Search.AlphaBetaFullWindow relate it to minimax |
| Search.ABMax | Agents.py:237-244 | definition: the maximising loop from child i, with its break at beta; Search.ABMaxFailSoft characterises it |
| Search.ABMin | Agents.py:245-252 | definition: the minimising loop from child i, with its break at alpha; Search.ABMinFailSoft characterises it |
| Search.MinimaxOverIsExtreme | Agents.py:187-196 | the loop over the first n children gives their maximum (or minimum), or -inf (or +inf) when n is 0 |
| Search.MinimaxIsExtreme | Agents.py:183-196 | at depth 0 or a terminal position the value is the evaluation; otherwise it is the best of the children's values for the side to move |
| Search.MinimaxOverMonotone | Agents.py:189-195 | looping over more children only raises the maximum (or lowers the minimum) |
| Search.MaxStep | Agents.py:239-243 | one pass of the maximising loop keeps the window invariant |
| Search.MaxCut | Agents.py:241-242 | a cut-off in the maximising loop returns a lower bound of the true value |
| Search.AboveWindow | Agents.py:241-242 | a value at or above beta bounds the true value from below |
| Search.MinStep | Agents.py:247-251 | one pass of the minimising loop keeps the window invariant |
| Search.MinCut | Agents.py:249-250 | a cut-off in the minimising loop returns an upper bound of the true value |
| Search.BelowWindow | Agents.py:249-250 | a value at or below alpha bounds the true value from above |
| Search.AlphaBetaFailSoft | Agents.py:233-252 | with alpha < beta, a result inside the window is the minimax value; at or below alpha it is an upper bound; at or above beta a lower bound |
| Search.ABMaxFailSoft | Agents.py:237-244 | the maximising loop returns a fail-soft value for the max over the children |
| Search.ABMinFailSoft | Agents.py:245-252 | the minimising loop returns a fail-soft value for the min over the children |
| Search.AlphaBetaFullWindow | Agents.py:233-252 | called with the default window (-inf, +inf), alpha-beta returns the minimax value |
| Search.AlphaBetaInWindow | Agents.py:233-252 | when the minimax value lies strictly inside the window, alpha-beta returns it |
| Search.Pick | Agents.py:209-217 | the root loop's kept index is one of those looped over |
| Search.PickFirstMaximum | Agents.py:209-217 | nothing is kept iff every value is -inf; otherwise the kept value is the first maximum |
| Agents.MinimaxValue | Agents.py:183-196 | definition: minimax on the engine's game; Agents.MinimaxUnfold unfolds it |
| Agents.AlphaBetaValue | Agents.py:233-252 | definition: alpha-beta on the engine's game; Agents.AlphaBetaIsMinimax relates it to minimax |
| Agents.Chosen | Agents.py:209-217 | definition: the move the root loop keeps; Agents.ChosenIsFirstMaximum characterises it |
| Agents.MinimaxChoice | Agents.py:209-217 | definition: the minimax agent's root choice, maximizing at depth 15; Agents.ChosenIsFirstMaximum says which move it is |
| Agents.AlphaBetaChoice | Agents.py:265-273 | definition: the alpha-beta agent's root choice at `depth` with `not maximizing`; Agents.AlphaBetaChoiceIsMinimax proves that it is the minimax choice |
| Agents.PlyMove | Agents.py:204-208 | definition: the picked move during warm-up, the search's choice after it |
| Agents.PlayOutcome | Board.py:225-233 | definition: the move's name, or `Unnamed`; Agents.LegalMovesPlay proves that legal moves have one |
| Agents.Outcome | Agents.py:218 | definition: `NoBestMove` without a kept move, else the move's outcome |
| Agents.After | Agents.py:218 | definition: the position after the ply: the successor when the move was played |
| Agents.EngineDescends | Board.py:123-139 | every child of a playable board that is not over is playable and has lower potential |
| Agents.MemoKeeps | Agents.py:83-84 | a growing graph keeps every stored score correct |
| Agents.StoreKeeps | Agents.py:105-147 | storing the evaluation keeps every stored score correct |
| Agents.StoreSame | Agents.py:83-84 | the cached score, stored again, changes nothing |
| Agents.MinimaxUnfold | Agents.py:183-196 | the graph-walk value is the evaluation at depth 0 or on a terminal board, otherwise the children's fold |
| Agents.MinimaxPrefixStep | Agents.py:189-195 | one loop pass takes the max (or min) with the next child's value |
| Agents.MinimaxPrefixStart | Agents.py:188-193 | the loop starts from -inf (or +inf) |
| Agents.ChildRank | Agents.py:189 | each child is on the 8x8 board and has lower potential |
| Agents.HostsGrow | Agents.py:184-189 | the graph keeps hosting a node's children as it grows |
| Agents.GrowsChain | Agents.py:184-195 | growth of the graph chains |
| Agents.AlphaBetaUnfold | Agents.py:233-252 | the alpha-beta value is the evaluation at depth 0 or on a terminal board, otherwise the maximising or minimising loop |
| Agents.ABMaxFromStep | Agents.py:239-243 | one maximising pass: take the max, stop at beta, else raise alpha |
| Agents.ABMinFromStep | Agents.py:247-251 | one minimising pass: take the min, stop at alpha, else lower beta |
| Agents.ABFromEnd | Agents.py:244-252 | after the last child the loop returns its value |
| Agents.MinimaxRootValues | Agents.py:211-214 | definition: the value of each legal move's successor, searched by minimax; Agents.MinimaxChoice uses it maximizing at depth 15 (the defaults of `minimax`); Agents.ChosenIsFirstMaximum states which move the root loop keeps from it |
| Agents.AlphaBetaRootValues | Agents.py:267-270 | definition: the value of each legal move's successor, searched by alpha-beta with the full window; Agents.AlphaBetaChoiceIsMinimax proves that these values equal the minimax ones, and Agents.ChosenIsFirstMaximum states which move is kept |
| Agents.ChosenStep | Agents.py:215-217 | one pass of the root loop keeps the first strict maximum |
| Agents.PickedStart | Agents.py:209-210 | the root loop starts with -inf and no move |
| Agents.PickedStep | Agents.py:215-217 | a value strictly above the best replaces it |
| Agents.AlphaBetaIsMinimax | Agents.py:233-252 | the full-window alpha-beta value on the engine's game is its minimax value |
| Agents.AlphaBetaChoiceIsMinimax | Agents.py:254-275 | the alpha-beta agent's root values are minimax values, so its choice is the one minimax values give |
| Agents.ChosenIsFirstMaximum | Agents.py:209-217 | no move is kept iff every value is -inf; otherwise the kept move is at a position holding the first maximum |
| Agents.ChosenMember | Agents.py:211-217 | the kept move is one of the moves looped over |
| Agents.LegalMovesPlay | Board.py:225-233 | on a board with the colours apart, every legal move has a name, so it can be played |
| Agents.ChildKey | Agents.py:212-213 | playing a legal move on a copy gives its successor, on the 8x8 board |
| Agents.Engine.constructor | Agents.py:68-72 | the agent holds the board, colour, threshold and warm-up, with an empty graph |
| Agents.Engine.Heuristic | Agents.py:82-148 | the result is the evaluation of the node's board, whether it comes from the cache or is computed; it is then stored in the node, marked computed, and every cached score stays correct |
| Agents.Engine.Minimax | Agents.py:183-196 | the result is the minimax value of the key's board; the graph only grows and its scores stay correct |
| Agents.Engine.MinimaxChildren | Agents.py:187-195 | the loop over the children returns their max (or min) |
| Agents.Engine.MinimaxChild | Agents.py:189-195 | one pass folds in the next child's value |
| Agents.Engine.AlphaBeta | Agents.py:233-252 | the result is the fail-soft alpha-beta value of the key's board for the window; the graph only grows |
| Agents.Engine.AlphaBetaMax | Agents.py:237-244 | the maximising loop returns its fold from -inf |
| Agents.Engine.AlphaBetaMaxChild | Agents.py:239-243 | one pass: the cut-off flag is set iff the value reached beta, and the rest of the fold is consistent with it |
| Agents.Engine.AlphaBetaMin | Agents.py:245-252 | the minimising loop returns its fold from +inf |
| Agents.Engine.AlphaBetaMinChild | Agents.py:247-251 | one pass: the cut-off flag is set iff the value fell to alpha |
| Agents.Engine.Play | Board.py:225-233 | the move's name is the result and the board becomes its successor; an unnamed move is an error and changes nothing; a warm-up ply that plays uses one warm-up move |
| Agents.Engine.Commit | Agents.py:206-207 | the board becomes the move's successor and the warm-up count drops when spent |
| Agents.Engine.MinimaxRootChild | Agents.py:212-214 | one root child's value at depth 15 |
| Agents.Engine.MinimaxRootStep | Agents.py:211-217 | one root pass keeps the first strict maximum |
| Agents.Engine.MinimaxRoot | Agents.py:209-217 | the kept move is the first move with the best minimax value, if any beats -inf, and it is legal |
| Agents.Engine.MinimaxRootLoop | Agents.py:211-217 | the loop examines every legal move |
| Agents.Engine.AlphaBetaRootChild | Agents.py:268-270 | one root child's alpha-beta value at the ply's depth |
| Agents.Engine.AlphaBetaRootStep | Agents.py:267-273 | one root pass keeps the first strict maximum |
| Agents.Engine.AlphaBetaRoot | Agents.py:265-273 | the kept move is the first move with the best alpha-beta value, if any beats -inf, and it is legal |
| Agents.Engine.AlphaBetaRootLoop | Agents.py:267-273 | the loop examines every legal move |
| Agents.Engine.Finish | Agents.py:218 | a ply without a kept move fails (`make_move(None)`); otherwise the move is played |
| Agents.Engine.MinimaxDecide | Agents.py:204-217 | during warm-up the picked move, else the root choice |
| Agents.Engine.MinimaxPly | Agents.py:198-219 | the minimax agent's ply plays the picked move during warm-up (using one up), else its root choice; the result is the move's name, and the board becomes the successor |
| Agents.Engine.AlphaBetaDecide | Agents.py:260-273 | during warm-up the picked move, else the alpha-beta root choice |
| Agents.Engine.AlphaBetaPly | Agents.py:254-275 | the same for the alpha-beta agent, searching at the given depth with `not maximizing` below the root |
| Scheduler.Adjust | Agents.py:308-320 | definition: the depth change after move 4; Scheduler.AdjustMonotone, Scheduler.AdjustLater and Scheduler.ScheduleStep characterise it |
| Scheduler.Schedule | Agents.py:302-321 | depth 2 up to move 3, depth 3 at move 4; later, with a zero clock, a division error |
| Scheduler.ScheduleCapped | Agents.py:320 | the scheduled depth never exceeds 20 |
| Scheduler.ScheduleStep | Agents.py:308-320 | after move 4, the depth changes by -1..+3 |
| Scheduler.AdjustMonotone | Agents.py:308-319 | a larger share of the clock spent never deepens the search |
| Scheduler.AdjustLater | Agents.py:316-319 | later in the game the depth grows at least as fast |
| Scheduler.ScheduleNoFloor | Agents.py:309-312 | spending a quarter of the remaining time or more lowers the depth by one, with no floor; the early return skips the cap |
| Scheduler.ScheduleOvertime | Agents.py:308-320 | a negative remaining clock makes the ratio non-positive: the depth grows by 2, or 3 after move 15, capped at 20 |
| Scheduler.Advance | Agents.py:330-333 | definition: the clock after a played ply; Scheduler.CountingStep proves that the counter keeps step with the warm-up count, and Scheduler.BestAgent.Ply applies it exactly to the plies that play a move |
| Scheduler.CountingStep | Agents.py:330 | the counter and the warm-up count step together |
| Scheduler.WarmupSchedule | Agents.py:303-304 | during warm-up, and on the first move after it, the schedule gives depth 2 |
| Scheduler.BestAgent.constructor | Agents.py:279-289 | counter at minus the warm-up, move time -1, game time in seconds, depth 2 |
| Scheduler.BestAgent.DepthScheduler | Agents.py:302-321 | the depth becomes the schedule's value; a zero clock is an error and leaves the depth |
| Scheduler.BestAgent.Ply | Agents.py:323-337 | scheduling fails with a zero clock and nothing changes; otherwise the alpha-beta ply runs at the scheduled depth, and a ply that plays advances the counter and the clock |
| Scheduler.BestAgent.Search | Agents.py:329-333 | the alpha-beta ply at the given depth, with the clock advanced iff the move is played |
| Scheduler.BestAgent.Charge | Agents.py:330-333 | the clock advances for a ply that plays, and the counter keeps step with the warm-up count |

## Left out

- Sockets, the GUI, `play.py` and the game loop apart from `handle_setup` are not part of this
  model.
- python-chess is a foreign library. `GameBoard.make_move` pushes the move's name onto a
  python-chess board and reads it back through `fen2bit`. The model takes that round trip to agree
  with the position `FBoard.make_move` reaches, and plays the move directly.
- The model structures other parts of the source differently:
  - `GameBoard.__init__` and `player_move` are not modelled. A board is built from arrays; FEN
    reading is modelled on its own.
  - Inheritance is replaced by composition. The agent state is the class `Engine`, and
    `BestAgent` holds one.
- Time and randomness are inputs:
  - `time.time()` becomes the elapsed time passed to `BestAgent.Ply`;
  - `random.choice` becomes the index `pick`;
  - the ply's report string is not built.
- `RandomAgent` is not modelled.
- The background thread of the best agent is left out:
  - `keepSearch` is an empty function in the source;
  - `ready`, `join` and `start` have no observable effect on the game.
- `calcBranchingFactor` is not modelled. It is a diagnostic that no ply uses.
- Exceptions are modelled as error results:
  - `fen2bit`'s "Invalid board" (not 8 rows) is `InvalidBoard`;
  - the numpy `IndexError` of a pawn placed past column 8 in `fen2bit` is `SquareOutOfRange`;
  - `FBoard.make_move` on a pair that is not a member of the list returns `false` and changes
    nothing (see the BitBoards.FBoard.MakeMove line below);
  - `make_move(None)` is `NoBestMove`;
  - a move without a name is `Unnamed`;
  - the division by a zero clock is `ZeroClock`;
  - bad setup tokens are `IndexError` or `ValueError`.
- Floating point becomes exact real arithmetic. The heuristic's `float` scores and the clock's
  seconds are `real`.
- numpy is replaced by values:
  - `np.roll` wrap-around is not modelled. Graphs.Graph.GetNode and BitBoards.FBoard.MakeMove
    require boards on the 8x8 board. This holds for every board the search visits, because a board
    not over never has a pawn on the last rank and a move keeps it inside
    (`Board.MoveStaysOnBoard`).
  - Evaluator.BlackAhead and Evaluator.WhiteAhead test the columns c − 1 .. c + 1 for every
    pawn. The numpy slice `c-1:c+2` (Agents.py:90, 95) is empty for a pawn in padding column 0,
    so the two would differ there. No evaluated board has such a pawn, because every board reached
    through Graphs.Graph.GetNode lies inside the 8x8 board.
  - `np.array2string` is modelled by a `T`/`F` text of the 100 cells. Only its injectivity is
    used.
  - In tier 3, when the engine has no pawn left, numpy divides the negative difference −opp by
    zero and gives `-inf`; the model writes `NegInf`. The case 0/0 cannot arise, because some pawn is always on the board.
- Move lists are held as value sequences of (white, black) pairs, not as numpy arrays of
  arrays.
- The digits `str.isdigit` accepts beyond `0`..`9` are not modelled. FEN and setup text is
  taken to use ASCII digits.
- BitBoards.FBoard.MakeMove: sequence membership replaces numpy's elementwise `in` on the stacked
  move array (Board.py:130). On boards whose padding is empty, that test accepts any pair once the
  list is not empty (BitBoards.ElementwiseInNonEmpty). The model refuses a pair that is not a legal
  move. The two agree on the engine's own calls, because each of them passes a member of the list:
  - `exploit` (Agents.py:30);
  - the agents' root loops (Agents.py:212-213, 268-270);
  - `GameBoard.make_move` on the agent's own move, under the python-chess round trip assumed above.
- BitBoards.FBoard.MakeMove: an opponent's or player's move reaches `FBoard.make_move` through
  `GameBoard.make_move` (Board.py:225-233) as the board python-chess produced. python-chess
  accepts moves the generator never lists: an en-passant capture after a double push, and an
  under-promotion such as `e7e8n`, whose `N` `fen2bit` ignores, so the pawn disappears. The
  source accepts such a board, because the move list is not empty. The model refuses it.
- Graphs.Graph.Visit: the two "append unless present" tests of `exploit` are expressed through the
  function `Link`, not as two separate statements.
- Agents.Engine.Commit: the warm-up count is decremented before `make_move`, once the move's name
  is known. The source decrements after `make_move`, but nothing reads the count between the two,
  so the state after the ply is the same.
- Scheduler.BestAgent.Search: the counter and the clock advance just before the move is committed,
  once its outcome is known. The source advances them after `super().ply`, and the resulting
  state is the same.
- Scheduler.BestAgent.Ply: when the alpha-beta ply fails (no kept move), the source raises before
  touching the counter. The model likewise leaves the clock unchanged.

## Findings

| source | as written | input that shows it | evidently intended | confidence | as-written member | corrected member |
|---|---|---|---|---|---|---|
| Board.py:130 | `new_board in self.moves` on a numpy array compares elementwise and is true when any cell of any entry agrees; the empty padding always agrees | the start position with the pair of empty boards: not a legal move, yet accepted | raise "Move is illegal" for a pair that is not one of the listed moves | high; not executed | BitBoards.ElementwiseInAcceptsIllegal | BitBoards.FBoard.MakeMove |
