# El-Tetris engine in Dafny

El-Tetris is a Tetris player. It takes the next piece and tries every
orientation of it at every column where the piece fits. For each try it drops
the piece on a copy of the board and scores the resulting board with a linear
evaluation over six features. It plays the first move that scores strictly
highest.

This project models the engine of that player:

- **Board representation.** A board is a sequence of row words, bottom row
  first; bit `j` of a row is column `j`.
- **Piece catalog** (`Pieces`). The seven tetrominoes and their orientations,
  with the `parse` helper that reads a row drawn as a binary string.
- **Board operations** (`Board`). The operations of `playMove`,
  `getPlacementRow` and `movePiece`, stated as functions on values:
  - shifting a piece to its column;
  - finding the landing row;
  - merging the piece into the board;
  - removing full rows;
  - reporting the game over.
- **Features** (`Features`). The five board features: landing height, row
  transitions, column transitions, holes and well sums. Each loop of the
  source is a method proved equal to a recursive function that says what it
  counts.
- **The game class** (`Game`). `ElTetris` holds the board and the count of
  completed rows. Its methods `Play`, `PickMove`, `EvaluateBoard`, `PlayMove`,
  `GetPlacementRow` and `MovePiece` are proved against the functions of
  `Board` and against `Chosen`, the specification of the move search.
- **JavaScript bit operators** (`Bits`). `>>`, `&`, `|`, `~` and `<<` on
  32-bit words, written out on natural numbers. `<<` truncates to 32 bits,
  and `~` is the 32-bit complement.

The main results:

- `Game.ElTetris.PickMove` returns exactly the move `Chosen` describes.
  `Game.ChosenIsFirstBest` shows that this move is the first candidate, in
  orientation-then-column order, that scores strictly above every earlier one
  and above -100000. When no candidate scores above -100000, the move is
  orientation 0 at column 0.
- `Board.DropOutcome` and `Board.DropClears` state when the game ends and
  which rows a move removes.
- `Game.PlayKeepsTidy` shows that playing a chosen move keeps every row
  inside the board and leaves no full row.
- `Board.FullRowsAreDeleted` shows that an upright I piece in every column
  of an empty board clears the board again.
- `Features.WellSumsExample` and the other example lemmas state the expected
  values of the unit tests.

## Model

| member | source | states |
|---|---|---|
| Game.ElTetris.constructor | src/eltetris.js:31-43 | The new game has the given dimensions, a board of `number_of_rows` empty rows, no completed rows, and the full-row mask `2^cols - 1`. |
| Game.ElTetris.Play | src/eltetris.js:45-56 | The move played is the one the search chooses on the board before the move. The outcome and the new board are those of dropping that orientation at that column. `rows_completed` grows by the rows removed, and does not grow on game over. |
| Game.ElTetris.PickMove | src/eltetris.js:73-105 | The move returned is `Chosen` on the current board: the first strictly best candidate over all orientations and all columns `0..cols-width`, with (0, 0) when none scores above -100000. |
| Game.ElTetris.TryColumns | src/eltetris.js:84-98 | The inner loop over the columns of one orientation keeps exactly the best-so-far that the search specification reaches after those columns. |
| Game.ElTetris.TryMove | src/eltetris.js:86-97 | Trying a move on a copy of the board gives no score on game over, and otherwise the evaluation of the board it leaves. |
| Game.ElTetris.EvaluateBoard | src/eltetris.js:121-128 | The score is the weighted sum of the six features with the source's six weights. |
| Game.ElTetris.PlayMove | src/eltetris.js:141-175 | The outcome and the board afterwards equal `Drop`: game over with the board unchanged when the piece would stick out at the top. Otherwise the board is merged at the placement row and swept of full rows, and the outcome reports the landing row, the moved piece and the number of rows removed. |
| Game.OrPiece | src/eltetris.js:151-154 | The first loop of `playMove` ors each piece row into the board row it covers and leaves every other row as it was. |
| Game.RemoveFullRows | src/eltetris.js:156-167 | The splice-and-push clearing loop leaves the board `Swept` describes and counts the rows it removed. |
| Game.ElTetris.GetPlacementRow | src/eltetris.js:180-194 | The downward scan returns one above the highest colliding start row, or 0 when no start row collides. |
| Game.ElTetris.MovePiece | src/eltetris.js:196-204 | The moved piece has every row shifted `column` columns towards higher-numbered columns (to the right as the renderer draws them), truncated to 32 bits like `<<`. |
| Game.FirstBestSpec | src/eltetris.js:89-96 | The search over scores ends on the first position whose score is strictly above every earlier score, at least every later one, and above -100000. It ends on none (-100000, -1) exactly when no score is above -100000. |
| Game.FirstBestUnique | src/eltetris.js:92-96 | Any position that is the first strictly best one is the position the search ends on, so ties keep the earlier candidate. |
| Game.PickIsFirstBest | src/eltetris.js:73-105 | The move picked is the candidate at the first strictly best position, or orientation 0 at column 0 when no score is above -100000. |
| Game.ChosenIsFirstBest | src/eltetris.js:73-105 | Applied to the board's candidate scores, the chosen move is the first strictly best candidate above -100000, or (0, 0) with no candidate above -100000. |
| Game.ChosenColumn | src/eltetris.js:84 | The chosen orientation ends inside the board at the chosen column. |
| Game.CandidatesValid | src/eltetris.js:80-84 | Every candidate names an orientation of the piece and a column `j` with `j + width <= cols`. |
| Game.CandidatesAt | src/eltetris.js:80-84 | Orientation `i` at column `j` is tried at position `|Candidates(i)| + j`, in orientation-then-column order. |
| Game.SearchColumnsAgrees | src/eltetris.js:84-98 | The column loop of one orientation agrees with the search over the flattened candidate scores. |
| Game.SearchAgrees | src/eltetris.js:80-99 | The two nested loops agree with the search over the flattened candidate scores. |
| Game.SearchIsChosen | src/eltetris.js:73-105 | The move the nested loops end on is `Chosen`. |
| Game.WeightedPrefers | src/eltetris.js:121-128 | By the signs of the weights, a board no worse in every feature scores at least as high, and strictly higher if it differs in one. |
| Game.PlayKeepsTidy | src/eltetris.js:45-56 | Playing the chosen move of a piece with well-formed orientations on a board whose rows fit and none is full leaves such a board. |
| Game.CatalogPiece | src/pieces.js:33-255 | Every catalog piece has at least one orientation, the first at most three wide, all well formed. |
| Game.CatalogPlayKeepsTidy | src/eltetris.js:45-56 | Every catalog piece has an orientation, and played on such a board at least three columns wide it leaves such a board. |
| Board.ShiftedBits | src/eltetris.js:196-204 | Cell `j` of a moved row is cell `j - column` of the piece row, and nothing lands at column 32 or beyond. |
| Board.ShiftedFits | src/eltetris.js:196-204 | A piece `width` wide moved to a column where it ends inside the board fits on the board. |
| Board.DescendSpec | src/eltetris.js:183-193 | The scan from a start row returns `r`. The piece collides nowhere from `r` up to that row, and it collides at `r - 1` unless `r` is 0. |
| Board.PlacementRowSpec | src/eltetris.js:180-194 | The placement row `r` is free of collisions up to the top start row and collides one row lower unless it is 0. |
| Board.PlacementRowUnique | src/eltetris.js:180-194 | Only one row has those properties, so they define the placement row. |
| Board.PlacementNoOverlap | src/eltetris.js:180-194 | Where the piece lands, it overlaps no filled cell. |
| Board.DropOutcome | src/eltetris.js:141-149 | The game is over exactly when the placement row plus the piece height exceeds the row count; the board is then unchanged. Otherwise the landing height is the placement row. |
| Board.NoFullRowAbove | src/eltetris.js:180-194 | A piece each of whose rows has a cell on the board never lands below a full row: its top row would collide with that row, so the scan stops higher. |
| Board.DropClears | src/eltetris.js:150-175 | For a piece each of whose rows has a cell on the board: the rows below are kept, exactly the full rows the piece covers are removed and counted, the others stay in order, and as many empty rows are added on top. |
| Board.ClearsAt | src/eltetris.js:150-167 | The same for a piece merged at any row that has no full row above it. |
| Board.MergeOutside | src/eltetris.js:151-154 | Merging changes only the rows the piece covers. |
| Board.SweepWindow | src/eltetris.js:156-167 | The clearing loop removes exactly the full rows of the piece's span, keeps the others in order, and leaves non-full rows above untouched. |
| Board.SweptRemove | src/eltetris.js:158-165 | Splicing out a full row and pushing an empty one at the same index leads to the same final board with one removal fewer. |
| Board.SweptKeep | src/eltetris.js:157-158 | Passing a row that is not full moves the scan up one row with one row fewer to examine. |
| Board.ScanIsSwept | src/eltetris.js:156-167 | The step-by-step loop leaves the rows below, then the kept rows in order, then one empty row per removed row, and counts the removals. |
| Board.SpliceFilled | src/eltetris.js:158-161 | Splice-and-push of a full row leaves fewer non-empty rows from that index up, so the loop ends. |
| Board.DropKeepsTidy | src/eltetris.js:141-175 | A move whose rows fit keeps a board tidy: every row fits and no row is full. |
| Board.EmptyPlacement | src/eltetris.js:180-194 | On an empty board every piece lands on row 0. |
| Board.UprightOnEmptyBoard | src/eltetris.js:141-175 | An upright I piece dropped in any column of an empty board lands at height 0, as the moved piece, and removes no row. |
| Board.StackStep | src/eltetris.js:141-175 | An upright I piece placed beside the filled columns `0..i-1` of the bottom four rows lands on the floor and fills column `i`. |
| Board.StackLast | src/eltetris.js:141-175 | In the last column of a board of at most 31 columns it completes the four rows, and all four are removed. |
| Board.FillStack | src-test/eltetris_test.js:157-169 | Upright I pieces dropped in columns `0..n-1` of an empty board, `n` below the width, fill those columns of the bottom four rows. |
| Board.FullRowsAreDeleted | src-test/eltetris_test.js:157-169 | Upright I pieces dropped in every column of an empty board of 1 to 31 columns leave the board empty. |
| Features.GetLandingHeight | src/features.js:26-28 | The landing height is the middle of the piece, as far above its bottom row as below its top row. |
| Features.ReadCell | src/features.js:43 | `(row >> j) & 1` is 1 exactly when cell `j` is filled. |
| Features.GetRowTransitions | src/features.js:35-58 | The loops count `RowTransitions`: with a filled wall on each side, the changes between neighbouring cells of each row. |
| Features.RowTransitions | src/features.js:35-58 | The count is at most `cols + 1` per row. |
| Features.EmptyRowTransitions | src/features.js:35-58 | An empty row has 2 transitions, one at each wall. |
| Features.FullRowTransitions | src/features.js:35-58 | A full row has no transition. |
| Features.GetColumnTransitions | src/features.js:65-85 | The loops count `ColumnTransitions`: for each column, the changes from a filled floor up the column, with no wall on top. |
| Features.ColumnTransitions | src/features.js:65-85 | The count is at most one per cell. |
| Features.EmptyColumnTransitions | src/features.js:65-85 | On an empty board of at least one row, every column has exactly one transition, from the floor to its bottom cell. |
| Features.GetNumberOfHoles | src/features.js:87-103 | The running `~board[i] & (previous_row \| row_holes)` mask counts `Holes`: empty cells of rows below the top with a filled cell somewhere above in the same column. |
| Features.FilledAboveExists | src/features.js:93 | The covered mask of a column is set exactly when some higher row fills that column. |
| Features.HoleStep | src/features.js:93 | A cell is a hole exactly when it is empty and the cell above is filled or is a hole. |
| Features.HolesBound | src/features.js:87-103 | The top row holds no hole: there are at most `cols` holes per lower row. |
| Features.EmptyBelow | src/features.js:133-139 | The inner count is the number of consecutive empty cells directly below the well cell. |
| Features.ColumnWells | src/features.js:125-141 | One column's scan adds, for each well cell, 1 plus the empty cells below it. |
| Features.GetWellSums | src/features.js:119-180 | The well sums of the inner columns, then column 0 with only its right neighbour, then column `cols-1` with only its left neighbour. |
| Features.WellStack | src/features.js:116-117 | A well of `n` stacked well cells on a filled cell or the floor sums to `1 + 2 + ... + n`. |
| Features.WellDepth | src/features.js:133-139 | Above `m` stacked well cells resting on a filled cell or the floor, the empty run below is `m` deep. |
| Features.FeaturesReadOnlyCells | src/features.js:35-180 | The four board features depend only on the cells in columns `0..cols-1`. |
| Features.RowTransitionsExamples | src-test/features_test.js:21-27 | The empty row `[0]` on 4 columns has 2 row transitions; the zig-zag row `1010` has 4. |
| Features.ColumnTransitionsExamples | src-test/features_test.js:29-35 | Column transitions: `[0,0,0,0]` on 1 column is 1, and `[1,0,1,0]` on 2 columns is 4. |
| Features.HolesExample | src-test/features_test.js:37-43 | The board `10101 / 01010 / 10101` on 5 columns has 5 holes. |
| Features.WellSumsExample | src-test/eltetris_test.js:120-133 | The 8x8 test board has well sums 20. |
| Pieces.Parse | src/pieces.js:257-259 | `parse` reads the string backwards in binary: character `k` of the string is column `k` of the row, set exactly when it is `1`. |
| Pieces.ParseFits | src/pieces.js:257-259 | The parsed row has no column beyond the string's length. |
| Pieces.ParseCons | src/pieces.js:257-259 | The first character is the low bit; the rest is the word one column up. |
| Pieces.ParsedPairs | src/pieces.js:257-259 | `parse` of `"10"`, `"01"` and `"11"` is 1, 2 and 3. |
| Pieces.ParsedTriplesLow | src/pieces.js:257-259 | `parse` of `"100"`, `"010"` and `"110"` is 1, 2 and 3. |
| Pieces.ParsedTriplesHigh | src/pieces.js:257-259 | `parse` of `"001"`, `"011"` and `"111"` is 4, 6 and 7. |
| Pieces.ParsedQuadruple | src/pieces.js:40 | `parse("1111")` is 15. |
| Pieces.IRows | src/pieces.js:33-44 | The I piece: upright `[1,1,1,1]` one wide, flat `[15]` four wide. |
| Pieces.TRows | src/pieces.js:54-89 | The four T orientations, row words bottom first, with their widths and heights. |
| Pieces.ORows | src/pieces.js:98-107 | The O piece: `[3,3]`, two by two. |
| Pieces.JRows | src/pieces.js:117-152 | The four J orientations. |
| Pieces.LRows | src/pieces.js:162-198 | The four L orientations. |
| Pieces.SRows | src/pieces.js:209-227 | The two S orientations. |
| Pieces.ZRows | src/pieces.js:237-255 | The two Z orientations. |
| Pieces.CatalogShape | src/pieces.js:33-255 | Seven pieces, with 2, 4, 1, 4, 4, 2 and 2 orientations. |
| Pieces.CatalogWellFormed | src/pieces.js:33-255 | Every orientation is a tetromino: four cells, every row non-empty, inside its width, with both edge columns used, and height equal to the row count. Turning an orientation a quarter turn gives the next one, cyclically. |
| Pieces.CatalogDistinct | src/pieces.js:33-255 | No piece lists the same orientation twice. |
| Pieces.WellFormedRows | src/pieces.js:33-255 | Every row of a well-formed orientation is non-empty and fits in its width. |
| Pieces.BottomRowFirst | src/pieces.js:117-126 | Rows are stored bottom row first: the drawing's lines are reversed. |

## Left out

- Random piece choice (`getRandomPieceIndex`, `getRandomPiece`): the piece is an argument of `Play`.
- The renderer, the HTML page and the game loop's timing are not part of this model.
- Game.ElTetris.Play: the evaluation is an argument. The game proper passes `Evaluation`, which `EvaluateBoard` computes. The feature loops' results are proved equal to the functions `Evaluation` uses.
- Game.ElTetris.PickMove: returns the orientation number and the column. The source returns the orientation's rows, which are `piece[orientation].orientation`; `Play` passes those rows on.
- Game.ElTetris.PlayMove: returns the new board instead of changing its argument in place. `Play` assigns it to the board field. `PickMove` passes a copy, as `slice()` does.
- Game.ElTetris.EvaluateBoard: the score is an exact real. JavaScript's floating-point rounding of the weighted sum is not modelled. A tie or near-tie that rounding decides may choose differently.
- The multi-piece regression games of `src-test/eltetris_test.js` (the single-feature games of `assertBoard` at lines 25-82, the seed-33 game and the small-board game) are not restated as concrete games; the single-move properties those games exercise are stated in general instead (`ChosenIsFirstBest`, `DropClears`, the feature lemmas).
- Game.ElTetris.constructor: requires 2 to 31 columns. Up to 31 columns every row word is a positive 32-bit integer and every shift count is below 32. With 32 columns, `|` yields the signed word -1 for a full row, which never equals `Math.pow(2, 32) - 1`, so the source would never clear a row. The well sums need two edge columns.
- Game.ElTetris.Play: with 2 columns, the fallback move (orientation 0 at column 0) of a 3-wide piece is played even though it sticks out of the board. The model plays it as the source does, and `PlayKeepsTidy` excludes it by requiring the first orientation to fit.
- Board.DropClears: requires every row of the shifted piece to have a cell on the board, as every catalog piece has at a column where it fits. A piece shifted partly off the board can land below a full row; the source's clearing loop, with its re-examined index, then also removes full rows that shift down into the span. `Sweep` models that loop exactly, but the closed form is not stated for that case.
- Bits.Or: not truncated to 32 bits. The rows it combines already fit in 32 bits.
- Rows are read as unsigned 32-bit words. The source compares rows only with 0 and with the full-row mask, so for boards of up to 31 columns, where every row is a non-negative int32, reading them as signed does not matter. At 32 columns a full row reads as -1 and is never cleared; the game, `StackLast` and `FullRowsAreDeleted` are stated for at most 31 columns.
- Features.GetWellSums: requires at least 2 columns. With 1 column, the source's edge-column scans read a column outside the board.
- The I piece's drawing in the comment of `src/pieces.js` shows five cells in the flat orientation. The code, and this model, use four.
