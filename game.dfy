/**
 * The game class `ElTetris`: a board of `numberOfRows` row words that `play`
 * changes in place, the move search `pickMove` that tries every orientation
 * and column on copies of the board, and the evaluation that scores a board.
 *
 * Each method is proved equal to the functions of `Board` and to the search
 * function `Chosen` below; the lemmas say what the chosen move is (the first
 * strictly best candidate) and that play keeps a tidy board tidy.
 *
 * The piece is an argument of `Play` and the evaluation an argument of
 * `PickMove`; the game proper passes `Evaluation` for the latter, which
 * `EvaluateBoard` computes.
 */
module Game {
  import opened Bits
  import opened Pieces
  import opened Board
  import opened Features

  datatype Option<T> = None | Some(value: T)

  /** A move: orientation number `orientation` of the piece, moved `column` columns towards higher-numbered columns (to the right on screen). */
  datatype Move = Move(orientation: nat, column: nat)

  // ---------------------------------------------------------------------------
  // evaluateBoard

  const LANDING_HEIGHT_WEIGHT: real := -4.500158825082766
  const ROWS_REMOVED_WEIGHT: real := 3.4181268101392694
  const ROW_TRANSITIONS_WEIGHT: real := -3.2178882868487753
  const COLUMN_TRANSITIONS_WEIGHT: real := -9.348695305445199
  const HOLES_WEIGHT: real := -7.899265427351652
  const WELL_SUMS_WEIGHT: real := -3.3855972247263626

  /** The six quantities the evaluation weighs. */
  datatype FeatureValues = FeatureValues(
    landingHeight: real, rowsRemoved: nat, rowTransitions: nat,
    columnTransitions: nat, holes: nat, wellSums: nat)

  function Weighted(f: FeatureValues): real
  {
    f.landingHeight * LANDING_HEIGHT_WEIGHT
    + f.rowsRemoved as real * ROWS_REMOVED_WEIGHT
    + f.rowTransitions as real * ROW_TRANSITIONS_WEIGHT
    + f.columnTransitions as real * COLUMN_TRANSITIONS_WEIGHT
    + f.holes as real * HOLES_WEIGHT
    + f.wellSums as real * WELL_SUMS_WEIGHT
  }

  /** The features of the board left by a move, on a board `cols` wide. */
  function Measure(cols: nat, lastMove: Landing, board: seq<nat>): FeatureValues
    requires 2 <= cols
  {
    FeatureValues(
      GetLandingHeight(lastMove), lastMove.rowsRemoved, RowTransitions(board, cols),
      ColumnTransitions(board, cols), Holes(board, cols), WellSums(board, cols))
  }

  /** `evaluateBoard(last_move, board)`: the weighted sum of the features, as exact reals. */
  function Evaluation(cols: nat, lastMove: Landing, board: seq<nat>): real
    requires 2 <= cols
  {
    Weighted(Measure(cols, lastMove, board))
  }

  /** One board is no worse than another in a feature when its landing height, transitions, holes and wells are no higher and it removes no fewer rows. */
  predicate NoWorse(a: FeatureValues, b: FeatureValues)
  {
    && a.landingHeight <= b.landingHeight
    && a.rowsRemoved >= b.rowsRemoved
    && a.rowTransitions <= b.rowTransitions
    && a.columnTransitions <= b.columnTransitions
    && a.holes <= b.holes
    && a.wellSums <= b.wellSums
  }

  /**
   * The signs of the weights: a move that is no worse in every feature scores
   * at least as high, and strictly higher when it is better in one of them.
   */
  lemma WeightedPrefers(a: FeatureValues, b: FeatureValues)
    requires NoWorse(a, b)
    ensures Weighted(a) >= Weighted(b)
    ensures a != b ==> Weighted(a) > Weighted(b)
  {
  }

  // ---------------------------------------------------------------------------
  // pickMove

  /** The moves tried for orientation `o`, `width` columns wide: columns 0..cols-width. */
  function ColumnsFor(o: nat, width: nat, cols: nat): (moves: seq<Move>)
    ensures |moves| == if width <= cols then cols - width + 1 else 0
  {
    seq(if width <= cols then cols - width + 1 else 0, j requires 0 <= j => Move(o, j))
  }

  /** The moves tried for orientations 0..n-1, in the order of the search. */
  function Candidates(piece: seq<Orientation>, cols: nat, n: nat): seq<Move>
    requires n <= |piece|
  {
    if n == 0 then [] else Candidates(piece, cols, n - 1) + ColumnsFor(n - 1, piece[n - 1].width, cols)
  }

  /** Every candidate names an orientation of the piece and a column where the piece ends inside the board. */
  lemma {:induction false} CandidatesValid(piece: seq<Orientation>, cols: nat, n: nat)
    requires n <= |piece|
    ensures forall k :: 0 <= k < |Candidates(piece, cols, n)| ==>
      Candidates(piece, cols, n)[k].orientation < n
      && Candidates(piece, cols, n)[k].column + piece[Candidates(piece, cols, n)[k].orientation].width <= cols
  {
    if n > 0 {
      CandidatesValid(piece, cols, n - 1);
    }
  }

  /** Move (i, j) comes at position |Candidates(i)| + j, in the candidates of every n > i. */
  lemma {:induction false} CandidatesAt(piece: seq<Orientation>, cols: nat, i: nat, j: nat, n: nat)
    requires i < n <= |piece| && j < |ColumnsFor(i, piece[i].width, cols)|
    ensures |Candidates(piece, cols, i)| + j < |Candidates(piece, cols, n)|
    ensures Candidates(piece, cols, n)[|Candidates(piece, cols, i)| + j] == Move(i, j)
  {
    if n > i + 1 {
      CandidatesAt(piece, cols, i, j, n - 1);
    }
  }

  /** The moves of orientation i come before those of every later orientation. */
  lemma {:induction false} CandidatesLength(piece: seq<Orientation>, cols: nat, i: nat, n: nat)
    requires i < n <= |piece|
    ensures |Candidates(piece, cols, i)| + |ColumnsFor(i, piece[i].width, cols)| <= |Candidates(piece, cols, n)|
  {
    if n > i + 1 {
      CandidatesLength(piece, cols, i, n - 1);
    }
  }

  /**
   * What trying a move scores: nothing when the game would be over, else the
   * evaluation of the board it leaves. (No candidate names a missing
   * orientation or a column of 32 or more; see `CandidatesValid`.)
   */
  function MoveScore(board: seq<nat>, piece: seq<Orientation>, m: Move, full: nat,
                     evaluate: (Landing, seq<nat>) -> real): Option<real>
  {
    if m.orientation >= |piece| || m.column >= 32 then None
    else
    var result := Drop(board, piece[m.orientation].orientation, m.column, full);
    if result.0.GameOver? then None else Some(evaluate(result.0.landing, result.1))
  }

  /** The scores of the candidates, in order. */
  function Scores(board: seq<nat>, piece: seq<Orientation>, moves: seq<Move>, full: nat,
                  evaluate: (Landing, seq<nat>) -> real): (scores: seq<Option<real>>)
    ensures |scores| == |moves|
  {
    seq(|moves|, k requires 0 <= k < |moves| => MoveScore(board, piece, moves[k], full, evaluate))
  }

  /** The starting best evaluation of the search: a move must score above it to be chosen. */
  const FLOOR: real := -100000.0

  /**
   * The search over the first n scores: the best score so far and its
   * position, replaced only by a strictly greater score; (FLOOR, -1) when no
   * score exceeds FLOOR.
   */
  function FirstBest(scores: seq<Option<real>>, n: nat): (best: (real, int))
    requires n <= |scores|
    ensures -1 <= best.1 < n
  {
    if n == 0 then (FLOOR, -1)
    else
      var previous := FirstBest(scores, n - 1);
      if scores[n - 1].Some? && scores[n - 1].value > previous.0 then (scores[n - 1].value, n - 1)
      else previous
  }

  /** Position `k` holds the first strictly best score among the first n, and that score is above FLOOR. */
  predicate IsFirstBest(scores: seq<Option<real>>, n: nat, k: nat)
    requires n <= |scores|
  {
    && k < n
    && scores[k].Some?
    && scores[k].value > FLOOR
    && (forall l :: 0 <= l < k ==> scores[l].None? || scores[l].value < scores[k].value)
    && (forall l :: k < l < n ==> scores[l].None? || scores[l].value <= scores[k].value)
  }

  /** No score among the first n is above FLOOR. */
  predicate NoneAboveFloor(scores: seq<Option<real>>, n: nat)
    requires n <= |scores|
  {
    forall l :: 0 <= l < n ==> scores[l].None? || scores[l].value <= FLOOR
  }

  /** The search finds the first strictly best score above FLOOR, or reports that there is none. */
  lemma {:induction false} FirstBestSpec(scores: seq<Option<real>>, n: nat)
    requires n <= |scores|
    ensures var best := FirstBest(scores, n);
      && (best.1 < 0 ==> best.0 == FLOOR && NoneAboveFloor(scores, n))
      && (best.1 >= 0 ==> IsFirstBest(scores, n, best.1) && best.0 == scores[best.1].value)
  {
    if n > 0 {
      FirstBestSpec(scores, n - 1);
    }
  }

  /** One more score: the search moves to it exactly when it is strictly above the best so far. */
  lemma FirstBestStep(scores: seq<Option<real>>, n: nat, s: Option<real>)
    requires n < |scores| && scores[n] == s
    ensures FirstBest(scores, n + 1) == if s.Some? && s.value > FirstBest(scores, n).0 then (s.value, n) else FirstBest(scores, n)
  {
  }

  /** At most one position is the first strictly best one, so the search's answer is the only one. */
  lemma FirstBestUnique(scores: seq<Option<real>>, n: nat, k: nat)
    requires n <= |scores| && IsFirstBest(scores, n, k)
    ensures FirstBest(scores, n).1 == k
  {
    FirstBestSpec(scores, n);
  }

  /** The scores of all candidates of the search on a board `cols` wide. */
  function CandidateScores(board: seq<nat>, piece: seq<Orientation>, cols: nat, full: nat,
                           evaluate: (Landing, seq<nat>) -> real): (scores: seq<Option<real>>)
    ensures |scores| == |Candidates(piece, cols, |piece|)|
  {
    Scores(board, piece, Candidates(piece, cols, |piece|), full, evaluate)
  }

  lemma ScoresAt(board: seq<nat>, piece: seq<Orientation>, moves: seq<Move>, full: nat,
                 evaluate: (Landing, seq<nat>) -> real, at: nat, m: Move)
    requires at < |moves| && moves[at] == m
    ensures Scores(board, piece, moves, full, evaluate)[at] == MoveScore(board, piece, m, full, evaluate)
  {
  }

  /** The move at the position the search ends on, or orientation 0 at column 0 when it ends on none. */
  function Pick(moves: seq<Move>, scores: seq<Option<real>>): Move
    requires |scores| == |moves|
  {
    var best := FirstBest(scores, |moves|);
    if best.1 < 0 then Move(0, 0) else moves[best.1]
  }

  /**
   * The move picked is the one at the first strictly best position scoring
   * above FLOOR, or orientation 0 at column 0 when no score is above FLOOR.
   */
  lemma PickIsFirstBest(moves: seq<Move>, scores: seq<Option<real>>)
    requires |scores| == |moves|
    ensures var k := FirstBest(scores, |moves|).1;
      && (k < 0 ==> NoneAboveFloor(scores, |moves|) && Pick(moves, scores) == Move(0, 0))
      && (k >= 0 ==> IsFirstBest(scores, |moves|, k) && Pick(moves, scores) == moves[k])
  {
    FirstBestSpec(scores, |moves|);
  }

  /**
   * The move `pickMove` chooses on `board` for `piece`: the first candidate,
   * in orientation-then-column order, scoring strictly above every earlier one
   * and above FLOOR; orientation 0 at column 0 when no candidate does.
   */
  function Chosen(board: seq<nat>, piece: seq<Orientation>, cols: nat, full: nat,
                  evaluate: (Landing, seq<nat>) -> real): (m: Move)
    requires cols <= 31
    ensures |piece| >= 1 ==> m.orientation < |piece|
    ensures m.column <= cols
  {
    CandidatesValid(piece, cols, |piece|);
    Pick(Candidates(piece, cols, |piece|), CandidateScores(board, piece, cols, full, evaluate))
  }

  /**
   * The chosen move is the candidate at the first strictly best position
   * scoring above FLOOR (the only such position, by `FirstBestUnique`); when no
   * candidate scores above FLOOR (every placement ends the game, say) it is
   * orientation 0 at column 0.
   */
  lemma ChosenIsFirstBest(board: seq<nat>, piece: seq<Orientation>, cols: nat, full: nat,
                          evaluate: (Landing, seq<nat>) -> real)
    requires cols <= 31
    ensures var moves := Candidates(piece, cols, |piece|);
      var scores := CandidateScores(board, piece, cols, full, evaluate);
      var k := FirstBest(scores, |moves|).1;
      var m := Chosen(board, piece, cols, full, evaluate);
      && (k < 0 ==> NoneAboveFloor(scores, |moves|) && m == Move(0, 0))
      && (k >= 0 ==> IsFirstBest(scores, |moves|, k) && m == moves[k])
  {
    PickIsFirstBest(Candidates(piece, cols, |piece|), CandidateScores(board, piece, cols, full, evaluate));
  }

  /**
   * The chosen column keeps the chosen orientation inside the board: for a
   * candidate by the bound of the search, for the fallback when orientation 0
   * is no wider than the board.
   */
  lemma ChosenColumn(board: seq<nat>, piece: seq<Orientation>, cols: nat, full: nat,
                     evaluate: (Landing, seq<nat>) -> real)
    requires cols <= 31 && |piece| >= 1 && piece[0].width <= cols
    ensures var m := Chosen(board, piece, cols, full, evaluate);
      m.column + piece[m.orientation].width <= cols
  {
    CandidatesValid(piece, cols, |piece|);
  }

  /**
   * The search as the two loops of `pickMove` run it, for any scoring of the
   * moves: from `best`, try the columns below `m` of orientation `i` in order,
   * keeping the best score and its move, replaced only by a strictly greater
   * score.
   */
  function SearchColumns(score: Move -> Option<real>, i: nat, m: nat, best: (real, Move)): (real, Move)
  {
    if m == 0 then best
    else
      var previous := SearchColumns(score, i, m - 1, best);
      var s := score(Move(i, m - 1));
      if s.Some? && s.value > previous.0 then (s.value, Move(i, m - 1)) else previous
  }

  /** The search over orientations 0..n-1, from (FLOOR, orientation 0 at column 0). */
  function Search(score: Move -> Option<real>, piece: seq<Orientation>, cols: nat, n: nat): (real, Move)
    requires n <= |piece|
  {
    if n == 0 then (FLOOR, Move(0, 0))
    else SearchColumns(score, n - 1, |ColumnsFor(n - 1, piece[n - 1].width, cols)|, Search(score, piece, cols, n - 1))
  }

  /** A search state (score, move) stands for the search position `best` over the candidate list `moves`. */
  predicate Agrees(state: (real, Move), best: (real, int), moves: seq<Move>)
  {
    && state.0 == best.0
    && best.1 < |moves|
    && (best.1 < 0 ==> state.1 == Move(0, 0))
    && (best.1 >= 0 ==> state.1 == moves[best.1])
  }

  /** Trying the columns of orientation i advances the search over the flattened candidates by as many positions. */
  lemma {:induction false} SearchColumnsAgrees(score: Move -> Option<real>, piece: seq<Orientation>, cols: nat,
                                               scores: seq<Option<real>>, i: nat, m: nat, from: (real, Move))
    requires |scores| == |Candidates(piece, cols, |piece|)|
    requires forall k :: 0 <= k < |scores| ==> scores[k] == score(Candidates(piece, cols, |piece|)[k])
    requires i < |piece| && m <= |ColumnsFor(i, piece[i].width, cols)|
    requires |Candidates(piece, cols, i)| + |ColumnsFor(i, piece[i].width, cols)| <= |scores|
    requires Agrees(from, FirstBest(scores, |Candidates(piece, cols, i)|), Candidates(piece, cols, |piece|))
    ensures Agrees(SearchColumns(score, i, m, from), FirstBest(scores, |Candidates(piece, cols, i)| + m),
                   Candidates(piece, cols, |piece|))
  {
    if m > 0 {
      SearchColumnsAgrees(score, piece, cols, scores, i, m - 1, from);
      CandidatesAt(piece, cols, i, m - 1, |piece|);
      FirstBestStep(scores, |Candidates(piece, cols, i)| + m - 1, score(Move(i, m - 1)));
    }
  }

  /** The loop-shaped search over orientations 0..n-1 stands for the search over their candidates. */
  lemma {:induction false} SearchAgrees(score: Move -> Option<real>, piece: seq<Orientation>, cols: nat,
                                        scores: seq<Option<real>>, n: nat)
    requires |scores| == |Candidates(piece, cols, |piece|)|
    requires forall k :: 0 <= k < |scores| ==> scores[k] == score(Candidates(piece, cols, |piece|)[k])
    requires n <= |piece|
    ensures |Candidates(piece, cols, n)| <= |scores|
    ensures Agrees(Search(score, piece, cols, n), FirstBest(scores, |Candidates(piece, cols, n)|),
                   Candidates(piece, cols, |piece|))
  {
    if n > 0 {
      SearchAgrees(score, piece, cols, scores, n - 1);
      CandidatesLength(piece, cols, n - 1, |piece|);
      SearchColumnsAgrees(score, piece, cols, scores, n - 1, |ColumnsFor(n - 1, piece[n - 1].width, cols)|,
                          Search(score, piece, cols, n - 1));
    }
  }

  /** The score of every move, as a value the search can be run with. */
  lemma MoveScores(board: seq<nat>, piece: seq<Orientation>, full: nat, evaluate: (Landing, seq<nat>) -> real)
    returns (score: Move -> Option<real>)
    ensures forall m {:trigger MoveScore(board, piece, m, full, evaluate)} :: score(m) == MoveScore(board, piece, m, full, evaluate)
  {
    score := m => MoveScore(board, piece, m, full, evaluate);
  }

  /** Run with the scores of the moves, the loops of `pickMove` choose `Chosen`. */
  lemma SearchIsChosen(board: seq<nat>, piece: seq<Orientation>, cols: nat, full: nat,
                       evaluate: (Landing, seq<nat>) -> real, score: Move -> Option<real>)
    requires cols <= 31
    requires forall m {:trigger MoveScore(board, piece, m, full, evaluate)} :: score(m) == MoveScore(board, piece, m, full, evaluate)
    ensures Search(score, piece, cols, |piece|).1 == Chosen(board, piece, cols, full, evaluate)
  {
    var moves := Candidates(piece, cols, |piece|);
    var scores := CandidateScores(board, piece, cols, full, evaluate);
    forall k | 0 <= k < |scores|
      ensures scores[k] == score(moves[k])
    {
      ScoresAt(board, piece, moves, full, evaluate, k, moves[k]);
    }
    SearchAgrees(score, piece, cols, scores, |piece|);
  }

  /**
   * A move chosen by the search keeps a tidy board tidy (every row inside the
   * board and none full), for a piece of well-formed orientations whose first
   * orientation fits the board (the fallback move).
   */
  lemma PlayKeepsTidy(board: seq<nat>, piece: seq<Orientation>, cols: nat, evaluate: (Landing, seq<nat>) -> real)
    requires 2 <= cols <= 31 && Tidy(board, cols)
    requires |piece| >= 1 && piece[0].width <= cols
    requires forall o :: 0 <= o < |piece| ==> WellFormed(piece[o])
    ensures var m := Chosen(board, piece, cols, FullRow(cols), evaluate);
      Tidy(Drop(board, piece[m.orientation].orientation, m.column, FullRow(cols)).1, cols)
  {
    var m := Chosen(board, piece, cols, FullRow(cols), evaluate);
    ChosenColumn(board, piece, cols, FullRow(cols), evaluate);
    WellFormedRows(piece[m.orientation]);
    ShiftedFits(piece[m.orientation].orientation, m.column, piece[m.orientation].width, cols);
    DropKeepsTidy(board, piece[m.orientation].orientation, m.column, cols);
  }

  /** A catalog piece has well-formed orientations, the first at most three columns wide. */
  lemma CatalogPiece(p: nat)
    requires p < |PIECES|
    ensures |PIECES[p]| >= 1 && PIECES[p][0].width <= 3
    ensures forall o :: 0 <= o < |PIECES[p]| ==> WellFormed(PIECES[p][o])
  {
    CatalogShape();
    CatalogWellFormed();
  }

  /** Every piece of the catalog, played on a tidy board at least three columns wide, leaves it tidy. */
  lemma CatalogPlayKeepsTidy(board: seq<nat>, p: nat, cols: nat, evaluate: (Landing, seq<nat>) -> real)
    requires p < |PIECES| && 3 <= cols <= 31 && Tidy(board, cols)
    ensures |PIECES[p]| >= 1 && var m := Chosen(board, PIECES[p], cols, FullRow(cols), evaluate);
      Tidy(Drop(board, PIECES[p][m.orientation].orientation, m.column, FullRow(cols)).1, cols)
  {
    CatalogPiece(p);
    PlayKeepsTidy(board, PIECES[p], cols, evaluate);
  }

  // ---------------------------------------------------------------------------
  // The two loops of playMove

  /** The first loop of `playMove`: or the piece's rows into the board rows from `row` up. */
  method OrPiece(board: seq<nat>, moved: seq<nat>, row: nat) returns (merged: seq<nat>)
    requires row + |moved| <= |board|
    ensures merged == Merge(board, moved, row)
  {
    merged := board;
    var i := 0;
    while i < |moved|
      invariant 0 <= i <= |moved|
      invariant |merged| == |board|
      invariant forall k :: 0 <= k < |board| ==>
        merged[k] == if row <= k < row + i then Or(board[k], moved[k - row]) else board[k]
    {
      merged := merged[row + i := Or(merged[row + i], moved[i])];
      i := i + 1;
    }
  }

  /**
   * The second loop of `playMove`: scan the `need` rows from `row` up, removing
   * each full one (`splice`) and adding an empty row on top (`push(0)`).
   * The source steps `i` back after a removal and forward at the end of every
   * pass; here `i` moves forward only past a row that stays.
   */
  method RemoveFullRows(board: seq<nat>, row: nat, need: nat, full: nat) returns (swept: seq<nat>, rowsRemoved: nat)
    requires row + need <= |board| && full != 0
    ensures swept == Swept(board, row, need, full)
    ensures rowsRemoved == Sweep(board[row..], need, full).1
  {
    swept := board;
    rowsRemoved := 0;
    ghost var total := Scan(board, row, need, full);
    var i := 0;
    while i < need
      invariant 0 <= i <= need && |swept| == |board|
      invariant Scan(swept, row + i, need - i, full).0 == total.0
      invariant rowsRemoved + Scan(swept, row + i, need - i, full).1 == total.1
      decreases need - i, Filled(swept[row + i..])
    {
      if swept[row + i] == full {
        var spliced := swept[..row + i] + swept[row + i + 1..] + [0];
        SpliceFilled(swept, row + i, spliced);
        swept := spliced;
        rowsRemoved := rowsRemoved + 1;
      } else {
        i := i + 1;
      }
    }
    ScanIsSwept(board, row, need, full);
  }

  // ---------------------------------------------------------------------------
  // The game

  class ElTetris {
    const numberOfColumns: nat
    const numberOfRows: nat
    /** `FULLROW`: the word of a row with every column filled. */
    const fullRow: nat
    /** The rows, bottom row first; `splice` and `push` change its contents, never its length. */
    var board: seq<nat>
    var rowsCompleted: nat

    /** The column count keeps every shift count below 32 and gives the well sums two edge columns. */
    predicate Valid()
      reads this
    {
      && 2 <= numberOfColumns <= 31
      && |board| == numberOfRows
      && fullRow == FullRow(numberOfColumns)
    }

    /** `new ElTetris(number_of_columns, number_of_rows)`: an empty board and no completed rows. */
    constructor (numberOfColumns: nat, numberOfRows: nat)
      requires 2 <= numberOfColumns <= 31
      ensures Valid()
      ensures this.numberOfColumns == numberOfColumns && this.numberOfRows == numberOfRows
      ensures board == Zeros(numberOfRows) && rowsCompleted == 0
    {
      this.numberOfRows := numberOfRows;
      this.numberOfColumns := numberOfColumns;
      rowsCompleted := 0;
      var rows := [];
      for i := 0 to numberOfRows
        invariant rows == Zeros(i)
      {
        rows := rows + [0];
      }
      board := rows;
      fullRow := Pow2(numberOfColumns) - 1;
    }

    /** `play(piece)`: pick a move with `evaluate`, play it on the board, and count the rows it completes. */
    method Play(piece: seq<Orientation>, evaluate: (Landing, seq<nat>) -> real) returns (lastMove: MoveOutcome)
      requires Valid() && |piece| >= 1
      modifies this
      ensures Valid()
      ensures var m := Chosen(old(board), piece, numberOfColumns, fullRow, evaluate);
        (lastMove, board) == Drop(old(board), piece[m.orientation].orientation, m.column, fullRow)
      ensures rowsCompleted == old(rowsCompleted) + if lastMove.Landed? then lastMove.landing.rowsRemoved else 0
    {
      var move := PickMove(piece, evaluate);
      lastMove, board := PlayMove(board, piece[move.orientation].orientation, move.column);
      if lastMove.Landed? {
        rowsCompleted := rowsCompleted + lastMove.landing.rowsRemoved;
      }
    }

    /**
     * `pickMove(piece)`: play every orientation at every column on a copy of
     * the board and keep the first move whose evaluation beats the best so far.
     */
    method PickMove(piece: seq<Orientation>, evaluate: (Landing, seq<nat>) -> real) returns (move: Move)
      requires Valid()
      ensures move == Chosen(board, piece, numberOfColumns, fullRow, evaluate)
    {
      var current := board;
      ghost var score := MoveScores(current, piece, fullRow, evaluate);
      var bestEvaluation := FLOOR;
      var bestOrientation := 0;
      var bestColumn := 0;
      var i := 0;
      while i < |piece|
        invariant 0 <= i <= |piece|
        invariant (bestEvaluation, Move(bestOrientation, bestColumn)) == Search(score, piece, numberOfColumns, i)
      {
        bestEvaluation, bestOrientation, bestColumn := TryColumns(current, piece, evaluate, score, i, bestEvaluation, bestOrientation, bestColumn);
        i := i + 1;
      }
      SearchIsChosen(current, piece, numberOfColumns, fullRow, evaluate, score);
      move := Move(bestOrientation, bestColumn);
    }

    /**
     * The inner loop of `pickMove`: try orientation `i` at every column where
     * it fits, from the best evaluation and move found so far.
     */
    method TryColumns(board: seq<nat>, piece: seq<Orientation>, evaluate: (Landing, seq<nat>) -> real,
                      ghost score: Move -> Option<real>, i: nat,
                      bestEvaluation: real, bestOrientation: nat, bestColumn: nat)
      returns (newEvaluation: real, newOrientation: nat, newColumn: nat)
      requires Valid() && |board| == numberOfRows && i < |piece|
      requires forall m {:trigger MoveScore(board, piece, m, fullRow, evaluate)} :: score(m) == MoveScore(board, piece, m, fullRow, evaluate)
      ensures (newEvaluation, Move(newOrientation, newColumn))
        == SearchColumns(score, i, |ColumnsFor(i, piece[i].width, numberOfColumns)|, (bestEvaluation, Move(bestOrientation, bestColumn)))
    {
      newEvaluation, newOrientation, newColumn := bestEvaluation, bestOrientation, bestColumn;
      var j := 0;
      while j < numberOfColumns - piece[i].width + 1
        invariant 0 <= j <= |ColumnsFor(i, piece[i].width, numberOfColumns)|
        invariant (newEvaluation, Move(newOrientation, newColumn))
          == SearchColumns(score, i, j, (bestEvaluation, Move(bestOrientation, bestColumn)))
      {
        // `this.board.slice()`: the copy is a value, so playing on it leaves the board as it is.
        var s := TryMove(board, piece, evaluate, score, i, j);
        if s.Some? && s.value > newEvaluation {
          newEvaluation, newOrientation, newColumn := s.value, i, j;
        }
        j := j + 1;
      }
    }

    /** The body of the inner loop of `pickMove`: play move (i, j) on a copy of the board and evaluate the result unless the game is over. */
    method TryMove(board: seq<nat>, piece: seq<Orientation>, evaluate: (Landing, seq<nat>) -> real,
                   ghost score: Move -> Option<real>, i: nat, j: nat)
      returns (s: Option<real>)
      requires Valid() && |board| == numberOfRows && i < |piece| && j < 32
      requires forall m {:trigger MoveScore(board, piece, m, fullRow, evaluate)} :: score(m) == MoveScore(board, piece, m, fullRow, evaluate)
      ensures s == score(Move(i, j))
    {
      var lastMove, after := PlayMove(board, piece[i].orientation, j);
      if lastMove.Landed? {
        s := Some(evaluate(lastMove.landing, after));
      } else {
        s := None;
      }
      assert s == MoveScore(board, piece, Move(i, j), fullRow, evaluate);
    }

    /** `evaluateBoard(last_move, board)`, computed with the feature loops. */
    method EvaluateBoard(lastMove: Landing, board: seq<nat>) returns (score: real)
      requires Valid()
      ensures score == Evaluation(numberOfColumns, lastMove, board)
    {
      var rowTransitions := GetRowTransitions(board, numberOfColumns);
      var columnTransitions := GetColumnTransitions(board, numberOfColumns);
      var holes := GetNumberOfHoles(board, numberOfColumns);
      var wellSums := GetWellSums(board, numberOfColumns);
      score := GetLandingHeight(lastMove) * LANDING_HEIGHT_WEIGHT
        + lastMove.rowsRemoved as real * ROWS_REMOVED_WEIGHT
        + rowTransitions as real * ROW_TRANSITIONS_WEIGHT
        + columnTransitions as real * COLUMN_TRANSITIONS_WEIGHT
        + holes as real * HOLES_WEIGHT
        + wellSums as real * WELL_SUMS_WEIGHT;
    }

    /**
     * `playMove(board, piece, column)`: drop the piece, moved to its column, on
     * `board` (the game's board or a copy of it) and give back the board it
     * leaves, or report the game over.
     */
    method PlayMove(board: seq<nat>, piece: seq<nat>, column: nat) returns (lastMove: MoveOutcome, after: seq<nat>)
      requires Valid() && |board| == numberOfRows && column < 32
      ensures (lastMove, after) == Drop(board, piece, column, fullRow)
    {
      var moved := MovePiece(piece, column);
      var placementRow := GetPlacementRow(board, moved);
      var rowsRemoved := 0;
      if placementRow + |moved| > numberOfRows {
        return GameOver, board;
      }

      after := OrPiece(board, moved, placementRow);
      after, rowsRemoved := RemoveFullRows(after, placementRow, |moved|, fullRow);
      DropLanded(board, piece, column, fullRow, placementRow);
      lastMove := Landed(Landing(placementRow, moved, rowsRemoved));
    }

    /** `getPlacementRow(board, piece)`: scan down from the top for the highest row the piece collides with. */
    method GetPlacementRow(board: seq<nat>, piece: seq<nat>) returns (placementRow: nat)
      requires |board| == numberOfRows
      ensures placementRow == PlacementRow(board, piece)
    {
      var row := numberOfRows - |piece|;
      while row >= 0
        invariant row + |piece| <= |board|
        invariant Descend(board, piece, row) == PlacementRow(board, piece)
        decreases row + 1
      {
        var i := 0;
        while i < |piece|
          invariant 0 <= i <= |piece|
          invariant forall k :: 0 <= k < i ==> And(board[row + k], piece[k]) == 0
        {
          if And(board[row + i], piece[i]) != 0 {
            assert Collides(board, piece, row);
            return row + 1;
          }
          i := i + 1;
        }
        assert !Collides(board, piece, row);
        row := row - 1;
      }
      return 0;
    }

    /** `movePiece(piece, column)`: a fresh copy of the piece with every row shifted `column` columns to the right. */
    method MovePiece(piece: seq<nat>, column: nat) returns (moved: seq<nat>)
      requires column < 32
      ensures moved == Shifted(piece, column)
    {
      moved := piece;
      for i := 0 to |piece|
        invariant |moved| == |piece|
        invariant forall k :: 0 <= k < |piece| ==> moved[k] == if k < i then Shl(piece[k], column) else piece[k]
      {
        moved := moved[i := Shl(piece[i], column)];
      }
    }
  }
}
