/**
 * What playing a piece does to a board, stated as functions on values. A board
 * is a sequence of row words, index 0 the bottom row; a piece (after
 * `movePiece`) is the sequence of its row words, bottom row first, already
 * shifted to its column. The imperative `playMove`, `getPlacementRow` and
 * `movePiece` of the game class are proved equal to these functions.
 */
module Board {
  import opened Bits
  import opened Pieces

  /** What `playMove` reports about a piece that landed. */
  datatype Landing = Landing(landingHeight: nat, piece: seq<nat>, rowsRemoved: nat)

  /** `{game_over: true}`, or the landing of the piece. */
  datatype MoveOutcome = GameOver | Landed(landing: Landing)

  function Zeros(n: nat): (z: seq<nat>)
    ensures |z| == n && forall k :: 0 <= k < n ==> z[k] == 0
  {
    seq(n, _ => 0)
  }

  /** `movePiece(piece, column)`: every row of the piece shifted `column` columns towards higher-numbered columns (to the right on screen). */
  function Shifted(piece: seq<nat>, column: nat): (moved: seq<nat>)
    requires column < 32
    ensures |moved| == |piece|
  {
    seq(|piece|, i requires 0 <= i < |piece| => Shl(piece[i], column))
  }

  /** Cell (j, i) of the moved piece is cell (j - column, i) of the piece. */
  lemma ShiftedBits(piece: seq<nat>, column: nat, i: nat, j: nat)
    requires column < 32 && i < |piece|
    ensures Bit(Shifted(piece, column)[i], j) == (column <= j < 32 && Bit(piece[i], j - column))
  {
    ShlBit(piece[i], column, j);
  }

  /** A piece `width` wide moved to a column where it ends inside the board fits on the board. */
  lemma ShiftedFits(piece: seq<nat>, column: nat, width: nat, cols: nat)
    requires column < 32 && column + width <= cols <= 32
    requires forall i :: 0 <= i < |piece| ==> Fits(piece[i], width)
    ensures forall i :: 0 <= i < |piece| ==> Fits(Shifted(piece, column)[i], cols)
  {
    forall i | 0 <= i < |piece|
      ensures Fits(Shifted(piece, column)[i], cols)
    {
      ShlFits(piece[i], width, column);
      FitsMono(Shl(piece[i], column), width + column, cols);
    }
  }

  // ---------------------------------------------------------------------------
  // getPlacementRow

  /** The piece with its bottom row at `row` shares a cell with the board. */
  predicate Collides(board: seq<nat>, piece: seq<nat>, row: nat)
    requires row + |piece| <= |board|
  {
    exists i :: 0 <= i < |piece| && And(board[row + i], piece[i]) != 0
  }

  /**
   * The scan of `getPlacementRow` from `row` down to 0: one above the highest
   * colliding row at or below `row`, or 0 when none collides.
   */
  function Descend(board: seq<nat>, piece: seq<nat>, row: int): (r: nat)
    requires row + |piece| <= |board|
    ensures r == 0 || r <= row + 1
    decreases row + 1
  {
    if row < 0 then 0
    else if Collides(board, piece, row) then row + 1
    else Descend(board, piece, row - 1)
  }

  /** `getPlacementRow(board, piece)`: the scan starts with the piece's top row on the top board row. */
  function PlacementRow(board: seq<nat>, piece: seq<nat>): nat
  {
    Descend(board, piece, |board| - |piece|)
  }

  /**
   * The placement row is the one row r such that the piece collides nowhere
   * from r up to the top start row, and collides just below r (or r is 0).
   */
  lemma {:induction false} DescendSpec(board: seq<nat>, piece: seq<nat>, row: int)
    requires row + |piece| <= |board|
    ensures var r := Descend(board, piece, row);
      && (forall x: nat :: r <= x <= row ==> !Collides(board, piece, x))
      && (r > 0 ==> Collides(board, piece, r - 1))
    decreases row + 1
  {
    if row >= 0 && !Collides(board, piece, row) {
      DescendSpec(board, piece, row - 1);
    }
  }

  /**
   * The piece collides nowhere from the placement row up to the highest start
   * row, and collides one row lower unless it rests on the floor.
   */
  lemma PlacementRowSpec(board: seq<nat>, piece: seq<nat>)
    ensures var r := PlacementRow(board, piece);
      && (r == 0 || r + |piece| <= |board| + 1)
      && (forall x: nat :: r <= x && x + |piece| <= |board| ==> !Collides(board, piece, x))
      && (r > 0 ==> Collides(board, piece, r - 1))
  {
    DescendSpec(board, piece, |board| - |piece|);
  }

  lemma PlacementRowUnique(board: seq<nat>, piece: seq<nat>, r: nat)
    requires r == 0 || r + |piece| <= |board| + 1
    requires forall x: nat :: r <= x && x + |piece| <= |board| ==> !Collides(board, piece, x)
    requires r > 0 ==> Collides(board, piece, r - 1)
    ensures r == PlacementRow(board, piece)
  {
    PlacementRowSpec(board, piece);
  }

  /** Where the piece lands, it overlaps no filled cell of the board. */
  lemma PlacementNoOverlap(board: seq<nat>, piece: seq<nat>, i: nat)
    requires PlacementRow(board, piece) + |piece| <= |board| && i < |piece|
    ensures And(board[PlacementRow(board, piece) + i], piece[i]) == 0
  {
    PlacementRowSpec(board, piece);
    assert !Collides(board, piece, PlacementRow(board, piece));
  }

  // ---------------------------------------------------------------------------
  // playMove

  /** The board with the piece's rows or-ed into rows `row`..`row + |piece| - 1`. */
  function Merge(board: seq<nat>, piece: seq<nat>, row: nat): (merged: seq<nat>)
    requires row + |piece| <= |board|
    ensures |merged| == |board|
  {
    seq(|board|, k requires 0 <= k < |board| =>
      if row <= k < row + |piece| then Or(board[k], piece[k - row]) else board[k])
  }

  /**
   * The clearing loop of `playMove` run over the rows `rest` from the landing
   * row up, with `need` rows of the piece's span still to examine: a full row is
   * removed (the rows above move down and the index stays), any other row is
   * kept and counts as examined. Returns the rows kept and the number removed;
   * the rows left after the scan come through unchanged.
   */
  function Sweep(rest: seq<nat>, need: nat, full: nat): (r: (seq<nat>, nat))
    ensures |r.0| + r.1 == |rest|
  {
    if need == 0 || rest == [] then (rest, 0)
    else if rest[0] == full then
      var next := Sweep(rest[1..], need, full);
      (next.0, next.1 + 1)
    else
      var next := Sweep(rest[1..], need - 1, full);
      ([rest[0]] + next.0, next.1)
  }

  /** The board after the clearing loop scans from row `at` with `need` rows to examine. */
  function Swept(board: seq<nat>, at: nat, need: nat, full: nat): (swept: seq<nat>)
    requires at <= |board|
    ensures |swept| == |board|
  {
    var r := Sweep(board[at..], need, full);
    board[..at] + r.0 + Zeros(r.1)
  }

  /**
   * One step of the clearing loop on a full row at `q`: `splice` removes it and
   * `push(0)` adds an empty row on top. The scan still reaches the same board,
   * with one removal fewer left to make.
   */
  lemma SweptRemove(board: seq<nat>, q: nat, need: nat, full: nat, spliced: seq<nat>)
    requires q < |board| && need > 0 && board[q] == full && full != 0
    requires spliced == board[..q] + board[q + 1..] + [0]
    ensures Swept(spliced, q, need, full) == Swept(board, q, need, full)
    ensures Sweep(spliced[q..], need, full).1 + 1 == Sweep(board[q..], need, full).1
  {
    assert spliced[..q] == board[..q];
    assert spliced[q..] == board[q + 1..] + [0];
    assert board[q..][1..] == board[q + 1..];
    var next := Sweep(board[q + 1..], need, full);
    SweepAppendZero(board[q + 1..], need, full);
    assert Sweep(board[q..], need, full) == (next.0, next.1 + 1);
    assert Zeros(next.1 + 1) == [0] + Zeros(next.1);
    assert board[..q] + (next.0 + [0]) + Zeros(next.1) == board[..q] + next.0 + Zeros(next.1 + 1);
  }

  /** One step of the clearing loop on a row at `q` that is not full: the scan moves up one row. */
  lemma SweptKeep(board: seq<nat>, q: nat, need: nat, full: nat)
    requires q < |board| && need > 0 && board[q] != full
    ensures Swept(board, q + 1, need - 1, full) == Swept(board, q, need, full)
    ensures Sweep(board[q + 1..], need - 1, full).1 == Sweep(board[q..], need, full).1
  {
    assert board[q..][1..] == board[q + 1..];
    var next := Sweep(board[q + 1..], need - 1, full);
    assert Sweep(board[q..], need, full) == ([board[q]] + next.0, next.1);
    assert board[..q + 1] == board[..q] + [board[q]];
    assert board[..q] + ([board[q]] + next.0) == board[..q + 1] + next.0;
  }

  /** With no row of the span left to examine, the scan leaves the board as it is. */
  lemma SweptDone(board: seq<nat>, q: nat, full: nat)
    requires q <= |board|
    ensures Swept(board, q, 0, full) == board && Sweep(board[q..], 0, full).1 == 0
  {
    assert board[..q] + board[q..] + Zeros(0) == board;
  }

  /** The number of non-empty rows. */
  function Filled(rows: seq<nat>): (n: nat)
    ensures n <= |rows|
  {
    if rows == [] then 0 else (if rows[0] != 0 then 1 else 0) + Filled(rows[1..])
  }

  lemma {:induction false} FilledAppendZero(rows: seq<nat>)
    ensures Filled(rows + [0]) == Filled(rows)
  {
    if rows != [] {
      assert (rows + [0])[1..] == rows[1..] + [0];
      FilledAppendZero(rows[1..]);
    }
  }

  /** Splicing out a full (hence non-empty) row at `q` and pushing an empty one leaves one non-empty row fewer from `q` up. */
  lemma SpliceFilled(rows: seq<nat>, q: nat, spliced: seq<nat>)
    requires q < |rows| && rows[q] != 0
    requires spliced == rows[..q] + rows[q + 1..] + [0]
    ensures Filled(spliced[q..]) < Filled(rows[q..])
  {
    assert spliced[q..] == rows[q + 1..] + [0];
    assert rows[q..][1..] == rows[q + 1..];
    FilledAppendZero(rows[q + 1..]);
  }

  /**
   * The clearing loop of `playMove` step by step, as the source runs it on the
   * whole board: at row `at`, with `need` rows of the span still to examine, a
   * full row is spliced out, an empty row pushed on top and the same index
   * examined again; any other row is passed. Returns the board and the number
   * of rows removed.
   */
  function Scan(rows: seq<nat>, at: nat, need: nat, full: nat): (r: (seq<nat>, nat))
    requires at + need <= |rows| && full != 0
    decreases need, Filled(rows[at..])
  {
    if need == 0 then (rows, 0)
    else if rows[at] == full then
      var spliced := rows[..at] + rows[at + 1..] + [0];
      SpliceFilled(rows, at, spliced);
      var next := Scan(spliced, at, need, full);
      (next.0, next.1 + 1)
    else Scan(rows, at + 1, need - 1, full)
  }

  /**
   * The step-by-step loop and the row-by-row sweep agree: the loop leaves the
   * rows below `at`, then the rows of the scan kept in order, then one empty
   * row per row removed.
   */
  lemma {:induction false} ScanIsSwept(rows: seq<nat>, at: nat, need: nat, full: nat)
    requires at + need <= |rows| && full != 0
    ensures Scan(rows, at, need, full) == (Swept(rows, at, need, full), Sweep(rows[at..], need, full).1)
    decreases need, Filled(rows[at..])
  {
    if need == 0 {
      SweptDone(rows, at, full);
    } else if rows[at] == full {
      var spliced := rows[..at] + rows[at + 1..] + [0];
      SpliceFilled(rows, at, spliced);
      SweptRemove(rows, at, need, full, spliced);
      ScanIsSwept(spliced, at, need, full);
    } else {
      SweptKeep(rows, at, need, full);
      ScanIsSwept(rows, at + 1, need - 1, full);
    }
  }

  /**
   * `playMove(board, piece, column)` with full-row mask `full`: the outcome and
   * the board afterwards.
   */
  function Drop(board: seq<nat>, piece: seq<nat>, column: nat, full: nat): (result: (MoveOutcome, seq<nat>))
    requires column < 32
    ensures |result.1| == |board|
  {
    var moved := Shifted(piece, column);
    var row := PlacementRow(board, moved);
    if row + |moved| > |board| then (GameOver, board)
    else
      var merged := Merge(board, moved, row);
      (Landed(Landing(row, moved, Sweep(merged[row..], |moved|, full).1)), Swept(merged, row, |moved|, full))
  }

  /** `Drop` when the piece lands at row `r`: the landing, and the board merged at `r` and swept. */
  lemma DropLanded(board: seq<nat>, piece: seq<nat>, column: nat, full: nat, r: nat)
    requires column < 32 && r == PlacementRow(board, Shifted(piece, column)) && r + |piece| <= |board|
    ensures var moved := Shifted(piece, column);
      var merged := Merge(board, moved, r);
      Drop(board, piece, column, full) == (Landed(Landing(r, moved, Sweep(merged[r..], |moved|, full).1)), Swept(merged, r, |moved|, full))
  {
  }

  /** `Drop` of a piece that lands, given what sweeping the merged board gives. */
  lemma DropResult(board: seq<nat>, piece: seq<nat>, column: nat, full: nat, removed: nat, after: seq<nat>)
    requires column < 32 && PlacementRow(board, Shifted(piece, column)) + |piece| <= |board|
    requires var moved := Shifted(piece, column);
      var r := PlacementRow(board, moved);
      var merged := Merge(board, moved, r);
      Sweep(merged[r..], |moved|, full).1 == removed && Swept(merged, r, |moved|, full) == after
    ensures var moved := Shifted(piece, column);
      Drop(board, piece, column, full) == (Landed(Landing(PlacementRow(board, moved), moved, removed)), after)
  {
  }

  /**
   * The game is over exactly when the piece, moved to its column, would stick
   * out above the top row; the board is then left as it was.
   */
  lemma DropOutcome(board: seq<nat>, piece: seq<nat>, column: nat, full: nat)
    requires column < 32
    ensures var (outcome, after) := Drop(board, piece, column, full);
      && (outcome.GameOver? <==> PlacementRow(board, Shifted(piece, column)) + |piece| > |board|)
      && (outcome.GameOver? ==> after == board)
      && (outcome.Landed? ==> outcome.landing.landingHeight == PlacementRow(board, Shifted(piece, column)))
  {
  }

  // ---------------------------------------------------------------------------
  // Properties of clearing

  /** The rows of `s` that are not full, in order. */
  function WithoutFull(s: seq<nat>, full: nat): (r: seq<nat>)
    ensures |r| <= |s|
    ensures forall k :: 0 <= k < |r| ==> r[k] != full && r[k] in s
  {
    if s == [] then []
    else if s[0] == full then WithoutFull(s[1..], full)
    else [s[0]] + WithoutFull(s[1..], full)
  }

  /** The number of full rows in `s`. */
  function FullCount(s: seq<nat>, full: nat): (n: nat)
    ensures n <= |s|
  {
    if s == [] then 0 else (if s[0] == full then 1 else 0) + FullCount(s[1..], full)
  }

  lemma {:induction false} SweepNoFull(rest: seq<nat>, need: nat, full: nat)
    requires forall k :: 0 <= k < |rest| ==> rest[k] != full
    ensures Sweep(rest, need, full) == (rest, 0)
  {
    if need > 0 && rest != [] {
      SweepNoFull(rest[1..], need - 1, full);
      assert [rest[0]] + rest[1..] == rest;
    }
  }

  /**
   * When no row above the window is full, the clearing loop removes exactly the
   * full rows of the window, keeps the others in order, and leaves the rows
   * above untouched. `extra` allows the loop to examine rows past the window.
   */
  lemma {:induction false} SweepWindow(window: seq<nat>, above: seq<nat>, extra: nat, full: nat)
    requires forall k :: 0 <= k < |above| ==> above[k] != full
    ensures Sweep(window + above, |window| + extra, full)
      == (WithoutFull(window, full) + above, FullCount(window, full))
  {
    if window == [] {
      assert window + above == above;
      SweepNoFull(above, extra, full);
    } else {
      assert (window + above)[0] == window[0];
      assert (window + above)[1..] == window[1..] + above;
      if window[0] == full {
        SweepWindow(window[1..], above, extra + 1, full);
      } else {
        SweepWindow(window[1..], above, extra, full);
        var rest := WithoutFull(window[1..], full);
        assert [window[0]] + (rest + above) == [window[0]] + rest + above;
      }
    }
  }

  /** The zero rows pushed on top are never full, so the loop keeps them (when the mask is not 0). */
  lemma {:induction false} SweepAppendZero(rest: seq<nat>, need: nat, full: nat)
    requires full != 0
    ensures Sweep(rest + [0], need, full) == (Sweep(rest, need, full).0 + [0], Sweep(rest, need, full).1)
  {
    if need == 0 {
    } else if rest == [] {
      assert rest + [0] == [0] && [0][1..] == [];
      assert Sweep([], need - 1, full) == ([], 0);
      assert [0] + [] == [0];
    } else {
      assert (rest + [0])[0] == rest[0];
      assert (rest + [0])[1..] == rest[1..] + [0];
      if rest[0] == full {
        SweepAppendZero(rest[1..], need, full);
      } else {
        SweepAppendZero(rest[1..], need - 1, full);
        var kept := Sweep(rest[1..], need - 1, full).0;
        assert [rest[0]] + (kept + [0]) == [rest[0]] + kept + [0];
      }
    }
  }

  /** Merging changes only the rows the piece covers. */
  lemma MergeOutside(board: seq<nat>, piece: seq<nat>, row: nat)
    requires row + |piece| <= |board|
    ensures Merge(board, piece, row)[..row] == board[..row]
    ensures Merge(board, piece, row)[row + |piece|..] == board[row + |piece|..]
  {
  }

  /**
   * A piece each of whose rows has a cell on the board never lands below a
   * full row: the piece's top row would have collided with it, so the drop
   * stops higher.
   */
  lemma NoFullRowAbove(board: seq<nat>, moved: seq<nat>, cols: nat)
    requires |moved| >= 1 && forall i :: 0 <= i < |moved| ==> moved[i] != 0 && Fits(moved[i], cols)
    ensures forall k :: PlacementRow(board, moved) + |moved| <= k < |board| ==> board[k] != FullRow(cols)
  {
    var r := PlacementRow(board, moved);
    PlacementRowSpec(board, moved);
    forall k | r + |moved| <= k < |board|
      ensures board[k] != FullRow(cols)
    {
      var top := |moved| - 1;
      var x: nat := k - top;
      assert !Collides(board, moved, x);
      assert And(board[x + top], moved[top]) == 0;
      FullRowMeets(moved[top], cols);
    }
  }

  /**
   * For a piece each of whose rows has a cell on the board, `playMove` leaves
   * the rows below the piece as they were, removes exactly the full rows among
   * the piece's rows (counting them in `rowsRemoved`, which is therefore at
   * most the piece's height), keeps every other row in order, and adds as many
   * empty rows on top.
   */
  lemma DropClears(board: seq<nat>, piece: seq<nat>, column: nat, cols: nat, moved: seq<nat>, r: nat)
    requires column < 32 && moved == Shifted(piece, column) && r == PlacementRow(board, moved)
    requires |moved| >= 1 && forall i :: 0 <= i < |moved| ==> moved[i] != 0 && Fits(moved[i], cols)
    requires r + |moved| <= |board|
    ensures var full := FullRow(cols);
      var window := Merge(board, moved, r)[r..r + |moved|];
      && Drop(board, piece, column, full).0 == Landed(Landing(r, moved, FullCount(window, full)))
      && Drop(board, piece, column, full).1
        == board[..r] + WithoutFull(window, full) + board[r + |moved|..] + Zeros(FullCount(window, full))
  {
    var full := FullRow(cols);
    var window := Merge(board, moved, r)[r..r + |moved|];
    NoFullRowAbove(board, moved, cols);
    ClearsAt(board, moved, r, full);
    DropResult(board, piece, column, full, FullCount(window, full),
      board[..r] + WithoutFull(window, full) + board[r + |moved|..] + Zeros(FullCount(window, full)));
  }

  /** `DropClears` for a piece merged at any row `r` that leaves no full row above it. */
  lemma ClearsAt(board: seq<nat>, moved: seq<nat>, r: nat, full: nat)
    requires r + |moved| <= |board|
    requires forall k :: r + |moved| <= k < |board| ==> board[k] != full
    ensures var merged := Merge(board, moved, r);
      var window := merged[r..r + |moved|];
      && Sweep(merged[r..], |moved|, full).1 == FullCount(window, full)
      && Swept(merged, r, |moved|, full)
        == board[..r] + WithoutFull(window, full) + board[r + |moved|..] + Zeros(FullCount(window, full))
  {
    var merged := Merge(board, moved, r);
    var window := merged[r..r + |moved|];
    var above := merged[r + |moved|..];
    MergeOutside(board, moved, r);
    assert merged[r..] == window + above;
    SweepWindow(window, above, 0, full);
    var kept := WithoutFull(window, full);
    assert merged[..r] + (kept + above) == board[..r] + kept + board[r + |moved|..];
  }

  // ---------------------------------------------------------------------------
  // A tidy board stays tidy

  /** Every row of the board fits in `cols` columns, and no row is full. */
  predicate Tidy(board: seq<nat>, cols: nat)
  {
    forall k :: 0 <= k < |board| ==> Fits(board[k], cols) && board[k] != FullRow(cols)
  }

  lemma {:induction false} WithoutFullFits(s: seq<nat>, full: nat, cols: nat)
    requires forall k :: 0 <= k < |s| ==> Fits(s[k], cols)
    ensures forall k :: 0 <= k < |WithoutFull(s, full)| ==> Fits(WithoutFull(s, full)[k], cols)
  {
    if s != [] {
      WithoutFullFits(s[1..], full, cols);
    }
  }

  /**
   * Playing a piece whose moved rows fit on the board keeps a tidy board tidy:
   * every full row the piece completes is cleared.
   */
  lemma DropKeepsTidy(board: seq<nat>, piece: seq<nat>, column: nat, cols: nat)
    requires column < 32 && 1 <= cols
    requires Tidy(board, cols)
    requires forall i :: 0 <= i < |piece| ==> Fits(Shifted(piece, column)[i], cols)
    ensures Tidy(Drop(board, piece, column, FullRow(cols)).1, cols)
  {
    var moved := Shifted(piece, column);
    var r := PlacementRow(board, moved);
    if r + |moved| <= |board| {
      var d := Drop(board, piece, column, FullRow(cols));
      assert d.1 == Swept(Merge(board, moved, r), r, |moved|, FullRow(cols));
      TidyAt(board, moved, r, cols);
    }
  }

  /** `DropKeepsTidy` for a piece merged at any row. */
  lemma TidyAt(board: seq<nat>, moved: seq<nat>, r: nat, cols: nat)
    requires r + |moved| <= |board| && 1 <= cols
    requires Tidy(board, cols)
    requires forall i :: 0 <= i < |moved| ==> Fits(moved[i], cols)
    ensures Tidy(Swept(Merge(board, moved, r), r, |moved|, FullRow(cols)), cols)
  {
    var full := FullRow(cols);
    var merged := Merge(board, moved, r);
    var window := merged[r..r + |moved|];
    forall k | 0 <= k < |window|
      ensures Fits(window[k], cols)
    {
      OrFits(board[r + k], moved[k], cols);
    }
    WithoutFullFits(window, full, cols);
    ClearsAt(board, moved, r, full);
    var rest := WithoutFull(window, full);
    assert Tidy(rest, cols);
    assert Pow2(cols) >= 2;
    TidyConcat(board[..r], rest, cols);
    TidyConcat(board[..r] + rest, board[r + |moved|..], cols);
    TidyConcat(board[..r] + rest + board[r + |moved|..], Zeros(FullCount(window, full)), cols);
  }

  lemma TidyConcat(a: seq<nat>, b: seq<nat>, cols: nat)
    requires Tidy(a, cols) && Tidy(b, cols)
    ensures Tidy(a + b, cols)
  {
    forall k | 0 <= k < |a + b|
      ensures Fits((a + b)[k], cols) && (a + b)[k] != FullRow(cols)
    {
      if k >= |a| {
        assert (a + b)[k] == b[k - |a|];
      }
    }
  }

  // ---------------------------------------------------------------------------
  // Filling every column with upright I pieces

  lemma {:induction false} ShlOne(i: nat)
    requires i < 32
    ensures Shl(1, i) == Pow2(i)
  {
    if i == 0 {
      TruncSmall(1, 32);
    } else {
      ShlOne(i - 1);
      Pow2Mono(i, 32);
      TruncSmall(Pow2(i), 32);
    }
  }

  lemma {:induction false} Pow2Mono(a: nat, b: nat)
    requires a < b
    ensures Pow2(a) < Pow2(b)
  {
    if a + 1 < b {
      Pow2Mono(a, b - 1);
    }
  }

  /** Column i added to a row filled in columns 0..i-1: no overlap, and columns 0..i are filled. */
  lemma {:induction false} NextColumn(i: nat)
    ensures And(Pow2(i) - 1, Pow2(i)) == 0
    ensures Or(Pow2(i) - 1, Pow2(i)) == Pow2(i + 1) - 1
  {
    if i > 0 {
      NextColumn(i - 1);
      assert (Pow2(i) - 1) / 2 == Pow2(i - 1) - 1 && Pow2(i) / 2 == Pow2(i - 1);
    }
  }

  function Four(x: nat): seq<nat>
  {
    [x, x, x, x]
  }

  /** A board `height` rows high whose bottom four rows are filled in columns 0..i-1. */
  function Stack(i: nat, height: nat): (b: seq<nat>)
    requires 4 <= height
    ensures |b| == height
  {
    Four(Pow2(i) - 1) + Zeros(height - 4)
  }

  /** The board after `piece` is dropped in columns 0..n-1 of an empty board, in that order. */
  function Fill(piece: seq<nat>, n: nat, cols: nat, height: nat): (b: seq<nat>)
    requires n <= cols <= 32
    ensures |b| == height
  {
    if n == 0 then Zeros(height)
    else Drop(Fill(piece, n - 1, cols, height), piece, n - 1, FullRow(cols)).1
  }

  lemma {:induction false} WithoutFullNone(s: seq<nat>, full: nat)
    requires forall k :: 0 <= k < |s| ==> s[k] != full
    ensures WithoutFull(s, full) == s && FullCount(s, full) == 0
  {
    if s != [] {
      WithoutFullNone(s[1..], full);
      assert [s[0]] + s[1..] == s;
    }
  }

  lemma {:induction false} WithoutFullAll(s: seq<nat>, full: nat)
    requires forall k :: 0 <= k < |s| ==> s[k] == full
    ensures WithoutFull(s, full) == [] && FullCount(s, full) == |s|
  {
    if s != [] {
      WithoutFullAll(s[1..], full);
    }
  }

  /** Where `Drop` lands the piece at row r, the new board is the merged board swept from r. */
  lemma DropAt(board: seq<nat>, piece: seq<nat>, column: nat, full: nat, r: nat)
    requires column < 32
    requires PlacementRow(board, Shifted(piece, column)) == r && r + |piece| <= |board|
    ensures Drop(board, piece, column, full).1 == Swept(Merge(board, Shifted(piece, column), r), r, |piece|, full)
  {
  }

  /** Sweeping a window merged on the floor, with no full row above it. */
  lemma SweptFloor(window: seq<nat>, above: seq<nat>, full: nat)
    requires forall k :: 0 <= k < |above| ==> above[k] != full
    ensures Swept(window + above, 0, |window|, full)
      == WithoutFull(window, full) + above + Zeros(FullCount(window, full))
  {
    SweepWindow(window, above, 0, full);
    assert (window + above)[0..] == window + above;
  }

  lemma ShiftedColumn(i: nat)
    requires i < 32
    ensures Shifted(Four(1), i) == Four(Pow2(i))
  {
    ShlOne(i);
  }

  /** An I piece in column i of `Stack(i, height)` collides with nothing, so it lands on the floor. */
  lemma StackPlacement(i: nat, height: nat)
    requires 4 <= height
    ensures PlacementRow(Stack(i, height), Four(Pow2(i))) == 0
  {
    var board := Stack(i, height);
    var moved := Four(Pow2(i));
    NextColumn(i);
    forall k | 0 <= k < height
      ensures And(board[k], Pow2(i)) == 0
    {
      if k >= 4 {
        assert board[k] == 0;
      }
    }
    forall x: nat | x + 4 <= height
      ensures !Collides(board, moved, x)
    {
      assert forall k :: 0 <= k < 4 ==> And(board[x + k], moved[k]) == 0;
    }
    PlacementRowUnique(board, moved, 0);
  }

  /** Merged on the floor, the piece fills column i of the bottom four rows. */
  lemma StackMerge(i: nat, height: nat)
    requires 4 <= height
    ensures Merge(Stack(i, height), Four(Pow2(i)), 0) == Four(Pow2(i + 1) - 1) + Zeros(height - 4)
  {
    NextColumn(i);
  }

  /** The I piece dropped in column i of `Stack(i, height)` lands on the floor and fills column i. */
  lemma StackDrop(i: nat, cols: nat, height: nat)
    requires i < cols <= 32 && 4 <= height
    ensures Drop(Stack(i, height), Four(1), i, FullRow(cols)).1
      == Swept(Four(Pow2(i + 1) - 1) + Zeros(height - 4), 0, 4, FullRow(cols))
  {
    ShiftedColumn(i);
    StackPlacement(i, height);
    StackMerge(i, height);
    DropAt(Stack(i, height), Four(1), i, FullRow(cols), 0);
  }

  /** Rows filled in columns 0..n-1, n below `cols`, are not full: the sweep keeps them all. */
  lemma SweptKept(n: nat, cols: nat, height: nat)
    requires n < cols && 4 <= height
    ensures Swept(Four(Pow2(n) - 1) + Zeros(height - 4), 0, 4, FullRow(cols)) == Four(Pow2(n) - 1) + Zeros(height - 4)
  {
    Pow2Mono(n, cols);
    Pow2Mono(0, cols);
    var rows := Four(Pow2(n) - 1);
    SweptFloor(rows, Zeros(height - 4), FullRow(cols));
    WithoutFullNone(rows, FullRow(cols));
    assert Zeros(0) == [];
    assert rows + Zeros(height - 4) + [] == rows + Zeros(height - 4);
  }

  /** Rows filled in all `cols` columns are full: the sweep clears all four. */
  lemma SweptCleared(cols: nat, height: nat)
    requires 1 <= cols && 4 <= height
    ensures Swept(Four(Pow2(cols) - 1) + Zeros(height - 4), 0, 4, FullRow(cols)) == Zeros(height)
  {
    Pow2Mono(0, cols);
    var rows := Four(Pow2(cols) - 1);
    SweptFloor(rows, Zeros(height - 4), FullRow(cols));
    WithoutFullAll(rows, FullRow(cols));
    assert [] + Zeros(height - 4) + Zeros(4) == Zeros(height);
  }

  /** Before the last column, the four rows are not full and stay. */
  lemma StackStep(board: seq<nat>, i: nat, cols: nat, height: nat)
    requires i + 1 < cols <= 32 && 4 <= height && board == Stack(i, height)
    ensures Drop(board, Four(1), i, FullRow(cols)).1 == Stack(i + 1, height)
  {
    assert Drop(board, Four(1), i, FullRow(cols)) == Drop(Stack(i, height), Four(1), i, FullRow(cols));
    StackDrop(i, cols, height);
    SweptKept(i + 1, cols, height);
  }

  /** In the last column, the four rows are full and are all cleared. */
  lemma StackLast(board: seq<nat>, i: nat, height: nat)
    requires i < 31 && 4 <= height && board == Stack(i, height)
    ensures Drop(board, Four(1), i, FullRow(i + 1)).1 == Zeros(height)
  {
    StackDrop(i, i + 1, height);
    SweptCleared(i + 1, height);
  }

  lemma {:induction false} FillStack(upright: seq<nat>, n: nat, cols: nat, height: nat)
    requires upright == Four(1) && n < cols <= 32 && 4 <= height
    ensures Fill(upright, n, cols, height) == Stack(n, height)
  {
    if n == 0 {
      StackEmpty(height);
    } else {
      FillStack(upright, n - 1, cols, height);
      StackStep(Fill(upright, n - 1, cols, height), n - 1, cols, height);
    }
  }

  lemma StackEmpty(height: nat)
    requires 4 <= height
    ensures Stack(0, height) == Zeros(height)
  {
    assert Four(0) + Zeros(height - 4) == Zeros(height);
  }

  /**
   * Dropping the upright I piece in each column of an empty board, left to
   * right, completes the bottom four rows, and all four are cleared: the board
   * is empty again.
   */
  lemma FullRowsAreDeleted(cols: nat, height: nat)
    requires 1 <= cols <= 31 && 4 <= height
    ensures Fill(PIECES[0][0].orientation, cols, cols, height) == Zeros(height)
  {
    IRows();
    assert PIECES[0][0].orientation == Four(1);
    var upright := PIECES[0][0].orientation;
    FillStack(upright, cols - 1, cols, height);
    StackLast(Fill(upright, cols - 1, cols, height), cols - 1, height);
  }

  /** On an empty board nothing collides: every piece lands on the floor. */
  lemma EmptyPlacement(moved: seq<nat>, height: nat)
    ensures PlacementRow(Zeros(height), moved) == 0
  {
    var board := Zeros(height);
    forall x: nat | x + |moved| <= height
      ensures !Collides(board, moved, x)
    {
      assert forall k :: 0 <= k < |moved| ==> And(board[x + k], moved[k]) == 0;
    }
    PlacementRowUnique(board, moved, 0);
  }

  /** A single column below the last is not a full row. */
  lemma ColumnNotFull(i: nat, cols: nat)
    requires 2 <= cols && i < cols
    ensures Pow2(i) != FullRow(cols)
  {
    Pow2Mono(0, cols - 1);
    if i < cols - 1 {
      Pow2Mono(i, cols - 1);
    }
  }

  /** A single column merged on the floor of an empty board leaves no full row among the four. */
  lemma EmptyWindow(i: nat, cols: nat, height: nat)
    requires 2 <= cols && i < cols && 4 <= height
    ensures FullCount(Merge(Zeros(height), Four(Pow2(i)), 0)[0..4], FullRow(cols)) == 0
  {
    ColumnNotFull(i, cols);
    var merged := Merge(Zeros(height), Four(Pow2(i)), 0);
    var window := merged[0..4];
    forall k | 0 <= k < 4
      ensures window[k] != FullRow(cols)
    {
      assert window[k] == merged[k] == Or(0, Pow2(i));
    }
    WithoutFullNone(window, FullRow(cols));
  }

  /** Each of the four rows of column `i` has a cell on a board wider than `i`. */
  lemma FourTouches(i: nat, cols: nat)
    requires i < cols
    ensures forall k :: 0 <= k < |Four(Pow2(i))| ==> Four(Pow2(i))[k] != 0 && Fits(Four(Pow2(i))[k], cols)
  {
    Pow2Mono(i, cols);
  }

  /** `UprightOnEmptyBoard` for the four rows of column 0. */
  lemma FourOnEmptyBoard(i: nat, cols: nat, height: nat)
    requires 2 <= cols <= 32 && i < cols && 4 <= height
    ensures Drop(Zeros(height), Four(1), i, FullRow(cols)).0 == Landed(Landing(0, Four(Pow2(i)), 0))
  {
    var moved := Four(Pow2(i));
    ShiftedColumn(i);
    EmptyPlacement(moved, height);
    ColumnNotFull(i, cols);
    Pow2Mono(0, cols);
    FourTouches(i, cols);
    DropClears(Zeros(height), Four(1), i, cols, moved, 0);
    EmptyWindow(i, cols, height);
  }

  /**
   * An upright I piece dropped in any column of an empty board at least two
   * columns wide lands on the floor and removes no row.
   */
  lemma UprightOnEmptyBoard(i: nat, cols: nat, height: nat)
    requires 2 <= cols <= 32 && i < cols && 4 <= height
    ensures Drop(Zeros(height), PIECES[0][0].orientation, i, FullRow(cols)).0
      == Landed(Landing(0, Four(Pow2(i)), 0))
  {
    IRows();
    assert PIECES[0][0].orientation == Four(1);
    FourOnEmptyBoard(i, cols, height);
  }
}
