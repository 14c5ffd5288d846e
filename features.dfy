/**
 * The five board features the evaluation function weighs. Each loop of the
 * source becomes a method over the (read-only) board, proved equal to a
 * recursive function that says what it counts; the lemmas state bounds, the
 * expected values of the unit tests, and that only columns 0..cols-1 are read.
 *
 * A feature reads a cell with `(row >> j) & 1`. JavaScript takes shift counts
 * modulo 32, so the methods require `cols <= 32`, where every shift count is
 * the column itself.
 */
module Features {
  import opened Bits
  import opened Board

  // ---------------------------------------------------------------------------
  // Landing height

  /**
   * `GetLandingHeight(last_move)`: the height of the middle of the piece, as
   * far above its bottom row as below its top row.
   */
  function GetLandingHeight(lastMove: Landing): (h: real)
    ensures var bottom := lastMove.landingHeight;
      var top := lastMove.landingHeight + |lastMove.piece| - 1;
      |lastMove.piece| >= 1 ==> bottom as real <= h <= top as real && h - bottom as real == top as real - h
  {
    lastMove.landingHeight as real + (|lastMove.piece| as real - 1.0) / 2.0
  }

  /** Cell (row, j) as the bit the source reads, 1 when filled. */
  function CellBit(row: nat, j: nat): nat
  {
    if Bit(row, j) then 1 else 0
  }

  /** `(row >> j) & 1` reads cell j of the row. */
  lemma ReadCell(row: nat, j: nat)
    ensures And(Shr(row, j), 1) == CellBit(row, j)
  {
    ShrAndOne(row, j);
  }

  // ---------------------------------------------------------------------------
  // Row transitions

  /** Cell j of a row with a filled wall on either side: columns -1 and `cols` count as filled. */
  predicate WalledCell(row: nat, cols: nat, j: int)
  {
    j < 0 || j >= cols || Bit(row, j)
  }

  /** How many of the boundaries 0..n-1 (boundary b lies between cell b-1 and cell b) separate an empty cell from a filled one. */
  function RowChanges(row: nat, cols: nat, n: nat): (k: nat)
    ensures k <= n
  {
    if n == 0 then 0
    else RowChanges(row, cols, n - 1) + (if WalledCell(row, cols, n - 2) != WalledCell(row, cols, n - 1) then 1 else 0)
  }

  /** The row transitions of one row: the changes along wall, cell 0, ..., cell cols-1, wall. */
  function RowTransitionsOf(row: nat, cols: nat): (k: nat)
    ensures k <= cols + 1
  {
    RowChanges(row, cols, cols + 1)
  }

  /** The row transitions of the whole board. */
  function RowTransitions(board: seq<nat>, cols: nat): (t: nat)
    ensures t <= |board| * (cols + 1)
  {
    if board == [] then 0
    else RowTransitions(board[..|board| - 1], cols) + RowTransitionsOf(board[|board| - 1], cols)
  }

  /** `GetRowTransitions(board, num_columns)`. */
  method GetRowTransitions(board: seq<nat>, cols: nat) returns (transitions: nat)
    requires cols <= 32
    ensures transitions == RowTransitions(board, cols)
  {
    transitions := 0;
    var lastBit := 1;
    // `bit` is declared once for the whole function; before it is first set it
    // is unset, which, like 1, never equals 0.
    var bit := 1;
    var i := 0;
    while i < |board|
      invariant 0 <= i <= |board|
      invariant transitions == RowTransitions(board[..i], cols)
      invariant lastBit == 1
      invariant cols == 0 ==> bit == 1
    {
      var row := board[i];
      var j := 0;
      while j < cols
        invariant 0 <= j <= cols
        invariant transitions == RowTransitions(board[..i], cols) + RowChanges(row, cols, j)
        invariant lastBit == if WalledCell(row, cols, j - 1) then 1 else 0
        invariant j > 0 ==> bit == lastBit
        invariant cols == 0 ==> bit == 1
      {
        bit := And(Shr(row, j), 1);
        ReadCell(row, j);
        if bit != lastBit {
          transitions := transitions + 1;
        }
        lastBit := bit;
        j := j + 1;
      }
      if bit == 0 {
        transitions := transitions + 1;
      }
      lastBit := 1;
      assert board[..i + 1][..i] == board[..i];
      i := i + 1;
    }
    assert board[..|board|] == board;
  }

  /** An empty row has two transitions, one at each wall. */
  lemma {:induction false} EmptyRowTransitions(cols: nat)
    requires 1 <= cols
    ensures RowTransitionsOf(0, cols) == 2
  {
    BitZero(cols - 1);
    EmptyRowChanges(cols, cols);
  }

  lemma {:induction false} EmptyRowChanges(cols: nat, n: nat)
    requires 1 <= n <= cols
    ensures RowChanges(0, cols, n) == 1
  {
    BitZero(n - 1);
    if n > 1 {
      BitZero(n - 2);
      EmptyRowChanges(cols, n - 1);
    }
  }

  /** A full row has no transition. */
  lemma {:induction false} FullRowTransitions(cols: nat, n: nat)
    requires n <= cols + 1
    ensures RowChanges(FullRow(cols), cols, n) == 0
  {
    if n > 0 {
      FullRowBit(cols, n - 1);
      if n > 1 {
        FullRowBit(cols, n - 2);
      }
      FullRowTransitions(cols, n - 1);
    }
  }

  // ---------------------------------------------------------------------------
  // Column transitions

  /** How many of rows 0..n-1 of column c differ from the cell below, the floor counting as filled. */
  function ColumnChanges(board: seq<nat>, c: nat, n: nat): (k: nat)
    requires n <= |board|
    ensures k <= n
  {
    if n == 0 then 0
    else
      var below := if n == 1 then true else Bit(board[n - 2], c);
      ColumnChanges(board, c, n - 1) + (if Bit(board[n - 1], c) != below then 1 else 0)
  }

  /** The column transitions of columns 0..n-1. */
  function ColumnTransitions(board: seq<nat>, n: nat): (t: nat)
    ensures t <= n * |board|
  {
    if n == 0 then 0 else ColumnTransitions(board, n - 1) + ColumnChanges(board, n - 1, |board|)
  }

  /** An empty column has one transition: from the floor to its bottom cell. */
  lemma {:induction false} EmptyColumnChanges(height: nat, c: nat, n: nat)
    requires 1 <= n <= height
    ensures ColumnChanges(Zeros(height), c, n) == 1
  {
    BitZero(c);
    if n > 1 {
      EmptyColumnChanges(height, c, n - 1);
    }
  }

  /** On an empty board of at least one row, every column has exactly one transition. */
  lemma {:induction false} EmptyColumnTransitions(height: nat, cols: nat)
    requires 1 <= height
    ensures ColumnTransitions(Zeros(height), cols) == cols
  {
    if cols > 0 {
      EmptyColumnTransitions(height, cols - 1);
      EmptyColumnChanges(height, cols - 1, height);
    }
  }

  /** `GetColumnTransitions(board, num_columns)`. */
  method GetColumnTransitions(board: seq<nat>, cols: nat) returns (transitions: nat)
    requires cols <= 32
    ensures transitions == ColumnTransitions(board, cols)
  {
    transitions := 0;
    var lastBit := 1;
    var i := 0;
    while i < cols
      invariant 0 <= i <= cols
      invariant transitions == ColumnTransitions(board, i)
      invariant lastBit == 1
    {
      var j := 0;
      while j < |board|
        invariant 0 <= j <= |board|
        invariant transitions == ColumnTransitions(board, i) + ColumnChanges(board, i, j)
        invariant lastBit == if j == 0 || Bit(board[j - 1], i) then 1 else 0
      {
        var row := board[j];
        var bit := And(Shr(row, i), 1);
        ReadCell(row, i);
        if bit != lastBit {
          transitions := transitions + 1;
        }
        lastBit := bit;
        j := j + 1;
      }
      lastBit := 1;
      i := i + 1;
    }
  }

  // ---------------------------------------------------------------------------
  // Holes

  /** Some cell of column c above row i is filled (defined row by row, upwards). */
  predicate FilledAbove(board: seq<nat>, i: nat, c: nat)
    decreases |board| - i
  {
    i + 1 < |board| && (Bit(board[i + 1], c) || FilledAbove(board, i + 1, c))
  }

  /** `FilledAbove` is the plain "there is a filled cell higher up in the column". */
  lemma {:induction false} FilledAboveExists(board: seq<nat>, i: nat, c: nat)
    ensures FilledAbove(board, i, c) <==> exists k :: i < k < |board| && Bit(board[k], c)
    decreases |board| - i
  {
    if i + 1 < |board| {
      FilledAboveExists(board, i + 1, c);
      if exists k :: i < k < |board| && Bit(board[k], c) {
        var k :| i < k < |board| && Bit(board[k], c);
        assert k == i + 1 || (i + 1 < k < |board| && Bit(board[k], c));
      }
    }
  }

  /** Cell (i, c) is a hole: empty, with a filled cell somewhere above it. */
  predicate Hole(board: seq<nat>, i: nat, c: nat)
    requires i < |board|
  {
    !Bit(board[i], c) && FilledAbove(board, i, c)
  }

  /** The holes among columns 0..n-1 of row i. */
  function RowHoles(board: seq<nat>, i: nat, n: nat): (k: nat)
    requires i < |board|
    ensures k <= n
  {
    if n == 0 then 0 else RowHoles(board, i, n - 1) + (if Hole(board, i, n - 1) then 1 else 0)
  }

  /** The holes in columns 0..cols-1 of rows i..|board|-2 (the top row has none). */
  function HolesFrom(board: seq<nat>, cols: nat, i: nat): (h: nat)
    decreases |board| - i
  {
    if i + 1 >= |board| then 0 else RowHoles(board, i, cols) + HolesFrom(board, cols, i + 1)
  }

  function Holes(board: seq<nat>, cols: nat): nat
  {
    HolesFrom(board, cols, 0)
  }

  /** A cell is a hole exactly when it is empty and the cell above is filled or is itself a hole. */
  lemma HoleStep(board: seq<nat>, i: nat, c: nat)
    requires i + 1 < |board|
    ensures Hole(board, i, c) == (!Bit(board[i], c) && (Bit(board[i + 1], c) || Hole(board, i + 1, c)))
  {
  }

  /** `GetNumberOfHoles(board, num_columns)`. */
  method GetNumberOfHoles(board: seq<nat>, cols: nat) returns (holes: nat)
    requires cols <= 32
    ensures holes == Holes(board, cols)
  {
    holes := 0;
    var rowHoles := 0;
    // `board[board.length - 1]` is undefined on an empty board, which the loop then never reads.
    var previousRow := if |board| > 0 then board[|board| - 1] else 0;
    var i := |board| - 2;
    forall c | 0 <= c < 32
      ensures !Bit(rowHoles, c)
    {
      BitZero(c);
    }
    while i >= 0
      invariant -2 <= i <= |board| - 2
      invariant i == -2 ==> |board| == 0 && holes == 0
      invariant i >= -1 ==> holes == HolesFrom(board, cols, i + 1)
      invariant i >= -1 ==> previousRow == board[i + 1]
      invariant i >= -1 ==> forall c :: 0 <= c < 32 ==> Bit(rowHoles, c) == Hole(board, i + 1, c)
    {
      ghost var holesAbove := rowHoles;
      rowHoles := And(Not32(board[i]), Or(previousRow, rowHoles));
      forall c | 0 <= c < 32
        ensures Bit(rowHoles, c) == Hole(board, i, c)
      {
        AndBit(Not32(board[i]), Or(previousRow, holesAbove), c);
        NotBit(board[i], c);
        OrBit(previousRow, holesAbove, c);
        HoleStep(board, i, c);
      }
      var j := 0;
      while j < cols
        invariant 0 <= j <= cols
        invariant holes == HolesFrom(board, cols, i + 1) + RowHoles(board, i, j)
      {
        ReadCell(rowHoles, j);
        holes := holes + And(Shr(rowHoles, j), 1);
        j := j + 1;
      }
      previousRow := board[i];
      i := i - 1;
    }
  }

  /** At most one hole per cell of the rows below the top row. */
  lemma {:induction false} HolesBound(board: seq<nat>, cols: nat, i: nat)
    requires i < |board|
    ensures HolesFrom(board, cols, i) <= (|board| - 1 - i) * cols
    decreases |board| - i
  {
    if i + 1 < |board| {
      HolesBound(board, cols, i + 1);
    }
  }

  // ---------------------------------------------------------------------------
  // Well sums

  /**
   * Cell (row, c) is a well cell: empty, and each neighbour inside the board
   * filled (in column 0 only the right one, in column cols-1 only the left one).
   */
  predicate WellCell(row: nat, c: nat, cols: nat)
  {
    !Bit(row, c) && (c == 0 || Bit(row, c - 1)) && (c + 1 == cols || Bit(row, c + 1))
  }

  /** The number of consecutive empty cells of column c directly below row j. */
  function Depth(board: seq<nat>, c: nat, j: nat): (d: nat)
    requires j <= |board|
    ensures d <= j
  {
    if j == 0 || Bit(board[j - 1], c) then 0 else 1 + Depth(board, c, j - 1)
  }

  /** What cell (j, c) adds to the well sums: for a well cell, 1 plus the empty cells below it. */
  function WellValue(board: seq<nat>, c: nat, cols: nat, j: nat): nat
    requires j < |board|
  {
    if WellCell(board[j], c, cols) then 1 + Depth(board, c, j) else 0
  }

  /** The well values of rows lo..hi-1 of column c. */
  function WellsIn(board: seq<nat>, c: nat, cols: nat, lo: nat, hi: nat): nat
    requires hi <= |board|
    decreases hi
  {
    if hi <= lo then 0 else WellsIn(board, c, cols, lo, hi - 1) + WellValue(board, c, cols, hi - 1)
  }

  /** The well sums of columns 1..n-1. */
  function InnerWells(board: seq<nat>, cols: nat, n: nat): nat
  {
    if n <= 1 then 0 else InnerWells(board, cols, n - 1) + WellsIn(board, n - 1, cols, 0, |board|)
  }

  /** The well sums of the board: its inner columns, then column 0, then column cols-1. */
  function WellSums(board: seq<nat>, cols: nat): nat
    requires 2 <= cols
  {
    InnerWells(board, cols, cols - 1) + WellsIn(board, 0, cols, 0, |board|) + WellsIn(board, cols - 1, cols, 0, |board|)
  }

  /** Taking the lowest row out of a range of well values. */
  lemma {:induction false} WellsInLow(board: seq<nat>, c: nat, cols: nat, lo: nat, hi: nat)
    requires lo < hi <= |board|
    ensures WellsIn(board, c, cols, lo, hi) == WellValue(board, c, cols, lo) + WellsIn(board, c, cols, lo + 1, hi)
    decreases hi
  {
    if lo + 1 < hi {
      WellsInLow(board, c, cols, lo, hi - 1);
    }
  }

  /**
   * The inner loop counting empty cells below row j of column c, stopping at
   * the first filled cell.
   */
  method EmptyBelow(board: seq<nat>, c: nat, j: nat) returns (count: nat)
    requires j < |board| && c < 32
    ensures count == Depth(board, c, j)
  {
    count := 0;
    var k := j - 1;
    while k >= 0
      invariant -1 <= k < j
      invariant count == j - 1 - k
      invariant Depth(board, c, j) == count + Depth(board, c, k + 1)
    {
      ReadCell(board[k], c);
      if And(Shr(board[k], c), 1) == 0 {
        count := count + 1;
      } else {
        break;
      }
      k := k - 1;
    }
  }

  /** The scan of column c from the top row down, adding each well cell and the empty cells below it. */
  method ColumnWells(board: seq<nat>, c: nat, cols: nat) returns (sum: nat)
    requires c < cols <= 32 && 2 <= cols
    ensures sum == WellsIn(board, c, cols, 0, |board|)
  {
    sum := 0;
    var j := |board| - 1;
    while j >= 0
      invariant -1 <= j < |board|
      invariant sum == WellsIn(board, c, cols, j + 1, |board|)
    {
      var row := board[j];
      ReadCell(row, c);
      var empty := And(Shr(row, c), 1) == 0;
      var leftFilled := true;
      if c > 0 {
        ReadCell(row, c - 1);
        leftFilled := And(Shr(row, c - 1), 1) == 1;
      }
      var rightFilled := true;
      if c + 1 < cols {
        ReadCell(row, c + 1);
        rightFilled := And(Shr(row, c + 1), 1) == 1;
      }
      WellsInLow(board, c, cols, j, |board|);
      if empty && leftFilled && rightFilled {
        sum := sum + 1;
        var below := EmptyBelow(board, c, j);
        sum := sum + below;
      }
      j := j - 1;
    }
  }

  /** `GetWellSums(board, num_columns)`. */
  method GetWellSums(board: seq<nat>, cols: nat) returns (wellSums: nat)
    requires 2 <= cols <= 32
    ensures wellSums == WellSums(board, cols)
  {
    wellSums := 0;
    var i := 1;
    while i < cols - 1
      invariant 1 <= i <= cols - 1
      invariant wellSums == InnerWells(board, cols, i)
    {
      var column := ColumnWells(board, i, cols);
      wellSums := wellSums + column;
      i := i + 1;
    }
    var left := ColumnWells(board, 0, cols);
    wellSums := wellSums + left;
    var right := ColumnWells(board, cols - 1, cols);
    wellSums := wellSums + right;
  }

  /**
   * A well n cells deep over a filled cell (or the floor) adds 1 + 2 + ... + n:
   * the i-th well cell from the bottom has i - 1 empty cells below it.
   */
  lemma {:induction false} WellStack(board: seq<nat>, c: nat, cols: nat, r: nat, n: nat)
    requires r + n <= |board|
    requires r == 0 || Bit(board[r - 1], c)
    requires forall j :: r <= j < r + n ==> WellCell(board[j], c, cols)
    ensures WellsIn(board, c, cols, r, r + n) == n * (n + 1) / 2
  {
    if n > 0 {
      WellStack(board, c, cols, r, n - 1);
      WellDepth(board, c, cols, r, n - 1);
      assert WellsIn(board, c, cols, r, r + n) == (n - 1) * n / 2 + n;
      Triangle(n);
    }
  }

  lemma Triangle(n: nat)
    requires n >= 1
    ensures (n - 1) * n / 2 + n == n * (n + 1) / 2
  {
    assert (n - 1) * n + 2 * n == n * (n + 1);
  }

  lemma {:induction false} WellDepth(board: seq<nat>, c: nat, cols: nat, r: nat, m: nat)
    requires r + m < |board|
    requires r == 0 || Bit(board[r - 1], c)
    requires forall j :: r <= j < r + m ==> WellCell(board[j], c, cols)
    ensures Depth(board, c, r + m) == m
  {
    if m > 0 {
      WellDepth(board, c, cols, r, m - 1);
    }
  }

  // ---------------------------------------------------------------------------
  // Only columns 0..cols-1 are read

  /** Two boards with the same rows in columns 0..cols-1; the bits above may differ. */
  predicate SameCells(a: seq<nat>, b: seq<nat>, cols: nat)
  {
    |a| == |b| && forall i, j :: 0 <= i < |a| && 0 <= j < cols ==> Bit(a[i], j) == Bit(b[i], j)
  }

  lemma SameCellsPrefix(a: seq<nat>, b: seq<nat>, cols: nat, n: nat)
    requires SameCells(a, b, cols) && n <= |a|
    ensures SameCells(a[..n], b[..n], cols)
  {
    forall i, j | 0 <= i < n && 0 <= j < cols
      ensures Bit(a[..n][i], j) == Bit(b[..n][i], j)
    {
      assert a[..n][i] == a[i] && b[..n][i] == b[i];
    }
  }

  lemma {:induction false} RowChangesCells(x: nat, y: nat, cols: nat, n: nat)
    requires forall j :: 0 <= j < cols ==> Bit(x, j) == Bit(y, j)
    ensures RowChanges(x, cols, n) == RowChanges(y, cols, n)
  {
    if n > 0 {
      RowChangesCells(x, y, cols, n - 1);
    }
  }

  lemma {:induction false} RowTransitionsCells(a: seq<nat>, b: seq<nat>, cols: nat)
    requires SameCells(a, b, cols)
    ensures RowTransitions(a, cols) == RowTransitions(b, cols)
    decreases |a|
  {
    if a != [] {
      SameCellsPrefix(a, b, cols, |a| - 1);
      RowTransitionsCells(a[..|a| - 1], b[..|b| - 1], cols);
      RowChangesCells(a[|a| - 1], b[|b| - 1], cols, cols + 1);
    }
  }

  lemma {:induction false} ColumnChangesCells(a: seq<nat>, b: seq<nat>, cols: nat, c: nat, n: nat)
    requires SameCells(a, b, cols) && c < cols && n <= |a|
    ensures ColumnChanges(a, c, n) == ColumnChanges(b, c, n)
  {
    if n > 0 {
      ColumnChangesCells(a, b, cols, c, n - 1);
    }
  }

  lemma {:induction false} ColumnTransitionsCells(a: seq<nat>, b: seq<nat>, cols: nat, n: nat)
    requires SameCells(a, b, cols) && n <= cols
    ensures ColumnTransitions(a, n) == ColumnTransitions(b, n)
  {
    if n > 0 {
      ColumnTransitionsCells(a, b, cols, n - 1);
      ColumnChangesCells(a, b, cols, n - 1, |a|);
    }
  }

  lemma {:induction false} FilledAboveCells(a: seq<nat>, b: seq<nat>, cols: nat, i: nat, c: nat)
    requires SameCells(a, b, cols) && c < cols
    ensures FilledAbove(a, i, c) == FilledAbove(b, i, c)
    decreases |a| - i
  {
    if i + 1 < |a| {
      FilledAboveCells(a, b, cols, i + 1, c);
    }
  }

  lemma {:induction false} RowHolesCells(a: seq<nat>, b: seq<nat>, cols: nat, i: nat, n: nat)
    requires SameCells(a, b, cols) && i < |a| && n <= cols
    ensures RowHoles(a, i, n) == RowHoles(b, i, n)
  {
    if n > 0 {
      RowHolesCells(a, b, cols, i, n - 1);
      FilledAboveCells(a, b, cols, i, n - 1);
    }
  }

  lemma {:induction false} HolesFromCells(a: seq<nat>, b: seq<nat>, cols: nat, i: nat)
    requires SameCells(a, b, cols)
    ensures HolesFrom(a, cols, i) == HolesFrom(b, cols, i)
    decreases |a| - i
  {
    if i + 1 < |a| {
      RowHolesCells(a, b, cols, i, cols);
      HolesFromCells(a, b, cols, i + 1);
    }
  }

  lemma {:induction false} DepthCells(a: seq<nat>, b: seq<nat>, cols: nat, c: nat, j: nat)
    requires SameCells(a, b, cols) && c < cols && j <= |a|
    ensures Depth(a, c, j) == Depth(b, c, j)
  {
    if j > 0 {
      DepthCells(a, b, cols, c, j - 1);
    }
  }

  lemma {:induction false} WellsInCells(a: seq<nat>, b: seq<nat>, cols: nat, c: nat, hi: nat)
    requires SameCells(a, b, cols) && c < cols && hi <= |a|
    ensures WellsIn(a, c, cols, 0, hi) == WellsIn(b, c, cols, 0, hi)
  {
    if hi > 0 {
      WellsInCells(a, b, cols, c, hi - 1);
      DepthCells(a, b, cols, c, hi - 1);
      assert WellCell(a[hi - 1], c, cols) == WellCell(b[hi - 1], c, cols);
    }
  }

  lemma {:induction false} InnerWellsCells(a: seq<nat>, b: seq<nat>, cols: nat, n: nat)
    requires SameCells(a, b, cols) && n <= cols
    ensures InnerWells(a, cols, n) == InnerWells(b, cols, n)
  {
    if n > 1 {
      InnerWellsCells(a, b, cols, n - 1);
      WellsInCells(a, b, cols, n - 1, |a|);
    }
  }

  /**
   * Every feature reads only columns 0..cols-1 of each row: boards that agree
   * there score the same on all four board features.
   */
  lemma FeaturesReadOnlyCells(a: seq<nat>, b: seq<nat>, cols: nat)
    requires SameCells(a, b, cols)
    ensures RowTransitions(a, cols) == RowTransitions(b, cols)
    ensures ColumnTransitions(a, cols) == ColumnTransitions(b, cols)
    ensures Holes(a, cols) == Holes(b, cols)
    ensures 2 <= cols ==> WellSums(a, cols) == WellSums(b, cols)
  {
    RowTransitionsCells(a, b, cols);
    ColumnTransitionsCells(a, b, cols, cols);
    HolesFromCells(a, b, cols, 0);
    if 2 <= cols {
      InnerWellsCells(a, b, cols, cols - 1);
      WellsInCells(a, b, cols, 0, |a|);
      WellsInCells(a, b, cols, cols - 1, |a|);
    }
  }

  // ---------------------------------------------------------------------------
  // Expected values of the unit tests

  lemma RowTransitionsExamples()
    ensures RowTransitions([0], 4) == 2
    ensures RowTransitions([10], 4) == 4
  {
  }

  lemma ColumnTransitionsExamples()
    ensures ColumnTransitions([0, 0, 0, 0], 1) == 1
    ensures ColumnTransitions([1, 0, 1, 0], 2) == 4
    ensures ColumnTransitions([1, 7, 0], 10) == 14
  {
  }

  /** Rows 10101, 01010, 10101 (bottom first): three holes in the middle row, two in the bottom one. */
  lemma HolesExample()
    ensures Holes([21, 10, 21], 5) == 5
  {
  }

  /** The 8 x 8 board of the well test, bottom row first. */
  const WELL_BOARD: seq<nat> := [165, 29, 249, 125, 125, 88, 24, 16]

  /** The cells of the rows of the well test board. */
  lemma WellBoardBits()
    ensures !Bit(16, 0) && !Bit(16, 1) && !Bit(16, 2) && !Bit(16, 3) && Bit(16, 4) && !Bit(16, 5) && !Bit(16, 6) && !Bit(16, 7)
    ensures !Bit(24, 0) && !Bit(24, 1) && !Bit(24, 2) && Bit(24, 3) && Bit(24, 4) && !Bit(24, 5) && !Bit(24, 6) && !Bit(24, 7)
    ensures Bit(29, 0) && !Bit(29, 1) && Bit(29, 2) && Bit(29, 3) && Bit(29, 4) && !Bit(29, 5) && !Bit(29, 6) && !Bit(29, 7)
    ensures !Bit(88, 0) && !Bit(88, 1) && !Bit(88, 2) && Bit(88, 3) && Bit(88, 4) && !Bit(88, 5) && Bit(88, 6) && !Bit(88, 7)
    ensures Bit(125, 0) && !Bit(125, 1) && Bit(125, 2) && Bit(125, 3) && Bit(125, 4) && Bit(125, 5) && Bit(125, 6) && !Bit(125, 7)
    ensures Bit(165, 0) && !Bit(165, 1) && Bit(165, 2) && !Bit(165, 3) && !Bit(165, 4) && Bit(165, 5) && !Bit(165, 6) && Bit(165, 7)
    ensures Bit(249, 0) && !Bit(249, 1) && !Bit(249, 2) && Bit(249, 3) && Bit(249, 4) && Bit(249, 5) && Bit(249, 6) && Bit(249, 7)
  {
  }

  lemma WellColumns01()
    ensures WellsIn(WELL_BOARD, 0, 8, 0, 8) == 0
    ensures WellsIn(WELL_BOARD, 1, 8, 0, 8) == 12
  {
    WellBoardBits();
  }

  lemma WellColumns23()
    ensures WellsIn(WELL_BOARD, 2, 8, 0, 8) == 0
    ensures WellsIn(WELL_BOARD, 3, 8, 0, 8) == 0
  {
    WellBoardBits();
  }

  lemma WellColumns45()
    ensures WellsIn(WELL_BOARD, 4, 8, 0, 8) == 0
    ensures WellsIn(WELL_BOARD, 5, 8, 0, 8) == 1
  {
    WellBoardBits();
  }

  lemma WellColumns67()
    ensures WellsIn(WELL_BOARD, 6, 8, 0, 8) == 1
    ensures WellsIn(WELL_BOARD, 7, 8, 0, 8) == 6
  {
    WellBoardBits();
  }

  /**
   * Column 1 is empty and walled on both sides in rows 0, 1, 3 and 4
   * (1 + 2 + 4 + 5); column 7 adds 6 and columns 5 and 6 one each.
   */
  lemma WellSumsExample()
    ensures WellSums(WELL_BOARD, 8) == 20
  {
    WellColumns01();
    WellColumns23();
    WellColumns45();
    WellColumns67();
  }
}
