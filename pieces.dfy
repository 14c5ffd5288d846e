/**
 * The seven tetrominoes and their orientations. An orientation lists the row
 * words of the piece from its bottom row up (bit j of a row word is column j
 * of the piece) together with its width and height. The rows are written in
 * the source as binary strings, leftmost character first, read by `parse`,
 * and the list of a drawing's lines, top line first, is reversed so that
 * index 0 is the bottom row.
 */
module Pieces {
  import opened Bits

  datatype Orientation = Orientation(orientation: seq<nat>, width: nat, height: nat)

  function Reverse<T>(s: seq<T>): (r: seq<T>)
    ensures |r| == |s|
    ensures forall k :: 0 <= k < |s| ==> r[k] == s[|s| - 1 - k]
  {
    if s == [] then [] else Reverse(s[1..]) + [s[0]]
  }

  lemma ReverseTwo(a: nat, b: nat)
    ensures Reverse([a, b]) == [b, a]
  {
  }

  lemma ReverseThree(a: nat, b: nat, c: nat)
    ensures Reverse([a, b, c]) == [c, b, a]
  {
  }

  predicate IsBinary(s: string)
  {
    forall k :: 0 <= k < |s| ==> s[k] == '0' || s[k] == '1'
  }

  /** `parseInt(t, 2)`: the number written in binary by `t`, most significant digit first. */
  function ParseInt2(t: string): nat
    requires IsBinary(t)
  {
    if t == [] then 0 else 2 * ParseInt2(t[..|t| - 1]) + (if t[|t| - 1] == '1' then 1 else 0)
  }

  /**
   * `parse(x)`: reverse the characters of `x`, then read them in binary, so the
   * first character of `x` becomes bit 0 (column 0): character k of the string
   * is column k of the row.
   */
  function Parse(x: string): (row: nat)
    requires |x| > 0 && IsBinary(x)
    ensures forall k {:trigger x[k]} :: 0 <= k < |x| ==> (Bit(row, k) <==> x[k] == '1')
  {
    ParseInt2Bits(Reverse(x));
    ParseInt2(Reverse(x))
  }

  lemma {:induction false} ParseInt2Bits(t: string)
    requires IsBinary(t)
    ensures Fits(ParseInt2(t), |t|)
    ensures forall k :: 0 <= k < |t| ==> (Bit(ParseInt2(t), k) <==> t[|t| - 1 - k] == '1')
  {
    if t != [] {
      var init := t[..|t| - 1];
      ParseInt2Bits(init);
      var n := ParseInt2(t);
      assert n / 2 == ParseInt2(init);
      forall k | 0 <= k < |t|
        ensures Bit(n, k) <==> t[|t| - 1 - k] == '1'
      {
        if k > 0 {
          assert t[|t| - 1 - k] == init[|init| - 1 - (k - 1)];
        }
      }
    }
  }

  /** Nothing of the parsed row lies beyond the string's length. */
  lemma ParseFits(x: string)
    requires |x| > 0 && IsBinary(x)
    ensures Fits(Parse(x), |x|)
  {
    ParseInt2Bits(Reverse(x));
  }

  const I_PIECE: seq<Orientation> := [
    Orientation([1, 1, 1, 1], 1, 4),
    Orientation([Parse("1111")], 4, 1)
  ]

  const T_PIECE_0: Orientation := Orientation(Reverse([Parse("10"), Parse("11"), Parse("10")]), 2, 3)
  const T_PIECE_1: Orientation := Orientation(Reverse([Parse("010"), Parse("111")]), 3, 2)
  const T_PIECE_2: Orientation := Orientation(Reverse([Parse("01"), Parse("11"), Parse("01")]), 2, 3)
  const T_PIECE_3: Orientation := Orientation(Reverse([Parse("111"), Parse("010")]), 3, 2)
  const T_PIECE: seq<Orientation> := [T_PIECE_0, T_PIECE_1, T_PIECE_2, T_PIECE_3]

  const O_PIECE: seq<Orientation> := [
    Orientation([Parse("11"), Parse("11")], 2, 2)
  ]

  const J_PIECE_0: Orientation := Orientation(Reverse([Parse("100"), Parse("111")]), 3, 2)
  const J_PIECE_1: Orientation := Orientation(Reverse([Parse("01"), Parse("01"), Parse("11")]), 2, 3)
  const J_PIECE_2: Orientation := Orientation(Reverse([Parse("111"), Parse("001")]), 3, 2)
  const J_PIECE_3: Orientation := Orientation(Reverse([Parse("11"), Parse("10"), Parse("10")]), 2, 3)
  const J_PIECE: seq<Orientation> := [J_PIECE_0, J_PIECE_1, J_PIECE_2, J_PIECE_3]

  const L_PIECE_0: Orientation := Orientation(Reverse([Parse("111"), Parse("100")]), 3, 2)
  const L_PIECE_1: Orientation := Orientation(Reverse([Parse("10"), Parse("10"), Parse("11")]), 2, 3)
  const L_PIECE_2: Orientation := Orientation(Reverse([Parse("001"), Parse("111")]), 3, 2)
  const L_PIECE_3: Orientation := Orientation(Reverse([Parse("11"), Parse("01"), Parse("01")]), 2, 3)
  const L_PIECE: seq<Orientation> := [L_PIECE_0, L_PIECE_1, L_PIECE_2, L_PIECE_3]

  const S_PIECE_0: Orientation := Orientation(Reverse([Parse("10"), Parse("11"), Parse("01")]), 2, 3)
  const S_PIECE_1: Orientation := Orientation(Reverse([Parse("011"), Parse("110")]), 3, 2)
  const S_PIECE: seq<Orientation> := [S_PIECE_0, S_PIECE_1]

  const Z_PIECE_0: Orientation := Orientation(Reverse([Parse("01"), Parse("11"), Parse("10")]), 2, 3)
  const Z_PIECE_1: Orientation := Orientation(Reverse([Parse("110"), Parse("011")]), 3, 2)
  const Z_PIECE: seq<Orientation> := [Z_PIECE_0, Z_PIECE_1]

  /** The catalog `PIECES`, indexed I, T, O, J, L, S, Z. */
  const PIECES: seq<seq<Orientation>> := [I_PIECE, T_PIECE, O_PIECE, J_PIECE, L_PIECE, S_PIECE, Z_PIECE]

  function Digit(c: char): nat
  {
    if c == '1' then 1 else 0
  }

  /** Reversing keeps a string binary. */
  lemma ReverseBinary(s: string)
    requires IsBinary(s)
    ensures IsBinary(Reverse(s))
  {
  }

  /** One more digit at the end doubles the number read so far and adds the digit. */
  lemma ParseInt2Snoc(t: string, c: char)
    requires IsBinary(t) && (c == '0' || c == '1')
    ensures IsBinary(t + [c])
    ensures ParseInt2(t + [c]) == 2 * ParseInt2(t) + Digit(c)
  {
    assert (t + [c])[..|t|] == t;
  }

  /** The first character of the string is the low bit; the rest is the word one column up. */
  lemma ParseCons(x: string)
    requires |x| >= 2 && IsBinary(x)
    ensures Parse(x) == Digit(x[0]) + 2 * Parse(x[1..])
  {
    var tail := x[1..];
    assert IsBinary(tail);
    ReverseBinary(tail);
    assert Reverse(x) == Reverse(tail) + [x[0]];
    ParseInt2Snoc(Reverse(tail), x[0]);
  }

  lemma ParseOne(x: string)
    requires |x| == 1 && IsBinary(x)
    ensures Parse(x) == Digit(x[0])
  {
    assert Reverse(x) == x;
    assert x[..0] == [];
    assert ParseInt2(x) == 2 * ParseInt2(x[..0]) + Digit(x[0]);
  }

  lemma ParseTwo(x: string)
    requires |x| == 2 && IsBinary(x)
    ensures Parse(x) == Digit(x[0]) + 2 * Digit(x[1])
  {
    ParseCons(x);
    ParseOne(x[1..]);
  }

  lemma ParseThree(x: string)
    requires |x| == 3 && IsBinary(x)
    ensures Parse(x) == Digit(x[0]) + 2 * Digit(x[1]) + 4 * Digit(x[2])
  {
    ParseCons(x);
    ParseTwo(x[1..]);
  }

  lemma ParseFour(x: string)
    requires |x| == 4 && IsBinary(x)
    ensures Parse(x) == Digit(x[0]) + 2 * Digit(x[1]) + 4 * Digit(x[2]) + 8 * Digit(x[3])
  {
    ParseCons(x);
    ParseThree(x[1..]);
  }

  /** The rows the catalog writes as strings, read by `parse`. */
  lemma ParsedPairs()
    ensures Parse("10") == 1 && Parse("01") == 2 && Parse("11") == 3
  {
    ParseTwo("10");
    ParseTwo("01");
    ParseTwo("11");
  }

  lemma ParsedTriplesLow()
    ensures Parse("100") == 1 && Parse("010") == 2 && Parse("110") == 3
  {
    ParseThree("100");
    ParseThree("010");
    ParseThree("110");
  }

  lemma ParsedTriplesHigh()
    ensures Parse("001") == 4 && Parse("011") == 6 && Parse("111") == 7
  {
    ParseThree("001");
    ParseThree("011");
    ParseThree("111");
  }

  lemma ParsedQuadruple()
    ensures Parse("1111") == 15
  {
    ParseFour("1111");
  }

  // ---------------------------------------------------------------------------
  // Shape of the catalog

  /** The union of rows 0..n-1: every column one of them fills. */
  function Spread(rows: seq<nat>, n: nat): nat
    requires n <= |rows|
  {
    if n == 0 then 0 else Or(Spread(rows, n - 1), rows[n - 1])
  }

  /** The number of cells in columns 0..width-1 of rows 0..n-1. */
  function Cells(rows: seq<nat>, width: nat, n: nat): nat
    requires n <= |rows|
  {
    if n == 0 then 0 else Cells(rows, width, n - 1) + CountBits(rows[n - 1], width)
  }

  /** Rows 0..n-1 each hold a cell and nothing beyond column width - 1. */
  predicate RowsFit(rows: seq<nat>, width: nat, n: nat)
    requires n <= |rows|
  {
    n == 0 || (rows[n - 1] != 0 && Fits(rows[n - 1], width) && RowsFit(rows, width, n - 1))
  }

  /**
   * A tetromino orientation: `height` rows, each holding at least one cell and
   * nothing outside `width` columns, the leftmost and rightmost columns both
   * used, and four cells in all.
   */
  predicate WellFormed(o: Orientation)
  {
    && o.height == |o.orientation|
    && 1 <= o.width
    && RowsFit(o.orientation, o.width, |o.orientation|)
    && Bit(Spread(o.orientation, |o.orientation|), 0)
    && Bit(Spread(o.orientation, |o.orientation|), o.width - 1)
    && Cells(o.orientation, o.width, |o.orientation|) == 4
  }

  lemma {:induction false} RowsFitEach(rows: seq<nat>, width: nat, n: nat)
    requires n <= |rows| && RowsFit(rows, width, n)
    ensures forall k :: 0 <= k < n ==> rows[k] != 0 && Fits(rows[k], width)
  {
    if n > 0 {
      RowsFitEach(rows, width, n - 1);
    }
  }

  /** Every row of a well-formed orientation is non-empty and fits in its width. */
  lemma WellFormedRows(o: Orientation)
    requires WellFormed(o)
    ensures forall k :: 0 <= k < |o.orientation| ==> o.orientation[k] != 0 && Fits(o.orientation[k], o.width)
  {
    RowsFitEach(o.orientation, o.width, |o.orientation|);
  }

  /** The word whose bit `|rows| - 1 - r` is cell (c, r), over rows 0..n-1. */
  function ColumnWord(rows: seq<nat>, c: nat, n: nat): nat
    requires n <= |rows|
  {
    if n == 0 then 0
    else ColumnWord(rows, c, n - 1) + (if Bit(rows[n - 1], c) then Pow2(|rows| - n) else 0)
  }

  function Columns(rows: seq<nat>, width: nat): (r: seq<nat>)
    ensures |r| == width
  {
    if width == 0 then [] else Columns(rows, width - 1) + [ColumnWord(rows, width - 1, |rows|)]
  }

  /**
   * The orientation turned a quarter turn counterclockwise: the cell in column c
   * of row r moves to column height - 1 - r of row c.
   */
  function Rotate(o: Orientation): Orientation
  {
    Orientation(Columns(o.orientation, o.width), o.height, o.width)
  }

  /** The I piece's orientations, each row word written out, bottom row first. */
  lemma IRows()
    ensures I_PIECE == [Orientation([1, 1, 1, 1], 1, 4), Orientation([15], 4, 1)]
  {
    ParsedQuadruple();
  }

  /** The T piece's orientations, each row word written out, bottom row first. */
  lemma TRows()
    ensures T_PIECE == [Orientation([1, 3, 1], 2, 3), Orientation([7, 2], 3, 2), Orientation([2, 3, 2], 2, 3), Orientation([2, 7], 3, 2)]
  {
    ParsedPairs();
    ParsedTriplesLow();
    ParsedTriplesHigh();
    ReverseThree(Parse("10"), Parse("11"), Parse("10"));
    ReverseTwo(Parse("010"), Parse("111"));
    ReverseThree(Parse("01"), Parse("11"), Parse("01"));
    ReverseTwo(Parse("111"), Parse("010"));
  }

  /** The O piece's orientations, each row word written out, bottom row first. */
  lemma ORows()
    ensures O_PIECE == [Orientation([3, 3], 2, 2)]
  {
    ParsedPairs();
  }

  /** The J piece's orientations, each row word written out, bottom row first. */
  lemma JRows()
    ensures J_PIECE == [Orientation([7, 1], 3, 2), Orientation([3, 2, 2], 2, 3), Orientation([4, 7], 3, 2), Orientation([1, 1, 3], 2, 3)]
  {
    ParsedTriplesLow();
    ParsedTriplesHigh();
    ParsedPairs();
    ReverseTwo(Parse("100"), Parse("111"));
    ReverseThree(Parse("01"), Parse("01"), Parse("11"));
    ReverseTwo(Parse("111"), Parse("001"));
    ReverseThree(Parse("11"), Parse("10"), Parse("10"));
  }

  /** The L piece's orientations, each row word written out, bottom row first. */
  lemma LRows()
    ensures L_PIECE == [Orientation([1, 7], 3, 2), Orientation([3, 1, 1], 2, 3), Orientation([7, 4], 3, 2), Orientation([2, 2, 3], 2, 3)]
  {
    ParsedTriplesHigh();
    ParsedTriplesLow();
    ParsedPairs();
    ReverseTwo(Parse("111"), Parse("100"));
    ReverseThree(Parse("10"), Parse("10"), Parse("11"));
    ReverseTwo(Parse("001"), Parse("111"));
    ReverseThree(Parse("11"), Parse("01"), Parse("01"));
  }

  /** The S piece's orientations, each row word written out, bottom row first. */
  lemma SRows()
    ensures S_PIECE == [Orientation([2, 3, 1], 2, 3), Orientation([3, 6], 3, 2)]
  {
    ParsedPairs();
    ParsedTriplesHigh();
    ParsedTriplesLow();
    ReverseThree(Parse("10"), Parse("11"), Parse("01"));
    ReverseTwo(Parse("011"), Parse("110"));
  }

  /** The Z piece's orientations, each row word written out, bottom row first. */
  lemma ZRows()
    ensures Z_PIECE == [Orientation([1, 3, 2], 2, 3), Orientation([6, 3], 3, 2)]
  {
    ParsedPairs();
    ParsedTriplesLow();
    ParsedTriplesHigh();
    ReverseThree(Parse("01"), Parse("11"), Parse("10"));
    ReverseTwo(Parse("110"), Parse("011"));
  }

  /** Four orientations that each turn into the next, the last into the first. */
  lemma Cycle4(p: seq<Orientation>, a: Orientation, b: Orientation, c: Orientation, d: Orientation)
    requires p == [a, b, c, d]
    requires Rotate(a) == b && Rotate(b) == c && Rotate(c) == d && Rotate(d) == a
    ensures forall o :: 0 <= o < |p| ==> Rotate(p[o]) == p[(o + 1) % |p|]
  {
  }

  /** Two orientations that each turn into the other. */
  lemma Cycle2(p: seq<Orientation>, a: Orientation, b: Orientation)
    requires p == [a, b]
    requires Rotate(a) == b && Rotate(b) == a
    ensures forall o :: 0 <= o < |p| ==> Rotate(p[o]) == p[(o + 1) % |p|]
  {
  }

  lemma IShapes()
    ensures WellFormed(Orientation([1, 1, 1, 1], 1, 4))
    ensures WellFormed(Orientation([15], 4, 1))
  {
  }

  lemma IWellFormed()
    ensures forall o :: 0 <= o < |I_PIECE| ==> WellFormed(I_PIECE[o])
  {
    IRows();
    IShapes();
  }

  /** Turning each drawn I orientation a quarter turn gives the next one. */
  lemma ITurns()
    ensures Rotate(Orientation([1, 1, 1, 1], 1, 4)) == Orientation([15], 4, 1)
    ensures Rotate(Orientation([15], 4, 1)) == Orientation([1, 1, 1, 1], 1, 4)
  {
  }

  lemma IRotations()
    ensures forall o :: 0 <= o < |I_PIECE| ==> Rotate(I_PIECE[o]) == I_PIECE[(o + 1) % |I_PIECE|]
  {
    IRows();
    ITurns();
    Cycle2(I_PIECE, Orientation([1, 1, 1, 1], 1, 4), Orientation([15], 4, 1));
  }

  lemma TShape0()
    ensures WellFormed(Orientation([1, 3, 1], 2, 3))
  {
  }

  lemma TShape1()
    ensures WellFormed(Orientation([7, 2], 3, 2))
  {
  }

  lemma TShape2()
    ensures WellFormed(Orientation([2, 3, 2], 2, 3))
  {
  }

  lemma TShape3()
    ensures WellFormed(Orientation([2, 7], 3, 2))
  {
  }

  lemma TShapes()
    ensures WellFormed(Orientation([1, 3, 1], 2, 3))
    ensures WellFormed(Orientation([7, 2], 3, 2))
    ensures WellFormed(Orientation([2, 3, 2], 2, 3))
    ensures WellFormed(Orientation([2, 7], 3, 2))
  {
    TShape0();
    TShape1();
    TShape2();
    TShape3();
  }

  lemma TWellFormed()
    ensures forall o :: 0 <= o < |T_PIECE| ==> WellFormed(T_PIECE[o])
  {
    TRows();
    TShapes();
  }

  lemma TTurn0()
    ensures Rotate(Orientation([1, 3, 1], 2, 3)) == Orientation([7, 2], 3, 2)
  {
  }

  lemma TTurn1()
    ensures Rotate(Orientation([7, 2], 3, 2)) == Orientation([2, 3, 2], 2, 3)
  {
  }

  lemma TTurn2()
    ensures Rotate(Orientation([2, 3, 2], 2, 3)) == Orientation([2, 7], 3, 2)
  {
  }

  lemma TTurn3()
    ensures Rotate(Orientation([2, 7], 3, 2)) == Orientation([1, 3, 1], 2, 3)
  {
  }

  /** Turning each drawn T orientation a quarter turn gives the next one. */
  lemma TTurns()
    ensures Rotate(Orientation([1, 3, 1], 2, 3)) == Orientation([7, 2], 3, 2)
    ensures Rotate(Orientation([7, 2], 3, 2)) == Orientation([2, 3, 2], 2, 3)
    ensures Rotate(Orientation([2, 3, 2], 2, 3)) == Orientation([2, 7], 3, 2)
    ensures Rotate(Orientation([2, 7], 3, 2)) == Orientation([1, 3, 1], 2, 3)
  {
    TTurn0();
    TTurn1();
    TTurn2();
    TTurn3();
  }

  lemma TRotations()
    ensures forall o :: 0 <= o < |T_PIECE| ==> Rotate(T_PIECE[o]) == T_PIECE[(o + 1) % |T_PIECE|]
  {
    TRows();
    TTurns();
    Cycle4(T_PIECE, Orientation([1, 3, 1], 2, 3), Orientation([7, 2], 3, 2), Orientation([2, 3, 2], 2, 3), Orientation([2, 7], 3, 2));
  }

  lemma OShapes()
    ensures WellFormed(Orientation([3, 3], 2, 2))
  {
  }

  lemma OWellFormed()
    ensures forall o :: 0 <= o < |O_PIECE| ==> WellFormed(O_PIECE[o])
  {
    ORows();
    OShapes();
  }

  /** Turning each drawn O orientation a quarter turn gives the next one. */
  lemma OTurns()
    ensures Rotate(Orientation([3, 3], 2, 2)) == Orientation([3, 3], 2, 2)
  {
  }

  lemma ORotations()
    ensures forall o :: 0 <= o < |O_PIECE| ==> Rotate(O_PIECE[o]) == O_PIECE[(o + 1) % |O_PIECE|]
  {
    ORows();
    OTurns();
  }

  lemma JShape0()
    ensures WellFormed(Orientation([7, 1], 3, 2))
  {
  }

  lemma JShape1()
    ensures WellFormed(Orientation([3, 2, 2], 2, 3))
  {
  }

  lemma JShape2()
    ensures WellFormed(Orientation([4, 7], 3, 2))
  {
  }

  lemma JShape3()
    ensures WellFormed(Orientation([1, 1, 3], 2, 3))
  {
  }

  lemma JShapes()
    ensures WellFormed(Orientation([7, 1], 3, 2))
    ensures WellFormed(Orientation([3, 2, 2], 2, 3))
    ensures WellFormed(Orientation([4, 7], 3, 2))
    ensures WellFormed(Orientation([1, 1, 3], 2, 3))
  {
    JShape0();
    JShape1();
    JShape2();
    JShape3();
  }

  lemma JWellFormed()
    ensures forall o :: 0 <= o < |J_PIECE| ==> WellFormed(J_PIECE[o])
  {
    JRows();
    JShapes();
  }

  lemma JTurn0()
    ensures Rotate(Orientation([7, 1], 3, 2)) == Orientation([3, 2, 2], 2, 3)
  {
  }

  lemma JTurn1()
    ensures Rotate(Orientation([3, 2, 2], 2, 3)) == Orientation([4, 7], 3, 2)
  {
  }

  lemma JTurn2()
    ensures Rotate(Orientation([4, 7], 3, 2)) == Orientation([1, 1, 3], 2, 3)
  {
  }

  lemma JTurn3()
    ensures Rotate(Orientation([1, 1, 3], 2, 3)) == Orientation([7, 1], 3, 2)
  {
  }

  /** Turning each drawn J orientation a quarter turn gives the next one. */
  lemma JTurns()
    ensures Rotate(Orientation([7, 1], 3, 2)) == Orientation([3, 2, 2], 2, 3)
    ensures Rotate(Orientation([3, 2, 2], 2, 3)) == Orientation([4, 7], 3, 2)
    ensures Rotate(Orientation([4, 7], 3, 2)) == Orientation([1, 1, 3], 2, 3)
    ensures Rotate(Orientation([1, 1, 3], 2, 3)) == Orientation([7, 1], 3, 2)
  {
    JTurn0();
    JTurn1();
    JTurn2();
    JTurn3();
  }

  lemma JRotations()
    ensures forall o :: 0 <= o < |J_PIECE| ==> Rotate(J_PIECE[o]) == J_PIECE[(o + 1) % |J_PIECE|]
  {
    JRows();
    JTurns();
    Cycle4(J_PIECE, Orientation([7, 1], 3, 2), Orientation([3, 2, 2], 2, 3), Orientation([4, 7], 3, 2), Orientation([1, 1, 3], 2, 3));
  }

  lemma LShape0()
    ensures WellFormed(Orientation([1, 7], 3, 2))
  {
  }

  lemma LShape1()
    ensures WellFormed(Orientation([3, 1, 1], 2, 3))
  {
  }

  lemma LShape2()
    ensures WellFormed(Orientation([7, 4], 3, 2))
  {
  }

  lemma LShape3()
    ensures WellFormed(Orientation([2, 2, 3], 2, 3))
  {
  }

  lemma LShapes()
    ensures WellFormed(Orientation([1, 7], 3, 2))
    ensures WellFormed(Orientation([3, 1, 1], 2, 3))
    ensures WellFormed(Orientation([7, 4], 3, 2))
    ensures WellFormed(Orientation([2, 2, 3], 2, 3))
  {
    LShape0();
    LShape1();
    LShape2();
    LShape3();
  }

  lemma LWellFormed()
    ensures forall o :: 0 <= o < |L_PIECE| ==> WellFormed(L_PIECE[o])
  {
    LRows();
    LShapes();
  }

  lemma LTurn0()
    ensures Rotate(Orientation([1, 7], 3, 2)) == Orientation([3, 1, 1], 2, 3)
  {
  }

  lemma LTurn1()
    ensures Rotate(Orientation([3, 1, 1], 2, 3)) == Orientation([7, 4], 3, 2)
  {
  }

  lemma LTurn2()
    ensures Rotate(Orientation([7, 4], 3, 2)) == Orientation([2, 2, 3], 2, 3)
  {
  }

  lemma LTurn3()
    ensures Rotate(Orientation([2, 2, 3], 2, 3)) == Orientation([1, 7], 3, 2)
  {
  }

  /** Turning each drawn L orientation a quarter turn gives the next one. */
  lemma LTurns()
    ensures Rotate(Orientation([1, 7], 3, 2)) == Orientation([3, 1, 1], 2, 3)
    ensures Rotate(Orientation([3, 1, 1], 2, 3)) == Orientation([7, 4], 3, 2)
    ensures Rotate(Orientation([7, 4], 3, 2)) == Orientation([2, 2, 3], 2, 3)
    ensures Rotate(Orientation([2, 2, 3], 2, 3)) == Orientation([1, 7], 3, 2)
  {
    LTurn0();
    LTurn1();
    LTurn2();
    LTurn3();
  }

  lemma LRotations()
    ensures forall o :: 0 <= o < |L_PIECE| ==> Rotate(L_PIECE[o]) == L_PIECE[(o + 1) % |L_PIECE|]
  {
    LRows();
    LTurns();
    Cycle4(L_PIECE, Orientation([1, 7], 3, 2), Orientation([3, 1, 1], 2, 3), Orientation([7, 4], 3, 2), Orientation([2, 2, 3], 2, 3));
  }

  lemma SShapes()
    ensures WellFormed(Orientation([2, 3, 1], 2, 3))
    ensures WellFormed(Orientation([3, 6], 3, 2))
  {
  }

  lemma SWellFormed()
    ensures forall o :: 0 <= o < |S_PIECE| ==> WellFormed(S_PIECE[o])
  {
    SRows();
    SShapes();
  }

  /** Turning each drawn S orientation a quarter turn gives the next one. */
  lemma STurns()
    ensures Rotate(Orientation([2, 3, 1], 2, 3)) == Orientation([3, 6], 3, 2)
    ensures Rotate(Orientation([3, 6], 3, 2)) == Orientation([2, 3, 1], 2, 3)
  {
  }

  lemma SRotations()
    ensures forall o :: 0 <= o < |S_PIECE| ==> Rotate(S_PIECE[o]) == S_PIECE[(o + 1) % |S_PIECE|]
  {
    SRows();
    STurns();
    Cycle2(S_PIECE, Orientation([2, 3, 1], 2, 3), Orientation([3, 6], 3, 2));
  }

  lemma ZShapes()
    ensures WellFormed(Orientation([1, 3, 2], 2, 3))
    ensures WellFormed(Orientation([6, 3], 3, 2))
  {
  }

  lemma ZWellFormed()
    ensures forall o :: 0 <= o < |Z_PIECE| ==> WellFormed(Z_PIECE[o])
  {
    ZRows();
    ZShapes();
  }

  /** Turning each drawn Z orientation a quarter turn gives the next one. */
  lemma ZTurns()
    ensures Rotate(Orientation([1, 3, 2], 2, 3)) == Orientation([6, 3], 3, 2)
    ensures Rotate(Orientation([6, 3], 3, 2)) == Orientation([1, 3, 2], 2, 3)
  {
  }

  lemma ZRotations()
    ensures forall o :: 0 <= o < |Z_PIECE| ==> Rotate(Z_PIECE[o]) == Z_PIECE[(o + 1) % |Z_PIECE|]
  {
    ZRows();
    ZTurns();
    Cycle2(Z_PIECE, Orientation([1, 3, 2], 2, 3), Orientation([6, 3], 3, 2));
  }

  lemma CatalogShape()
    ensures |PIECES| == 7
    ensures |PIECES[0]| == 2 && |PIECES[1]| == 4 && |PIECES[2]| == 1 && |PIECES[3]| == 4
    ensures |PIECES[4]| == 4 && |PIECES[5]| == 2 && |PIECES[6]| == 2
  {
  }

  /**
   * Every orientation in the catalog is a well-formed tetromino, and each piece
   * lists its orientations in counterclockwise order: turning one gives the
   * next, and turning the last gives the first again.
   */
  lemma CatalogWellFormed()
    ensures forall p, o :: 0 <= p < |PIECES| && 0 <= o < |PIECES[p]| ==> WellFormed(PIECES[p][o])
    ensures forall p, o :: 0 <= p < |PIECES| && 0 <= o < |PIECES[p]| ==>
      Rotate(PIECES[p][o]) == PIECES[p][(o + 1) % |PIECES[p]|]
  {
    IWellFormed();
    IRotations();
    TWellFormed();
    TRotations();
    OWellFormed();
    ORotations();
    JWellFormed();
    JRotations();
    LWellFormed();
    LRotations();
    SWellFormed();
    SRotations();
    ZWellFormed();
    ZRotations();
  }

  lemma TDistinct()
    ensures forall o1, o2 :: 0 <= o1 < o2 < |T_PIECE| ==> T_PIECE[o1] != T_PIECE[o2]
  {
    TRows();
  }

  lemma JDistinct()
    ensures forall o1, o2 :: 0 <= o1 < o2 < |J_PIECE| ==> J_PIECE[o1] != J_PIECE[o2]
  {
    JRows();
  }

  lemma LDistinct()
    ensures forall o1, o2 :: 0 <= o1 < o2 < |L_PIECE| ==> L_PIECE[o1] != L_PIECE[o2]
  {
    LRows();
  }

  lemma SDistinct()
    ensures forall o1, o2 :: 0 <= o1 < o2 < |S_PIECE| ==> S_PIECE[o1] != S_PIECE[o2]
  {
    SRows();
  }

  lemma ZDistinct()
    ensures forall o1, o2 :: 0 <= o1 < o2 < |Z_PIECE| ==> Z_PIECE[o1] != Z_PIECE[o2]
  {
    ZRows();
  }

  /** No piece lists the same orientation twice. */
  lemma CatalogDistinct()
    ensures forall p, o1, o2 :: 0 <= p < |PIECES| && 0 <= o1 < o2 < |PIECES[p]| ==>
      PIECES[p][o1] != PIECES[p][o2]
  {
    IRows();
    TDistinct();
    JDistinct();
    LDistinct();
    SDistinct();
    ZDistinct();
  }

  /**
   * Rows are stored bottom row first: the J piece is drawn as "100" over "111",
   * and its first row is the full bottom line.
   */
  lemma BottomRowFirst()
    ensures J_PIECE[0].orientation == [Parse("111"), Parse("100")]
    ensures J_PIECE[0].orientation[0] == 7
  {
    JRows();
  }
}
