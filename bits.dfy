/**
 * Row words. The board keeps one integer per row and reads and writes it only
 * through JavaScript's bitwise operators (`&`, `|`, `~`, `<<`, `>>`), which act
 * on the 32 bits of the integer. A row word is modelled here as the natural
 * number those bits spell (bit j, worth 2^j, is column j), and each operator
 * as a function on naturals defined digit by digit: `x % 2` is the lowest
 * bit and `x / 2` the word shifted right by one.
 *
 * `~` and `<<` can produce bits at positions 32 and beyond on unbounded
 * naturals; both truncate to 32 bits here, as JavaScript's ToInt32 does.
 * The source only ever compares a row with 0 or with the full-row mask
 * 2^cols - 1. For boards of up to 31 columns that mask is below 2^31 and
 * every row is a non-negative int32, so reading the 32 bits as unsigned
 * rather than as a two's-complement int32 changes no outcome.
 */
module Bits {

  function Pow2(n: nat): (p: nat)
    ensures p >= 1
  {
    if n == 0 then 1 else 2 * Pow2(n - 1)
  }

  /** Bit `j` of `x` is set (column `j` of row `x` is filled). */
  predicate Bit(x: nat, j: nat)
  {
    if j == 0 then x % 2 == 1 else Bit(x / 2, j - 1)
  }

  /** JavaScript's `x >> j` on a non-negative word. */
  function Shr(x: nat, j: nat): nat
  {
    if j == 0 then x else Shr(x / 2, j - 1)
  }

  /** JavaScript's `a & b`. */
  function And(a: nat, b: nat): (r: nat)
    ensures r <= a && r <= b
  {
    if a == 0 || b == 0 then 0
    else 2 * And(a / 2, b / 2) + (if a % 2 == 1 && b % 2 == 1 then 1 else 0)
  }

  /** JavaScript's `a | b`. */
  function Or(a: nat, b: nat): (r: nat)
    decreases a + b
  {
    if a == 0 then b
    else if b == 0 then a
    else 2 * Or(a / 2, b / 2) + (if a % 2 == 1 || b % 2 == 1 then 1 else 0)
  }

  /** The low `w` bits of `x`. */
  function Trunc(x: nat, w: nat): (r: nat)
    ensures r < Pow2(w)
  {
    if w == 0 then 0 else 2 * Trunc(x / 2, w - 1) + x % 2
  }

  /** The 32 bits JavaScript's ToInt32 keeps of `x`. */
  function Uint32(x: nat): nat
  {
    Trunc(x, 32)
  }

  /** JavaScript's `~x`: the 32-bit complement. */
  function Not32(x: nat): nat
  {
    Pow2(32) - 1 - Uint32(x)
  }

  /** JavaScript's `x << n` for a shift count below 32: n doublings, each truncated to 32 bits. */
  function Shl(x: nat, n: nat): nat
    requires n < 32
  {
    if n == 0 then Uint32(x) else Uint32(2 * Shl(x, n - 1))
  }

  /** The full-row mask `Math.pow(2, cols) - 1`. */
  function FullRow(cols: nat): nat
  {
    Pow2(cols) - 1
  }

  /** A row fits on a board `cols` wide: it has no bit at column `cols` or beyond. */
  predicate Fits(x: nat, cols: nat)
  {
    x < Pow2(cols)
  }

  // ---------------------------------------------------------------------------
  // Bits of the operators

  lemma {:induction false} BitZero(j: nat)
    ensures !Bit(0, j)
  {
    if j > 0 {
      BitZero(j - 1);
    }
  }

  /** `(x >> j) & 1` is 1 exactly when bit j of x is set, and 0 otherwise. */
  lemma {:induction false} ShrAndOne(x: nat, j: nat)
    ensures And(Shr(x, j), 1) == if Bit(x, j) then 1 else 0
  {
    if j > 0 {
      ShrAndOne(x / 2, j - 1);
    }
  }

  lemma {:induction false} AndBit(a: nat, b: nat, j: nat)
    ensures Bit(And(a, b), j) == (Bit(a, j) && Bit(b, j))
  {
    if a == 0 {
      BitZero(j);
    } else if b == 0 {
      BitZero(j);
    } else if j > 0 {
      AndBit(a / 2, b / 2, j - 1);
    }
  }

  lemma {:induction false} OrBit(a: nat, b: nat, j: nat)
    ensures Bit(Or(a, b), j) == (Bit(a, j) || Bit(b, j))
    decreases a + b
  {
    if a == 0 {
      BitZero(j);
    } else if b == 0 {
      BitZero(j);
    } else if j > 0 {
      OrBit(a / 2, b / 2, j - 1);
    }
  }

  lemma {:induction false} TruncBit(x: nat, w: nat, j: nat)
    ensures Bit(Trunc(x, w), j) == (j < w && Bit(x, j))
  {
    if w == 0 {
      BitZero(j);
    } else if j > 0 {
      TruncBit(x / 2, w - 1, j - 1);
    }
  }

  /** Below 2^w, the w-bit complement flips every one of the w bits. */
  lemma {:induction false} ComplementBit(y: nat, w: nat, j: nat)
    requires y < Pow2(w) && j < w
    ensures Bit(Pow2(w) - 1 - y, j) == !Bit(y, j)
  {
    var half := Pow2(w - 1);
    assert Pow2(w) == 2 * half;
    var q, r := y / 2, y % 2;
    assert y == 2 * q + r && q < half;
    assert Pow2(w) - 1 - y == 2 * (half - 1 - q) + (1 - r);
    if j > 0 {
      assert (Pow2(w) - 1 - y) / 2 == half - 1 - q;
      ComplementBit(q, w - 1, j - 1);
    }
  }

  lemma NotBit(x: nat, j: nat)
    requires j < 32
    ensures Bit(Not32(x), j) == !Bit(x, j)
  {
    ComplementBit(Uint32(x), 32, j);
    TruncBit(x, 32, j);
  }

  /** Doubling moves every bit up one column. */
  lemma DoubleBit(y: nat, j: nat)
    ensures Bit(2 * y, j) == (j >= 1 && Bit(y, j - 1))
  {
  }

  /** `x << n` moves column j - n to column j and keeps columns n..31 only. */
  lemma {:induction false} ShlBit(x: nat, n: nat, j: nat)
    requires n < 32
    ensures Bit(Shl(x, n), j) == (n <= j < 32 && Bit(x, j - n))
  {
    if n == 0 {
      TruncBit(x, 32, j);
    } else {
      TruncBit(2 * Shl(x, n - 1), 32, j);
      DoubleBit(Shl(x, n - 1), j);
      if j >= 1 {
        ShlBit(x, n - 1, j - 1);
      }
    }
  }

  lemma {:induction false} FullRowBit(cols: nat, j: nat)
    ensures Bit(FullRow(cols), j) == (j < cols)
  {
    if cols == 0 {
      BitZero(j);
    } else if j > 0 {
      FullRowBit(cols - 1, j - 1);
    }
  }

  /** A non-empty row that fits in `cols` columns shares a cell with the full row. */
  lemma {:induction false} FullRowMeets(x: nat, cols: nat)
    requires x != 0 && Fits(x, cols)
    ensures And(FullRow(cols), x) != 0
  {
    assert cols > 0;
    assert FullRow(cols) / 2 == FullRow(cols - 1);
    if x % 2 == 0 {
      FullRowMeets(x / 2, cols - 1);
    }
  }

  // ---------------------------------------------------------------------------
  // Words that fit in a number of columns

  /** A word that fits in `cols` columns has no bit at column `cols` or beyond. */
  lemma {:induction false} FitsNoHighBit(x: nat, cols: nat, j: nat)
    requires Fits(x, cols) && cols <= j
    ensures !Bit(x, j)
  {
    if cols == 0 {
      BitZero(j);
    } else {
      FitsNoHighBit(x / 2, cols - 1, j - 1);
    }
  }

  lemma {:induction false} OrFits(a: nat, b: nat, cols: nat)
    requires Fits(a, cols) && Fits(b, cols)
    ensures Fits(Or(a, b), cols)
    decreases a + b
  {
    if a != 0 && b != 0 {
      OrFits(a / 2, b / 2, cols - 1);
    }
  }

  lemma {:induction false} FitsMono(x: nat, a: nat, b: nat)
    requires Fits(x, a) && a <= b
    ensures Fits(x, b)
  {
    if a < b {
      FitsMono(x, a, b - 1);
    }
  }

  lemma {:induction false} TruncSmall(x: nat, w: nat)
    requires x < Pow2(w)
    ensures Trunc(x, w) == x
  {
    if w > 0 {
      TruncSmall(x / 2, w - 1);
    }
  }

  /** A row that fits in `w` columns, shifted `n` columns towards higher-numbered columns, fits in `w + n` columns. */
  lemma {:induction false} ShlFits(x: nat, w: nat, n: nat)
    requires n < 32 && w + n <= 32 && Fits(x, w)
    ensures Fits(Shl(x, n), w + n)
  {
    FitsMono(x, w, 32);
    if n == 0 {
      TruncSmall(x, 32);
    } else {
      ShlFits(x, w, n - 1);
      FitsMono(2 * Shl(x, n - 1), w + n, 32);
      TruncSmall(2 * Shl(x, n - 1), 32);
    }
  }

  /** The number of filled columns among columns 0..n-1 of `x`. */
  function CountBits(x: nat, n: nat): (k: nat)
    ensures k <= n
  {
    if n == 0 then 0 else CountBits(x, n - 1) + (if Bit(x, n - 1) then 1 else 0)
  }
}
