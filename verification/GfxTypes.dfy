/** The drawing types every component shares (components/stark_gfx/include/stark_gfx.h). */
module GfxTypes {
  const INT16_MAX := 32767

  type int16 = v: int | -32768 <= v <= 32767
  type Colour = v: int | 0 <= v < 0x1_0000

  /** Empty when w or h is not positive. */
  datatype Rect = Rect(x: int16, y: int16, w: int16, h: int16)

  /** Half-open: [x0, x1) x [y0, y1). */
  datatype Box = Box(x0: int, y0: int, x1: int, y1: int)

  predicate Has(b: Box, x: int, y: int) {
    b.x0 <= x < b.x1 && b.y0 <= y < b.y1
  }

  predicate InRect(x: int, y: int, w: int, h: int, px: int, py: int) {
    x <= px < x + w && y <= py < y + h
  }

  /** Offset of buffer pixel (col, row) in a row-major buffer of width w. */
  function Idx(w: nat, col: nat, row: nat): nat {
    row * w + col
  }

  lemma {:induction false} RowsApart(w: nat, a: nat, b: nat)
    requires a < b
    ensures a * w + w <= b * w
  {
    assert b * w - (a + 1) * w == (b - a - 1) * w;
    assert (a + 1) * w == a * w + w;
  }

  lemma {:induction false} IdxInside(w: nat, h: nat, col: nat, row: nat)
    requires col < w && row < h
    ensures Idx(w, col, row) < w * h
  {
    RowsApart(w, row, h);
  }

  lemma {:induction false} IdxInjective(w: nat, col: nat, row: nat, col2: nat, row2: nat)
    requires col < w && col2 < w && Idx(w, col, row) == Idx(w, col2, row2)
    ensures col == col2 && row == row2
  {
    if row < row2 {
      RowsApart(w, row, row2);
    } else if row2 < row {
      RowsApart(w, row2, row);
    }
  }

  /** No other pixel of the buffer shares (col, row)'s offset. */
  lemma {:induction false} IdxAlone(w: nat, h: nat, col: nat, row: nat)
    requires col < w && row < h
    ensures Idx(w, col, row) < w * h
    ensures forall col2: nat, row2: nat :: col2 < w && Idx(w, col2, row2) == Idx(w, col, row) ==>
              col2 == col && row2 == row
  {
    IdxInside(w, h, col, row);
    forall col2: nat, row2: nat | col2 < w && Idx(w, col2, row2) == Idx(w, col, row)
      ensures col2 == col && row2 == row
    {
      IdxInjective(w, col, row, col2, row2);
    }
  }
}
