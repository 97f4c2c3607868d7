/** Turning a BDF glyph into the rows of bits that the framebuffer console draws. */
module Font {
  import opened TraceTypes
  import opened Bits

  /** A box: width, height, and the offset of its lower left corner. */
  datatype Box = Box(w: nat, h: nat, x: int, y: int)

  function Left(cell: Box, bbx: Box): int {
    bbx.x - cell.x
  }

  function Top(cell: Box, bbx: Box): int {
    (cell.h + cell.y) - (bbx.h + bbx.y)
  }

  /** The glyph lies inside the cell and has one row of bits for each of its rows. */
  predicate Fits(cell: Box, bbx: Box, rows: seq<nat>) {
    && Left(cell, bbx) >= 0 && Top(cell, bbx) >= 0
    && Left(cell, bbx) + bbx.w <= cell.w && Top(cell, bbx) + bbx.h <= cell.h
    && |rows| == bbx.h
  }

  /** BDF rows are padded on the right to whole bytes. */
  function RowBits(w: nat): nat {
    (w + 7) / 8 * 8
  }

  /** The BDF bitmap has ink at column `col` of row `row`, counted from its upper left corner. */
  predicate BdfInk(bbx: Box, rows: seq<nat>, col: int, row: int) {
    && 0 <= row < bbx.h && row < |rows| && 0 <= col < bbx.w
    && Bit(rows[row], RowBits(bbx.w) - 1 - col)
  }

  /** The drawn glyph has ink at (x, y) of its cell: bit `w - 1 - x` of row `y`. */
  predicate CellInk(w: nat, glyph: seq<nat>, x: nat, y: nat)
    requires x < w && y < |glyph|
  {
    Bit(glyph[y], w - 1 - x)
  }

  /** The ink that has been placed once rows before `i`, and columns before `col` of row `i`, are done. */
  predicate Placed(cell: Box, bbx: Box, rows: seq<nat>, i: nat, col: nat, y: int, k: int) {
    var r, c := y - Top(cell, bbx), cell.w - 1 - k - Left(cell, bbx);
    (r < i || (r == i && c < col)) && BdfInk(bbx, rows, c, r)
  }

  /** One more column: only the bit for that column of that row can change. */
  lemma {:induction false} PlaceOne(cell: Box, bbx: Box, rows: seq<nat>, i: nat, col: nat, before: seq<nat>, after: seq<nat>)
    requires Fits(cell, bbx, rows) && i < bbx.h && col < bbx.w && |before| == |after| == cell.h
    requires forall y, k: nat :: 0 <= y < cell.h ==> (Bit(before[y], k) <==> Placed(cell, bbx, rows, i, col, y, k))
    requires after == if BdfInk(bbx, rows, col, i)
                      then before[Top(cell, bbx) + i := Or(before[Top(cell, bbx) + i], Pow2(cell.w - 1 - (Left(cell, bbx) + col)))]
                      else before
    ensures forall y, k: nat :: 0 <= y < cell.h ==> (Bit(after[y], k) <==> Placed(cell, bbx, rows, i, col + 1, y, k))
  {
    forall y, k: nat | 0 <= y < cell.h ensures Bit(after[y], k) <==> Placed(cell, bbx, rows, i, col + 1, y, k) {
      var at, bit := Top(cell, bbx) + i, cell.w - 1 - (Left(cell, bbx) + col);
      if y == at && BdfInk(bbx, rows, col, i) {
        BitOfOr(before[at], Pow2(bit), k);
        BitOfPow2(bit, k);
      }
    }
  }

  /**
   `place`: refuses a glyph that does not fit, and otherwise puts exactly the glyph's ink, at its place in
   the cell, into the cell's rows.
   */
  method Place(cell: Box, bbx: Box, rows: seq<nat>) returns (out: Option<seq<nat>>)
    ensures out.Some? <==> Fits(cell, bbx, rows)
    ensures out.Some? ==> |out.value| == cell.h
    ensures out.Some? ==> forall x: nat, y: nat :: x < cell.w && y < cell.h ==>
              (CellInk(cell.w, out.value, x, y)
               <==> BdfInk(bbx, rows, x - Left(cell, bbx), y - Top(cell, bbx)))
  {
    var left, top := Left(cell, bbx), Top(cell, bbx);
    if left < 0 || top < 0 || left + bbx.w > cell.w || top + bbx.h > cell.h || |rows| != bbx.h {
      return None;
    }
    var bits: seq<nat> := seq(cell.h, _ => 0);
    forall k: nat ensures !Bit(0, k) { BitOfZero(k); }
    for i := 0 to bbx.h
      invariant |bits| == cell.h
      invariant forall y, k: nat :: 0 <= y < cell.h ==> (Bit(bits[y], k) <==> Placed(cell, bbx, rows, i, 0, y, k))
    {
      for col := 0 to bbx.w
        invariant |bits| == cell.h
        invariant forall y, k: nat :: 0 <= y < cell.h ==> (Bit(bits[y], k) <==> Placed(cell, bbx, rows, i, col, y, k))
      {
        ghost var before := bits;
        if Bit(rows[i], RowBits(bbx.w) - 1 - col) {
          bits := bits[top + i := Or(bits[top + i], Pow2(cell.w - 1 - (left + col)))];
        }
        PlaceOne(cell, bbx, rows, i, col, before, bits);
      }
    }
    out := Some(bits);
  }

  // ---------------------------------------------------------------- on the baseline

  /** The glyph has ink at (u, v), counted from the origin on the baseline, v upwards. */
  predicate GlyphInk(bbx: Box, rows: seq<nat>, u: int, v: int) {
    && bbx.x <= u < bbx.x + bbx.w && bbx.y <= v < bbx.y + bbx.h && |rows| == bbx.h
    && Bit(rows[bbx.y + bbx.h - 1 - v], RowBits(bbx.w) - 1 - (u - bbx.x))
  }

  /** Rows are padded to the next multiple of eight bits. */
  lemma {:induction false} RowPadding(w: nat)
    ensures RowBits(w) % 8 == 0 && w <= RowBits(w) < w + 8
  {
  }

  /** A glyph fits exactly when its box lies inside the cell's box and it has a row of bits for each row. */
  lemma {:induction false} FitsExactly(cell: Box, bbx: Box, rows: seq<nat>)
    ensures Fits(cell, bbx, rows) <==>
              && cell.x <= bbx.x && bbx.x + bbx.w <= cell.x + cell.w
              && cell.y <= bbx.y && bbx.y + bbx.h <= cell.y + cell.h && |rows| == bbx.h
  {
  }

  /** What `Place` gives, on the baseline: the cell has ink at (u, v) exactly when the glyph has. */
  lemma {:induction false} PlacedOnBaseline(cell: Box, bbx: Box, rows: seq<nat>, out: seq<nat>, u: int, v: int)
    requires Fits(cell, bbx, rows) && |out| == cell.h
    requires forall x: nat, y: nat :: x < cell.w && y < cell.h ==>
               (CellInk(cell.w, out, x, y) <==> BdfInk(bbx, rows, x - Left(cell, bbx), y - Top(cell, bbx)))
    requires cell.x <= u < cell.x + cell.w && cell.y <= v < cell.y + cell.h
    ensures Bit(out[cell.y + cell.h - 1 - v], cell.w - 1 - (u - cell.x)) <==> GlyphInk(bbx, rows, u, v)
  {
    var x, y := u - cell.x, cell.y + cell.h - 1 - v;
    assert CellInk(cell.w, out, x, y) <==> BdfInk(bbx, rows, x - Left(cell, bbx), y - Top(cell, bbx));
  }
}
