/**
 The framebuffer console: a grid of characters that scrolls, and a framebuffer in which only the rows that
 changed are drawn again. A pixel is an element of a two-dimensional array; `PixelAddresses` relates it to
 the linear buffer.
 */
module Fbcon {
  import opened TraceTypes
  import opened Bits
  import LB = LineBuffer
  import Font

  const FG: u32 := 0xffff_ffff
  const BG: u32 := 0xff00_0000
  const FB_SIZE: nat := 0x100_0000
  const FONT_FIRST: nat := 0x20
  const FONT_LAST: nat := 0x7e

  // ---------------------------------------------------------------- geometry

  datatype Geometry = Geometry(
    width: nat, height: nat, stride: nat,
    fontW: nat, fontH: nat, scale: nat,
    marginTop: nat, marginBottom: nat, marginSide: nat)
  {
    function CellW(): nat { fontW * scale }
    function CellH(): nat { fontH * scale }

    /** The checks of `read_geometry` that concern the framebuffer. */
    predicate Accepted() {
      && width > 0 && height > 0 && stride >= width * 4 && stride % 4 == 0
      && stride * height <= FB_SIZE
      && width > 2 * marginSide && height > marginTop + marginBottom
    }

    function Cols(): nat
      requires CellW() > 0 && width > 2 * marginSide
    {
      (width - 2 * marginSide) / CellW()
    }

    function Rows(): nat
      requires CellH() > 0 && height > marginTop + marginBottom
    {
      (height - marginTop - marginBottom) / CellH()
    }

    function CellX(c: nat): nat { marginSide + c * CellW() }
    function CellY(r: nat): nat { marginTop + r * CellH() }
  }

  /** The address of a pixel, in bytes from the start of the framebuffer. */
  function Address(g: Geometry, x: nat, y: nat): nat {
    y * g.stride + 4 * x
  }

  /** In an accepted geometry, pixels are aligned words inside the buffer, and different pixels do not overlap. */
  lemma {:induction false} PixelAddresses(g: Geometry, x: nat, y: nat, x': nat, y': nat)
    requires g.Accepted() && x < g.width && y < g.height && x' < g.width && y' < g.height
    ensures Address(g, x, y) % 4 == 0 && Address(g, x, y) + 4 <= FB_SIZE
    ensures (x, y) != (x', y') ==> Address(g, x, y) + 4 <= Address(g, x', y') || Address(g, x', y') + 4 <= Address(g, x, y)
  {
    RowsApart(g.stride, y, g.height);
    MultipleOfFour(g.stride, y);
    if y < y' {
      RowsApart(g.stride, y, y');
    } else if y' < y {
      RowsApart(g.stride, y', y);
    }
  }

  lemma {:induction false} RowsApart(stride: nat, y: nat, y': nat)
    requires y < y'
    ensures y * stride + stride <= y' * stride
  {
    assert (y' - y - 1) * stride >= 0;
    assert y' * stride == y * stride + stride + (y' - y - 1) * stride;
  }

  lemma {:induction false} MultipleOfFour(stride: nat, y: nat)
    requires stride % 4 == 0
    ensures y * stride % 4 == 0
  {
    var q := stride / 4;
    assert y * stride == 4 * (y * q);
  }

  /** The text area ends before the right margin and the bottom margin, and no further column or row would fit. */
  lemma {:induction false} TextAreaInside(g: Geometry)
    requires g.Accepted() && g.CellW() > 0 && g.CellH() > 0
    ensures g.CellX(g.Cols()) <= g.width - g.marginSide
    ensures g.CellY(g.Rows()) <= g.height - g.marginBottom
    ensures g.width - g.marginSide < g.CellX(g.Cols()) + g.CellW()
    ensures g.height - g.marginBottom < g.CellY(g.Rows()) + g.CellH()
  {
    DivMod(g.width - 2 * g.marginSide, g.CellW());
    DivMod(g.height - g.marginTop - g.marginBottom, g.CellH());
  }

  /** A cell of the grid lies inside the text area. */
  lemma {:induction false} CellInside(g: Geometry, r: nat, c: nat)
    requires g.Accepted() && g.CellW() > 0 && g.CellH() > 0 && r < g.Rows() && c < g.Cols()
    ensures g.CellX(c) + g.CellW() <= g.CellX(g.Cols()) <= g.width - g.marginSide
    ensures g.CellY(r) + g.CellH() <= g.CellY(g.Rows()) <= g.height - g.marginBottom
  {
    TextAreaInside(g);
    RowsApart(g.CellW(), c, g.Cols());
    RowsApart(g.CellH(), r, g.Rows());
  }

  /** The column of cells that holds a pixel column of the text area. */
  function ColumnOf(g: Geometry, x: nat): (c: nat)
    requires g.CellW() > 0 && g.width > 2 * g.marginSide && g.marginSide <= x < g.CellX(g.Cols())
    ensures c < g.Cols() && g.CellX(c) <= x < g.CellX(c) + g.CellW()
  {
    DivBelow(x - g.marginSide, g.Cols(), g.CellW());
    DivMod(x - g.marginSide, g.CellW());
    (x - g.marginSide) / g.CellW()
  }

  function RowOf(g: Geometry, y: nat): (r: nat)
    requires g.CellH() > 0 && g.height > g.marginTop + g.marginBottom && g.marginTop <= y < g.CellY(g.Rows())
    ensures r < g.Rows() && g.CellY(r) <= y < g.CellY(r) + g.CellH()
  {
    DivBelow(y - g.marginTop, g.Rows(), g.CellH());
    DivMod(y - g.marginTop, g.CellH());
    (y - g.marginTop) / g.CellH()
  }

  lemma {:induction false} FirstCell(g: Geometry, x: nat, y: nat)
    requires g.Accepted() && x < g.CellW() && y < g.CellH() && g.Cols() > 0 && g.Rows() > 0
    ensures g.marginSide + x < g.CellX(g.Cols()) && ColumnOf(g, g.marginSide + x) == 0
    ensures g.marginTop + y < g.CellY(g.Rows()) && RowOf(g, g.marginTop + y) == 0
  {
    CellInside(g, 0, 0);
    ModOf(x, g.CellW(), 0, x);
    ModOf(y, g.CellH(), 0, y);
  }

  // ---------------------------------------------------------------- glyphs

  /** The rows of bits of a character; characters the font lacks are drawn as its first glyph. */
  function GlyphOf(font: seq<seq<nat>>, ch: char): seq<nat>
    requires |font| == FONT_LAST - FONT_FIRST + 1
  {
    var c := ch as int;
    font[if FONT_FIRST <= c <= FONT_LAST then c - FONT_FIRST else 0]
  }

  /** Characters 0x20 to 0x7e have their own glyphs, in order; all others look like a space. */
  lemma {:induction false} GlyphIs(font: seq<seq<nat>>, ch: char)
    requires |font| == 95
    ensures GlyphOf(font, ch) == if 0x20 <= ch as int <= 0x7e then font[ch as int - 0x20] else font[0]
  {
  }

  ghost predicate FontOk(font: seq<seq<nat>>, g: Geometry) {
    && |font| == FONT_LAST - FONT_FIRST + 1
    && forall i :: 0 <= i < |font| ==> |font[i]| == g.fontH
  }

  /** The font's space has no ink. */
  ghost predicate BlankSpace(font: seq<seq<nat>>, g: Geometry) {
    && FontOk(font, g)
    && forall x: nat, y: nat :: x < g.fontW && y < g.fontH ==> !Font.CellInk(g.fontW, font[0], x, y)
  }

  function Ink(g: Geometry, bits: nat, gx: nat): u32
    requires gx < g.fontW
  {
    if Bit(bits, g.fontW - 1 - gx) then FG else BG
  }

  lemma {:induction false} DivBelow(p: nat, n: nat, scale: nat)
    requires scale > 0 && p < n * scale
    ensures p / scale < n
  {
    DivMod(p, scale);
    if p / scale >= n {
      RowsApart(scale, n, p / scale + 1);
    }
  }

  lemma {:induction false} DivExact(k: nat, s: nat, scale: nat)
    requires s < scale
    ensures (k * scale + s) / scale == k
  {
    ModOf(k * scale + s, scale, k, s);
  }

  /** Pixel `x` of a scan line of a glyph: each bit is `scale` pixels wide. */
  function ScanColour(g: Geometry, bits: nat, x: nat): u32
    requires g.scale > 0 && x < g.CellW()
  {
    DivBelow(x, g.fontW, g.scale);
    Ink(g, bits, x / g.scale)
  }

  lemma {:induction false} RunColour(g: Geometry, bits: nat, gx: nat)
    requires g.scale > 0 && gx < g.fontW
    ensures gx * g.scale + g.scale <= g.CellW()
    ensures forall x: nat :: gx * g.scale <= x < gx * g.scale + g.scale ==> ScanColour(g, bits, x) == Ink(g, bits, gx)
  {
    RowsApart(g.scale, gx, g.fontW);
    forall x: nat | gx * g.scale <= x < gx * g.scale + g.scale
      ensures ScanColour(g, bits, x) == Ink(g, bits, gx)
    {
      DivExact(gx, x - gx * g.scale, g.scale);
    }
  }

  /** The colour of pixel (x, y) of the cell of `ch`: each row of the glyph is `scale` pixels high. */
  function Colour(g: Geometry, font: seq<seq<nat>>, ch: char, x: nat, y: nat): u32
    requires g.scale > 0 && |font| == FONT_LAST - FONT_FIRST + 1 && |GlyphOf(font, ch)| == g.fontH
    requires x < g.CellW() && y < g.CellH()
  {
    DivBelow(y, g.fontH, g.scale);
    ScanColour(g, GlyphOf(font, ch)[y / g.scale], x)
  }

  lemma {:induction false} RowColour(g: Geometry, font: seq<seq<nat>>, ch: char, gy: nat)
    requires FontOk(font, g) && g.scale > 0 && gy < g.fontH
    ensures gy * g.scale + g.scale <= g.CellH()
    ensures forall x: nat, y: nat :: x < g.CellW() && gy * g.scale <= y < gy * g.scale + g.scale ==>
              Colour(g, font, ch, x, y) == ScanColour(g, GlyphOf(font, ch)[gy], x)
  {
    RowsApart(g.scale, gy, g.fontH);
    forall x: nat, y: nat | x < g.CellW() && gy * g.scale <= y < gy * g.scale + g.scale
      ensures Colour(g, font, ch, x, y) == ScanColour(g, GlyphOf(font, ch)[gy], x)
    {
      DivExact(gy, y - gy * g.scale, g.scale);
    }
  }

  /**
   From the BDF file to the screen: if a character's glyph is what `Place` made of a BDF bitmap, then pixel
   (x, y) of its cell is foreground exactly where the bitmap, enlarged `scale` times and moved to its place
   in the cell, has ink.
   */
  lemma {:induction false} DrawnBdf(g: Geometry, font: seq<seq<nat>>, ch: char, cell: Font.Box, bbx: Font.Box, rows: seq<nat>, x: nat, y: nat)
    requires FontOk(font, g) && g.scale > 0 && x < g.CellW() && y < g.CellH()
    requires cell.w == g.fontW && cell.h == g.fontH
    requires forall cx: nat, cy: nat :: cx < cell.w && cy < cell.h ==>
               (Font.CellInk(cell.w, GlyphOf(font, ch), cx, cy)
                <==> Font.BdfInk(bbx, rows, cx - Font.Left(cell, bbx), cy - Font.Top(cell, bbx)))
    ensures Colour(g, font, ch, x, y) in {0xffff_ffff, 0xff00_0000}
    ensures Colour(g, font, ch, x, y) == 0xffff_ffff
            <==> Font.BdfInk(bbx, rows, x / g.scale - Font.Left(cell, bbx), y / g.scale - Font.Top(cell, bbx))
  {
    DivBelow(x, g.fontW, g.scale);
    DivBelow(y, g.fontH, g.scale);
    assert Font.CellInk(cell.w, GlyphOf(font, ch), x / g.scale, y / g.scale)
           <==> Bit(GlyphOf(font, ch)[y / g.scale], g.fontW - 1 - x / g.scale);
  }

  lemma {:induction false} SpaceIsBlank(g: Geometry, font: seq<seq<nat>>)
    requires BlankSpace(font, g) && g.scale > 0
    ensures forall x: nat, y: nat :: x < g.CellW() && y < g.CellH() ==> Colour(g, font, ' ', x, y) == BG
  {
    forall x: nat, y: nat | x < g.CellW() && y < g.CellH()
      ensures Colour(g, font, ' ', x, y) == BG
    {
      DivBelow(x, g.fontW, g.scale);
      DivBelow(y, g.fontH, g.scale);
      assert !Font.CellInk(g.fontW, font[0], x / g.scale, y / g.scale);
    }
  }

  // ---------------------------------------------------------------- the console

  class Console {
    const g: Geometry
    const font: seq<seq<nat>>
    const rows: nat
    const cols: nat
    const grid: array2<char>
    const dirty: array<bool>
    const fb: array2<u32>
    var scrolled: bool
    var curRow: nat
    var curCol: nat

    /** What `read_geometry` establishes, with at least one row and one column. */
    ghost predicate Shape()
      reads this`curRow, this`curCol
    {
      && g.Accepted() && g.fontW > 0 && g.fontH > 0 && g.scale > 0 && g.CellW() > 0 && g.CellH() > 0
      && rows == g.Rows() > 0 && cols == g.Cols() > 0 && FontOk(font, g)
      && grid.Length0 == rows && grid.Length1 == cols && dirty.Length == rows
      && fb.Length0 == g.height && fb.Length1 == g.width
      && curRow < rows && curCol <= cols
    }

    ghost function Row(r: nat): (s: seq<char>)
      requires r < grid.Length0
      reads grid
      ensures |s| == grid.Length1 && forall c :: 0 <= c < |s| ==> s[c] == grid[r, c]
    {
      seq(grid.Length1, c requires 0 <= c < grid.Length1 reads grid => grid[r, c])
    }

    predicate Stale(r: nat)
      requires r < dirty.Length
      reads this, dirty
    {
      scrolled || dirty[r]
    }

    // ------------------------------------------------------------ the terminal

    /** The grid and the cursor are the last lines of the buffer. */
    ghost predicate Shows(b: LB.Buffer)
      reads this`curRow, this`curCol, grid
    {
      && Shape() && LB.Sane(b, cols)
      && curRow + LB.TopLine(b, rows) == |b.lines| - 1 && curCol == b.col
      && forall r: nat, c: nat :: r < rows && c < cols ==> grid[r, c] == LB.CharAt(b, LB.TopLine(b, rows) + r, c)
    }

    /** `scroll_grid`: every row moves up one, and the last becomes blank. */
    method ScrollGrid()
      requires Shape()
      modifies grid, this`scrolled
      ensures forall r, c :: 0 <= r < rows && 0 <= c < cols ==>
                grid[r, c] == if r < rows - 1 then old(grid[r + 1, c]) else ' '
      ensures scrolled
    {
      for r := 1 to rows
        invariant forall i, c :: 0 <= i < r - 1 && 0 <= c < cols ==> grid[i, c] == old(grid[i + 1, c])
        invariant forall i, c :: r - 1 <= i < rows && 0 <= c < cols ==> grid[i, c] == old(grid[i, c])
      {
        CopyRowUp(r);
      }
      var last := rows - 1;
      for c := 0 to cols
        invariant forall i, k :: 0 <= i < last && 0 <= k < cols ==> grid[i, k] == old(grid[i + 1, k])
        invariant forall k :: 0 <= k < c ==> grid[last, k] == ' '
      {
        grid[last, c] := ' ';
      }
      scrolled := true;
    }

    method CopyRowUp(r: nat)
      requires Shape() && 0 < r < rows
      modifies grid
      ensures forall i, c :: 0 <= i < rows && 0 <= c < cols ==>
                grid[i, c] == if i == r - 1 then old(grid[r, c]) else old(grid[i, c])
    {
      for c := 0 to cols
        invariant forall i, k :: 0 <= i < rows && 0 <= k < cols ==>
                    grid[i, k] == if i == r - 1 && k < c then old(grid[r, k]) else old(grid[i, k])
      {
        grid[r - 1, c] := grid[r, c];
      }
    }

    /** Rows that are clean now were clean before, and hold what they held. */
    twostate predicate CleanRowsKept()
      reads this, grid, dirty
    {
      && grid.Length0 == rows == dirty.Length && grid.Length1 == cols
      && forall r: nat :: r < rows && !Stale(r) ==> old(!Stale(r)) && Row(r) == old(Row(r))
    }

    method NewLine(ghost b: LB.Buffer)
      requires Shows(b)
      modifies this, grid
      ensures Shows(LB.NewLine(b)) && CleanRowsKept()
      ensures forall r :: 0 <= r < rows ==> dirty[r] == old(dirty[r])
    {
      curCol := 0;
      if curRow + 1 < rows {
        curRow := curRow + 1;
      } else {
        ScrollGrid();
      }
    }

    /** Stores a character at the cursor of a line that has room. */
    method StoreChar(ch: char, ghost b: LB.Buffer)
      requires Shows(b) && curCol < cols
      modifies this`curCol, grid, dirty
      ensures Shows(LB.WriteAt(b, ch)) && CleanRowsKept()
    {
      grid[curRow, curCol] := ch;
      curCol := curCol + 1;
      dirty[curRow] := true;
    }

    method PutPrintable(ch: char, ghost b: LB.Buffer)
      requires Shows(b)
      modifies this, grid, dirty
      ensures Shows(LB.Print(b, cols, ch)) && CleanRowsKept()
    {
      if curCol >= cols {
        NewLine(b);
        StoreChar(ch, LB.NewLine(b));
      } else {
        StoreChar(ch, b);
      }
    }

    /** `put`: typing a byte does to the grid what it does to the line buffer. */
    method Put(ch: char, ghost b: LB.Buffer)
      requires Shows(b)
      modifies this, grid, dirty
      ensures Shows(LB.Type(b, cols, ch)) && CleanRowsKept()
    {
      if ch == '\n' {
        NewLine(b);
      } else if ch == '\r' {
        curCol := 0;
      } else if ch == '\t' {
        for i := 0 to LB.TAB_WIDTH
          invariant Shows(LB.PrintSpaces(b, cols, i)) && CleanRowsKept()
        {
          PutPrintable(' ', LB.PrintSpaces(b, cols, i));
        }
      } else if LB.Printable(ch) {
        PutPrintable(ch, b);
      }
    }

    // ------------------------------------------------------------ the screen

    /** The cell at (r, c) of the screen shows `ch`. */
    ghost predicate CellDrawn(r: nat, c: nat, ch: char)
      requires Shape() && r < rows && c < cols
      reads this`curRow, this`curCol, fb
    {
      CellInside(g, r, c);
      forall y, x :: g.CellY(r) <= y < g.CellY(r) + g.CellH() && g.CellX(c) <= x < g.CellX(c) + g.CellW() ==>
        fb[y, x] == Colour(g, font, ch, x - g.CellX(c), y - g.CellY(r))
    }

    ghost predicate RowDrawn(r: nat)
      requires Shape() && r < rows
      reads this`curRow, this`curCol, grid, fb
    {
      forall c: nat :: c < cols ==> CellDrawn(r, c, grid[r, c])
    }

    /** Whether a pixel lies in the text area. */
    predicate InText(x: nat, y: nat)
      requires Shape()
      reads this`curRow, this`curCol
    {
      g.marginSide <= x < g.CellX(cols) && g.marginTop <= y < g.CellY(rows)
    }

    ghost predicate MarginsBlank()
      requires Shape()
      reads this`curRow, this`curCol, fb
    {
      forall y: nat, x: nat :: y < g.height && x < g.width && !InText(x, y) ==> fb[y, x] == BG
    }

    /** What rendering relies on: a row that is not stale is already on the screen. */
    ghost predicate Fresh()
      reads this, grid, dirty, fb
    {
      Shape() && MarginsBlank() && forall r: nat :: r < rows && !Stale(r) ==> RowDrawn(r)
    }

    /** The pixel that drawing the whole grid on a blank screen gives. */
    ghost function FullRedraw(x: nat, y: nat): u32
      requires Shape() && x < g.width && y < g.height
      reads this`curRow, this`curCol, grid
    {
      if InText(x, y) then
        var c, r := ColumnOf(g, x), RowOf(g, y);
        Colour(g, font, grid[r, c], x - g.CellX(c), y - g.CellY(r))
      else
        BG
    }

    ghost predicate ScreenIsGrid()
      reads this`curRow, this`curCol, grid, fb
    {
      Shape() && forall y: nat, x: nat :: y < g.height && x < g.width ==> fb[y, x] == FullRedraw(x, y)
    }

    lemma {:induction false} RowsMakeScreen()
      requires Shape() && MarginsBlank() && forall r: nat :: r < rows ==> RowDrawn(r)
      ensures ScreenIsGrid()
    {
      forall y: nat, x: nat | y < g.height && x < g.width
        ensures fb[y, x] == FullRedraw(x, y)
      {
        if InText(x, y) {
          var c, r := ColumnOf(g, x), RowOf(g, y);
          assert RowDrawn(r);
          assert CellDrawn(r, c, grid[r, c]);
        }
      }
    }

    /** One bit of a glyph, on one scan line. */
    method DrawRun(y: nat, x0: nat, colour: u32)
      requires Shape() && y < g.height && x0 + g.scale <= g.width
      modifies fb
      ensures forall i, j :: 0 <= i < g.height && 0 <= j < g.width ==>
                fb[i, j] == if i == y && x0 <= j < x0 + g.scale then colour else old(fb[i, j])
    {
      for sx := 0 to g.scale
        invariant forall i, j :: 0 <= i < g.height && 0 <= j < g.width ==>
                    fb[i, j] == if i == y && x0 <= j < x0 + sx then colour else old(fb[i, j])
      {
        fb[y, x0 + sx] := colour;
      }
    }

    method DrawScanline(y: nat, x0: nat, bits: nat)
      requires Shape() && y < g.height && x0 + g.CellW() <= g.width
      modifies fb
      ensures forall i, j :: 0 <= i < g.height && 0 <= j < g.width ==>
                fb[i, j] == if i == y && x0 <= j < x0 + g.CellW() then ScanColour(g, bits, j - x0) else old(fb[i, j])
    {
      var px := x0;
      for gx := 0 to g.fontW
        invariant px == x0 + gx * g.scale <= x0 + g.CellW()
        invariant forall i, j :: 0 <= i < g.height && 0 <= j < g.width ==>
                    fb[i, j] == if i == y && x0 <= j < px then ScanColour(g, bits, j - x0) else old(fb[i, j])
      {
        RowsApart(g.scale, gx, g.fontW);
        RunColour(g, bits, gx);
        DrawRun(y, px, Ink(g, bits, gx));
        px := px + g.scale;
      }
    }

    /** One row of a glyph: `scale` scan lines. */
    method DrawGlyphRow(y0: nat, x0: nat, bits: nat)
      requires Shape() && y0 + g.scale <= g.height && x0 + g.CellW() <= g.width
      modifies fb
      ensures forall i, j :: 0 <= i < g.height && 0 <= j < g.width ==>
                fb[i, j] == if y0 <= i < y0 + g.scale && x0 <= j < x0 + g.CellW() then ScanColour(g, bits, j - x0) else old(fb[i, j])
    {
      for sy := 0 to g.scale
        invariant forall i, j :: 0 <= i < g.height && 0 <= j < g.width ==>
                    fb[i, j] == if y0 <= i < y0 + sy && x0 <= j < x0 + g.CellW() then ScanColour(g, bits, j - x0) else old(fb[i, j])
      {
        DrawScanline(y0 + sy, x0, bits);
      }
    }

    method DrawGlyphAt(y0: nat, x0: nat, ch: char)
      requires Shape() && y0 + g.CellH() <= g.height && x0 + g.CellW() <= g.width
      modifies fb
      ensures forall i, j :: 0 <= i < g.height && 0 <= j < g.width ==>
                fb[i, j] == if y0 <= i < y0 + g.CellH() && x0 <= j < x0 + g.CellW() then Colour(g, font, ch, j - x0, i - y0) else old(fb[i, j])
    {
      var glyph := GlyphOf(font, ch);
      var py := y0;
      for gy := 0 to g.fontH
        invariant py == y0 + gy * g.scale <= y0 + g.CellH()
        invariant forall i, j :: 0 <= i < g.height && 0 <= j < g.width ==>
                    fb[i, j] == if y0 <= i < py && x0 <= j < x0 + g.CellW() then Colour(g, font, ch, j - x0, i - y0) else old(fb[i, j])
      {
        RowColour(g, font, ch, gy);
        DrawGlyphRow(py, x0, glyph[gy]);
        py := py + g.scale;
      }
    }

    /** `draw_glyph` paints the cell at (r, c) and nothing else. */
    method DrawGlyph(r: nat, c: nat, ch: char)
      requires Shape() && r < rows && c < cols
      modifies fb
      ensures CellDrawn(r, c, ch)
      ensures forall i, j :: 0 <= i < g.height && 0 <= j < g.width ==>
                || (g.CellY(r) <= i < g.CellY(r) + g.CellH() && g.CellX(c) <= j < g.CellX(c) + g.CellW())
                || fb[i, j] == old(fb[i, j])
    {
      CellInside(g, r, c);
      DrawGlyphAt(g.CellY(r), g.CellX(c), ch);
    }

    /** `draw_row` draws row `r` of the grid, and changes no pixel outside its band of the text area. */
    method DrawRow(r: nat)
      requires Shape() && r < rows
      modifies fb
      ensures RowDrawn(r)
      ensures forall i, j :: 0 <= i < g.height && 0 <= j < g.width ==>
                || (g.CellY(r) <= i < g.CellY(r) + g.CellH() && g.marginSide <= j < g.CellX(cols))
                || fb[i, j] == old(fb[i, j])
    {
      for c := 0 to cols
        invariant forall k: nat :: k < c ==> CellDrawn(r, k, grid[r, k])
        invariant forall i, j :: 0 <= i < g.height && 0 <= j < g.width ==>
                    || (g.CellY(r) <= i < g.CellY(r) + g.CellH() && g.marginSide <= j < g.CellX(cols))
                    || fb[i, j] == old(fb[i, j])
      {
        DrawNext(r, c);
      }
    }

    /** Drawing one more cell of a row keeps the cells on its left. */
    method DrawNext(r: nat, c: nat)
      requires Shape() && r < rows && c < cols
      requires forall k: nat :: k < c ==> CellDrawn(r, k, grid[r, k])
      modifies fb
      ensures forall k: nat :: k <= c ==> CellDrawn(r, k, grid[r, k])
      ensures forall i, j :: 0 <= i < g.height && 0 <= j < g.width ==>
                || (g.CellY(r) <= i < g.CellY(r) + g.CellH() && g.marginSide <= j < g.CellX(cols))
                || fb[i, j] == old(fb[i, j])
    {
      DrawGlyph(r, c, grid[r, c]);
      CellInside(g, r, c);
      forall k: nat | k < c
        ensures CellDrawn(r, k, grid[r, k])
      {
        RowsApart(g.CellW(), k, c);
        CellInside(g, r, k);
        assert old(CellDrawn(r, k, grid[r, k]));
      }
    }

    /** Nothing outside the band of row `r` has changed on the screen. */
    twostate predicate OutsideBandKept(r: nat)
      requires Shape() && r < rows
      reads this, fb
    {
      forall i, j :: 0 <= i < g.height && 0 <= j < g.width ==>
        || (g.CellY(r) <= i < g.CellY(r) + g.CellH() && g.marginSide <= j < g.CellX(cols))
        || fb[i, j] == old(fb[i, j])
    }

    twostate lemma {:induction false} MarginsKept(r: nat)
      requires old(Shape()) && Shape() && r < rows && OutsideBandKept(r) && old(MarginsBlank())
      ensures MarginsBlank()
    {
      CellInside(g, r, 0);
      forall y: nat, x: nat | y < g.height && x < g.width && !InText(x, y)
        ensures fb[y, x] == BG
      {
        assert g.marginTop <= g.CellY(r) && g.CellY(r) + g.CellH() <= g.CellY(rows);
        assert fb[y, x] == old(fb[y, x]);
      }
    }

    /** Rows above `r`, and rows that are not stale, are on the screen. */
    ghost predicate DrawnBefore(r: nat)
      requires Shape()
      reads this, grid, dirty, fb
    {
      MarginsBlank() && forall k: nat :: k < rows ==> k < r || !Stale(k) ==> RowDrawn(k)
    }

    twostate lemma {:induction false} OtherRowsKept(r: nat)
      requires old(Shape()) && Shape() && r < rows && OutsideBandKept(r)
      requires forall k: nat, c: nat :: k < rows && c < cols ==> grid[k, c] == old(grid[k, c])
      ensures forall k: nat :: k < rows && k != r && old(RowDrawn(k)) ==> RowDrawn(k)
    {
      forall k: nat, c: nat | k < rows && c < cols && k != r && old(RowDrawn(k))
        ensures CellDrawn(k, c, grid[k, c])
      {
        RowsApart(g.CellH(), if k < r then k else r, if k < r then r else k);
        CellInside(g, k, c);
        assert old(CellDrawn(k, c, grid[k, c]));
      }
    }

    twostate lemma {:induction false} DrawnBeforeNext(r: nat)
      requires old(Shape()) && Shape() && r < rows && old(DrawnBefore(r)) && OutsideBandKept(r) && RowDrawn(r)
      requires forall k: nat :: k < rows && !Stale(k) ==> k == r || old(!Stale(k))
      requires forall k: nat, c: nat :: k < rows && c < cols ==> grid[k, c] == old(grid[k, c])
      ensures DrawnBefore(r + 1)
    {
      MarginsKept(r);
      OtherRowsKept(r);
    }

    method RenderRow(r: nat)
      requires Shape() && r < rows && DrawnBefore(r)
      modifies fb, dirty
      ensures DrawnBefore(r + 1)
      ensures forall k: nat :: k < rows ==> dirty[k] == (old(dirty[k]) && k != r)
    {
      if scrolled || dirty[r] {
        DrawRow(r);
      }
      dirty[r] := false;
      DrawnBeforeNext(r);
    }

    method RenderRows()
      requires Shape() && DrawnBefore(0)
      modifies dirty, fb
      ensures DrawnBefore(rows) && forall k: nat :: k < rows ==> !dirty[k]
    {
      for r := 0 to rows
        invariant DrawnBefore(r) && forall k: nat :: k < r ==> !dirty[k]
      {
        RenderRow(r);
      }
    }

    /** `render` draws only the rows that changed; the screen is then the one that a full redraw gives. */
    method Render()
      requires Fresh()
      modifies this`scrolled, dirty, fb
      ensures ScreenIsGrid() && Fresh()
      ensures forall r: nat :: r < rows ==> !Stale(r)
    {
      RenderRows();
      scrolled := false;
      assert DrawnBefore(rows);
      RowsMakeScreen();
    }

    // ------------------------------------------------------------ whole runs

    twostate lemma {:induction false} FreshKept()
      requires old(Fresh()) && Shape() && CleanRowsKept()
      requires forall i, j :: 0 <= i < g.height && 0 <= j < g.width ==> fb[i, j] == old(fb[i, j])
      ensures Fresh()
    {
      forall r: nat, c: nat | r < rows && c < cols && !Stale(r)
        ensures CellDrawn(r, c, grid[r, c])
      {
        assert old(RowDrawn(r)) && old(CellDrawn(r, c, grid[r, c]));
        assert Row(r)[c] == old(Row(r))[c];
        CellInside(g, r, c);
      }
    }

    /** Typing one byte leaves every row that is still clean on the screen. */
    method PutFresh(ch: char, ghost b: LB.Buffer)
      requires Shows(b) && Fresh()
      modifies this, grid, dirty
      ensures Shows(LB.Type(b, cols, ch)) && Fresh()
    {
      Put(ch, b);
      FreshKept();
    }

    method ClearPixels()
      requires Shape()
      modifies fb
      ensures forall i, j :: 0 <= i < g.height && 0 <= j < g.width ==> fb[i, j] == BG
    {
      for y := 0 to g.height
        invariant forall i, j :: 0 <= i < y && 0 <= j < g.width ==> fb[i, j] == BG
      {
        for x := 0 to g.width
          invariant forall i, j :: 0 <= i < y && 0 <= j < g.width ==> fb[i, j] == BG
          invariant forall j :: 0 <= j < x ==> fb[y, j] == BG
        {
          fb[y, x] := BG;
        }
      }
    }

    method ClearGrid()
      requires Shape()
      modifies grid
      ensures forall i, k :: 0 <= i < rows && 0 <= k < cols ==> grid[i, k] == ' '
    {
      for r := 0 to rows
        invariant forall i, k :: 0 <= i < r && 0 <= k < cols ==> grid[i, k] == ' '
      {
        for c := 0 to cols
          invariant forall i, k :: 0 <= i < r && 0 <= k < cols ==> grid[i, k] == ' '
          invariant forall k :: 0 <= k < c ==> grid[r, k] == ' '
        {
          grid[r, c] := ' ';
        }
      }
    }

    /** `clear_screen`: a blank grid on a blank screen; the space glyph has no ink, so nothing is left to draw. */
    method ClearScreen()
      requires Shape() && BlankSpace(font, g) && curRow == curCol == 0 && !scrolled
      requires forall r :: 0 <= r < rows ==> !dirty[r]
      modifies fb, grid
      ensures Shows(LB.EMPTY) && Fresh() && ScreenIsGrid()
    {
      ClearPixels();
      ClearGrid();
      BlankIsDrawn();
    }

    lemma {:induction false} BlankIsDrawn()
      requires Shape() && BlankSpace(font, g)
      requires forall i, j :: 0 <= i < g.height && 0 <= j < g.width ==> fb[i, j] == BG
      requires forall r, c :: 0 <= r < rows && 0 <= c < cols ==> grid[r, c] == ' '
      ensures Fresh() && ScreenIsGrid()
    {
      forall r: nat, c: nat | r < rows && c < cols
        ensures CellDrawn(r, c, grid[r, c])
      {
        CellInside(g, r, c);
        SpaceIsBlank(g, font);
      }
      RowsMakeScreen();
    }

    /** The blank space is also needed: otherwise the cleared screen is not a drawing of the blank grid. */
    lemma {:induction false} BlankSpaceNeeded()
      requires ScreenIsGrid()
      requires forall i, j :: 0 <= i < g.height && 0 <= j < g.width ==> fb[i, j] == BG
      requires forall r, c :: 0 <= r < rows && 0 <= c < cols ==> grid[r, c] == ' '
      ensures BlankSpace(font, g)
    {
      CellInside(g, 0, 0);
      forall gx: nat, gy: nat | gx < g.fontW && gy < g.fontH
        ensures !Font.CellInk(g.fontW, font[0], gx, gy)
      {
        RunColour(g, font[0][gy], gx);
        RowColour(g, font, ' ', gy);
        var x, y := g.marginSide + gx * g.scale, g.marginTop + gy * g.scale;
        FirstCell(g, gx * g.scale, gy * g.scale);
        assert fb[y, x] == FullRedraw(x, y);
      }
    }

    /** A fresh console, cleared. */
    constructor (g: Geometry, font: seq<seq<nat>>)
      requires g.Accepted() && g.fontW > 0 && g.fontH > 0 && g.scale > 0 && g.CellW() > 0 && g.CellH() > 0
      requires g.Rows() > 0 && g.Cols() > 0 && BlankSpace(font, g)
      ensures this.g == g && this.font == font && fresh(grid) && fresh(dirty) && fresh(fb)
      ensures Shows(LB.EMPTY) && Fresh() && ScreenIsGrid()
    {
      this.g := g;
      this.font := font;
      rows := g.Rows();
      cols := g.Cols();
      grid := new char[g.Rows(), g.Cols()];
      dirty := new bool[g.Rows()](_ => false);
      fb := new u32[g.height, g.width];
      scrolled := false;
      curRow := 0;
      curCol := 0;
      new;
      ClearScreen();
    }

    /**
     One wake-up of the console: it types every byte of the ring and then draws. Whatever came before, the
     grid is then the end of the line buffer of the whole stream, and the screen is a full redraw of it.
     */
    method Notified(input: string, ghost seen: string)
      requires Shape() && Shows(LB.TypeAll(seen, cols)) && Fresh() && ScreenIsGrid()
      modifies this, grid, dirty, fb
      ensures Shape() && Shows(LB.TypeAll(seen + input, cols)) && Fresh() && ScreenIsGrid()
    {
      var tail := 0;
      assert seen + input[..0] == seen;
      while tail != |input|
        invariant tail <= |input| && Shape()
        invariant Shows(LB.TypeAll(seen + input[..tail], cols)) && Fresh()
        invariant tail == 0 ==> ScreenIsGrid()
        decreases |input| - tail
      {
        PutFresh(input[tail], LB.TypeAll(seen + input[..tail], cols));
        LB.TypeOneMore(seen, input, tail, cols);
        tail := tail + 1;
      }
      assert input[..tail] == input;
      if tail != 0 {
        Render();
      }
    }
  }
}
