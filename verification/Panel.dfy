/**
 From the console to the panel: the tracer's mirror and the framebuffer console that reads it, together. The bytes
 that the mirror gives up are the bytes that the terminal shows. Whole calls of the two alternate.
 */
module Panel {
  import opened TraceTypes
  import LB = LineBuffer
  import opened Mirror
  import opened Fbcon

  class Display {
    const ring: Ring
    const console: Console

    /** The terminal has typed the part of the mirror's text that has been drained, and the screen shows it. */
    ghost predicate Valid()
      reads this, ring, ring.buf, console, console.grid, console.dirty, console.fb
    {
      && ring.Valid() && console.Shape() && ring.tail <= |ring.text|
      && console.Shows(LB.TypeAll(ring.text[..ring.tail], console.cols))
      && console.Fresh() && console.ScreenIsGrid()
    }

    constructor (g: Geometry, font: seq<seq<nat>>)
      requires g.Accepted() && g.fontW > 0 && g.fontH > 0 && g.scale > 0 && g.CellW() > 0 && g.CellH() > 0
      requires g.Rows() > 0 && g.Cols() > 0 && BlankSpace(font, g)
      ensures Valid() && ring.stream == ""
      ensures fresh(ring) && fresh(ring.buf) && fresh(console) && fresh(console.grid) && fresh(console.dirty) && fresh(console.fb)
    {
      ring := new Ring();
      console := new Console(g, font);
    }

    /** The tracer prints a byte; the screen does not change. */
    method Print(c: char)
      requires Valid() && |ring.stream| + 1 < TWO64
      modifies ring, ring.buf
      ensures Valid() && ring.stream == old(ring.stream) + [c] && old(ring.text) <= ring.text
    {
      ghost var typed := ring.text[..ring.tail];
      ring.Putc(c, ring.tail, ring.tail);
      assert ring.text[..ring.tail] == typed;
    }

    /** The framebuffer console wakes up and reads up to a head it has seen. */
    method Wake(upTo: nat)
      requires Valid() && ring.tail <= upTo <= ring.head
      modifies ring`tail, console, console.grid, console.dirty, console.fb
      ensures Valid() && ring.tail == upTo && ring.stream == old(ring.stream) && ring.text == old(ring.text)
    {
      ghost var seen := ring.text[..ring.tail];
      var input := ring.Drain(upTo);
      assert seen + input == ring.text[..upTo];
      console.Notified(input, seen);
    }

    /**
     When the framebuffer console has caught up: the grid is the end of the line buffer of the mirror's text, every
     pixel is that of a full redraw, and replacing each notice in the text by the bytes it counts gives the console
     stream, up to the bytes not yet reported.
     */
    lemma {:induction false} CaughtUpShowsStream()
      requires Valid() && ring.tail == ring.head
      ensures console.ScreenIsGrid() && console.Shows(LB.TypeAll(Shown(ring.pieces), console.cols))
      ensures Original(ring.pieces) + ring.lost == ring.stream && |ring.lost| == ring.dropped
      ensures ring.dropped == 0 && NothingLost(ring.pieces) ==> console.Shows(LB.TypeAll(ring.stream, console.cols))
    {
      assert ring.text[..ring.tail] == ring.text;
      if ring.dropped == 0 && NothingLost(ring.pieces) {
        ShownIsOriginal(ring.pieces);
        assert Original(ring.pieces) + "" == Original(ring.pieces);
      }
    }
  }

  predicate NothingLost(p: Pieces) {
    match p
    case Nothing => true
    case Kept(before, _) => NothingLost(before)
    case Lost(_, _) => false
  }

  lemma {:induction false} ShownIsOriginal(p: Pieces)
    requires NothingLost(p)
    ensures Shown(p) == Original(p)
  {
    if p.Kept? {
      ShownIsOriginal(p.before);
    }
  }
}
