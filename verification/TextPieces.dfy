/** Cutting a text into pieces of a given width. */
module TextPieces {
  function AllButLast(cs: seq<string>): seq<string>
    requires cs != []
  {
    cs[..|cs| - 1]
  }

  function Last(cs: seq<string>): string
    requires cs != []
  {
    cs[|cs| - 1]
  }

  function Concat(ss: seq<string>): string {
    if ss == [] then "" else Concat(AllButLast(ss)) + Last(ss)
  }

  /** Full pieces and a last one, which is not empty unless the text is. */
  function Pieces(s: string, width: nat): (cs: seq<string>)
    requires width > 0
    ensures cs != []
    decreases |s|
  {
    if |s| <= width then [s] else [s[..width]] + Pieces(s[width..], width)
  }

  lemma {:induction false} ConcatOneMore(ss: seq<string>, s: string)
    ensures Concat(ss + [s]) == Concat(ss) + s
  {
    assert AllButLast(ss + [s]) == ss;
  }

  lemma {:induction false} ConcatFirst(s: string, ss: seq<string>)
    ensures Concat([s] + ss) == s + Concat(ss)
    decreases |ss|
  {
    if ss == [] {
      assert [s] + ss == [] + [s];
      ConcatOneMore([], s);
    } else {
      assert [s] + ss == ([s] + AllButLast(ss)) + [Last(ss)];
      ConcatFirst(s, AllButLast(ss));
      ConcatOneMore([s] + AllButLast(ss), Last(ss));
    }
  }

  /** The pieces hold the text, in order, and all but the last are full. */
  lemma {:induction false} PiecesHoldText(s: string, width: nat)
    requires width > 0
    ensures Concat(Pieces(s, width)) == s
    ensures forall i :: 0 <= i < |Pieces(s, width)| - 1 ==> |Pieces(s, width)[i]| == width
    ensures |Last(Pieces(s, width))| <= width && (s != "" ==> Last(Pieces(s, width)) != "")
    decreases |s|
  {
    if |s| > width {
      PiecesHoldText(s[width..], width);
      ConcatFirst(s[..width], Pieces(s[width..], width));
      assert s == s[..width] + s[width..];
    } else {
      ConcatOneMore([], s);
      assert [] + [s] == [s];
    }
  }

  /** One more character: it extends the last piece, or begins a new one when that is full. */
  lemma {:induction false} PiecesOneMore(s: string, c: char, width: nat)
    requires width > 0
    ensures |Last(Pieces(s, width))| <= width
    ensures Pieces(s + [c], width) ==
            if |Last(Pieces(s, width))| == width then Pieces(s, width) + [[c]]
            else AllButLast(Pieces(s, width)) + [Last(Pieces(s, width)) + [c]]
    decreases |s|
  {
    var t := s + [c];
    if |s| > width {
      PiecesOneMore(s[width..], c, width);
      assert t[..width] == s[..width];
      assert t[width..] == s[width..] + [c];
    } else if |s| == width {
      assert t[..width] == s && t[width..] == [c];
    }
  }
}
