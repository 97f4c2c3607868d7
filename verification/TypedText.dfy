/** What a typed stream looks like on the unbounded terminal, said of the codes of its characters. */
module TypedText {
  import opened LineBuffer
  import opened TextPieces

  /** The codes that show a character. */
  predicate Shows(c: char) {
    0x20 <= c as int <= 0x7e
  }

  predicate IsText(s: string) {
    forall i :: 0 <= i < |s| ==> Shows(s[i])
  }

  lemma {:induction false} TypeLast(s: string, c: char, cols: nat)
    requires cols > 0
    ensures TypeAll(s + [c], cols) == Type(TypeAll(s, cols), cols, c)
  {
    assert (s + [c])[..|s|] == s;
  }

  // ---------------------------------------------------------------- single bytes

  /** A line feed opens a line. */
  lemma {:induction false} NewLineTyped(s: string, cols: nat)
    requires cols > 0
    ensures TypeAll(s + "\n", cols) == Buffer(TypeAll(s, cols).lines + [""], 0)
  {
    TypeLast(s, '\n', cols);
  }

  /** `b'` is `b` with `c` at the cursor, over what was there; behind a full line, on a new line. */
  ghost predicate Written(b: Buffer, b': Buffer, cols: nat, c: char) {
    && b.lines != [] && b.col <= |Last(b.lines)|
    && if b.col == cols then b' == Buffer(b.lines + [[c]], 1)
       else && b'.lines != [] && AllButLast(b'.lines) == AllButLast(b.lines) && b'.col == b.col + 1
            && Replaced(Last(b.lines), Last(b'.lines), b.col, c)
  }

  /** `line'` is `line` with `c` at column `k`, which may be just behind it. */
  ghost predicate Replaced(line: string, line': string, k: nat, c: char) {
    && |line'| == (if k == |line| then k + 1 else |line|)
    && k < |line'| && line'[k] == c
    && forall i :: 0 <= i < |line| && i != k ==> line'[i] == line[i]
  }

  lemma {:induction false} PrintWrites(b: Buffer, cols: nat, c: char)
    requires cols > 0 && Sane(b, cols)
    ensures Written(b, Print(b, cols, c), cols, c)
  {
    if b.col == cols {
      assert Overwrite("", 0, c) == [c];
    } else {
      var b' := WriteAt(b, c);
      assert AllButLast(b'.lines) == AllButLast(b.lines);
    }
  }

  /** A character goes to the cursor. */
  lemma {:induction false} TextTyped(s: string, cols: nat, c: char)
    requires cols > 0 && Shows(c)
    ensures Written(TypeAll(s, cols), TypeAll(s + [c], cols), cols, c)
  {
    TypeLast(s, c, cols);
    PrintWrites(TypeAll(s, cols), cols, c);
  }

  /** A carriage return goes back to the first column and keeps the text. */
  lemma {:induction false} ReturnTyped(s: string, cols: nat)
    requires cols > 0
    ensures TypeAll(s + "\r", cols) == Buffer(TypeAll(s, cols).lines, 0)
  {
    TypeLast(s, '\r', cols);
  }

  /** So the next character overwrites the first one of the line. */
  lemma {:induction false} ReturnOverwrites(s: string, cols: nat, c: char)
    requires cols > 0 && Shows(c)
    ensures var b := TypeAll(s, cols); var b' := TypeAll(s + "\r" + [c], cols);
            && b.lines != [] && b'.lines != [] && AllButLast(b'.lines) == AllButLast(b.lines) && b'.col == 1
            && Replaced(Last(b.lines), Last(b'.lines), 0, c)
  {
    ReturnTyped(s, cols);
    TextTyped(s + "\r", cols, c);
  }

  /** A tab is four spaces. */
  lemma {:induction false} TabTyped(s: string, cols: nat)
    requires cols > 0
    ensures TypeAll(s + "\t", cols) == TypeAll(s + "    ", cols)
  {
    TypeLast(s, '\t', cols);
    SpacesTyped(s, cols, 4);
    assert Blanks(4) == "    ";
  }

  function Blanks(n: nat): string {
    seq(n, _ => ' ')
  }

  lemma {:induction false} SpacesTyped(s: string, cols: nat, n: nat)
    requires cols > 0
    ensures TypeAll(s + Blanks(n), cols) == PrintSpaces(TypeAll(s, cols), cols, n)
    decreases n
  {
    if n == 0 {
      assert s + Blanks(0) == s;
    } else {
      var t := s + Blanks(n - 1);
      SpacesTyped(s, cols, n - 1);
      TypeLast(t, ' ', cols);
      OneMoreBlank(s, n);
    }
  }

  lemma {:induction false} OneMoreBlank(s: string, n: nat)
    requires n > 0
    ensures s + Blanks(n) == (s + Blanks(n - 1)) + [' ']
  {
  }

  /** Any other byte changes nothing. */
  lemma {:induction false} OtherTyped(s: string, cols: nat, c: char)
    requires cols > 0 && !Shows(c) && c as int !in {9, 10, 13}
    ensures TypeAll(s + [c], cols) == TypeAll(s, cols)
  {
    TypeLast(s, c, cols);
  }

  // ---------------------------------------------------------------- whole texts

  /** Text and line feeds. */
  predicate IsLines(s: string) {
    forall i :: 0 <= i < |s| ==> Shows(s[i]) || s[i] == '\n'
  }

  /** The lines of a text, between its line feeds. */
  function Segments(s: string): (segs: seq<string>)
    ensures segs != []
  {
    if s == "" then [""]
    else
      var segs, c := Segments(s[..|s| - 1]), s[|s| - 1];
      if c == '\n' then segs + [""] else AllButLast(segs) + [Last(segs) + [c]]
  }

  /** Every line, wrapped at `cols`. */
  function Wrapped(segs: seq<string>, cols: nat): seq<string>
    requires cols > 0
  {
    if segs == [] then [] else Wrapped(AllButLast(segs), cols) + Pieces(Last(segs), cols)
  }

  lemma {:induction false} SegmentsOneMore(front: string, c: char)
    ensures var segs := Segments(front);
            Segments(front + [c]) == if c == '\n' then segs + [""] else AllButLast(segs) + [Last(segs) + [c]]
  {
    assert (front + [c])[..|front|] == front;
  }

  /** The terminal holds these lines, wrapped at its width, with the cursor behind the last character. */
  ghost predicate Wraps(b: Buffer, segs: seq<string>, cols: nat)
    requires cols > 0
  {
    b.lines == Wrapped(segs, cols) && b.lines != [] && b.col == |Last(b.lines)|
  }

  lemma {:induction false} LinesTyped(s: string, cols: nat)
    requires cols > 0 && IsLines(s)
    ensures Wraps(TypeAll(s, cols), Segments(s), cols)
    decreases |s|
  {
    if s == "" {
      NoneWrapped(cols);
    } else {
      var front, c := s[..|s| - 1], s[|s| - 1];
      LinesTyped(front, cols);
      SegmentsOneMore(front, c);
      TypeLast(front, c, cols);
      LineStep(TypeAll(front, cols), Segments(front), cols, c);
      assert front + [c] == s;
    }
  }

  lemma {:induction false} NoneWrapped(cols: nat)
    requires cols > 0
    ensures Wraps(EMPTY, [""], cols)
  {
    assert Wrapped([""], cols) == Wrapped([], cols) + Pieces("", cols);
  }

  lemma {:induction false} LineStep(b: Buffer, segs: seq<string>, cols: nat, c: char)
    requires cols > 0 && (Shows(c) || c == '\n') && segs != [] && Sane(b, cols) && Wraps(b, segs, cols)
    ensures Wraps(Type(b, cols, c), if c == '\n' then segs + [""] else AllButLast(segs) + [Last(segs) + [c]], cols)
  {
    if c == '\n' {
      assert AllButLast(segs + [""]) == segs;
    } else {
      CharTyped(b, segs, cols, c);
    }
  }

  lemma {:induction false} CharTyped(b: Buffer, segs: seq<string>, cols: nat, c: char)
    requires cols > 0 && segs != [] && Sane(b, cols) && Wraps(b, segs, cols)
    ensures Wraps(Print(b, cols, c), AllButLast(segs) + [Last(segs) + [c]], cols)
  {
    var segs', last := AllButLast(segs) + [Last(segs) + [c]], Last(segs);
    assert AllButLast(segs') == AllButLast(segs) && Last(segs') == last + [c];
    PiecesOneMore(last, c, cols);
    PrintAppends(b, cols, c);
    Extended(Wrapped(AllButLast(segs), cols), Pieces(last, cols), c, cols);
  }

  /** Lines whose last one is extended, or followed by a new one when it is full. */
  function Extend(lines: seq<string>, c: char, cols: nat): seq<string>
    requires lines != []
  {
    if |Last(lines)| == cols then lines + [[c]] else AllButLast(lines) + [Last(lines) + [c]]
  }

  lemma {:induction false} Extended(above: seq<string>, ps: seq<string>, c: char, cols: nat)
    requires ps != []
    ensures Extend(above + ps, c, cols) == above + Extend(ps, c, cols)
  {
    LastOfBoth(above, ps);
  }

  lemma {:induction false} LastOfBoth(a: seq<string>, b: seq<string>)
    requires b != []
    ensures Last(a + b) == Last(b) && AllButLast(a + b) == a + AllButLast(b)
  {
  }

  /** With the cursor behind the last character, printing extends the last line or begins a new one. */
  lemma {:induction false} PrintAppends(b: Buffer, cols: nat, c: char)
    requires cols > 0 && Sane(b, cols) && b.col == |Last(b.lines)|
    ensures Print(b, cols, c).lines == Extend(b.lines, c, cols)
    ensures Print(b, cols, c).col == |Last(Extend(b.lines, c, cols))|
  {
    if b.col == cols {
      assert Overwrite("", 0, c) == [c];
    } else {
      assert Overwrite(Last(b.lines), b.col, c) == Last(b.lines) + [c];
    }
  }

  /** A text that fits on a line is that line. */
  lemma {:induction false} ShortText(s: string, cols: nat)
    requires cols > 0 && IsText(s) && |s| <= cols
    ensures TypeAll(s, cols) == Buffer([s], |s|)
  {
    LinesTyped(s, cols);
    OneSegment(s);
    assert Wrapped([s], cols) == Wrapped([], cols) + Pieces(s, cols);
  }

  lemma {:induction false} OneSegment(s: string)
    requires IsText(s)
    ensures Segments(s) == [s]
    decreases |s|
  {
    if s != "" {
      OneSegment(s[..|s| - 1]);
      assert s[..|s| - 1] + [s[|s| - 1]] == s;
    }
  }

  function WithoutBreaks(s: string): string {
    if s == "" then "" else WithoutBreaks(s[..|s| - 1]) + if s[|s| - 1] == '\n' then "" else [s[|s| - 1]]
  }

  /** Nothing of a text is lost or moved: its lines, put together, are the text without its line feeds. */
  lemma {:induction false} TextKept(s: string, cols: nat)
    requires cols > 0 && IsLines(s)
    ensures Concat(TypeAll(s, cols).lines) == WithoutBreaks(s)
    ensures forall i :: 0 <= i < |TypeAll(s, cols).lines| ==> |TypeAll(s, cols).lines[i]| <= cols
  {
    LinesTyped(s, cols);
    WrappedKeeps(Segments(s), cols);
    SegmentsKeep(s);
  }

  lemma {:induction false} ConcatAppend(a: seq<string>, b: seq<string>)
    ensures Concat(a + b) == Concat(a) + Concat(b)
    decreases |b|
  {
    if b == [] {
      assert a + b == a;
    } else {
      assert a + b == (a + AllButLast(b)) + [Last(b)];
      ConcatOneMore(a + AllButLast(b), Last(b));
      ConcatAppend(a, AllButLast(b));
    }
  }

  lemma {:induction false} WrappedKeeps(segs: seq<string>, cols: nat)
    requires cols > 0
    ensures Concat(Wrapped(segs, cols)) == Concat(segs)
    decreases |segs|
  {
    if segs != [] {
      WrappedKeeps(AllButLast(segs), cols);
      ConcatAppend(Wrapped(AllButLast(segs), cols), Pieces(Last(segs), cols));
      PiecesHoldText(Last(segs), cols);
    }
  }

  lemma {:induction false} SegmentsKeep(s: string)
    ensures Concat(Segments(s)) == WithoutBreaks(s)
    decreases |s|
  {
    if s == "" {
      ConcatOneMore([], "");
      assert [] + [""] == [""];
    } else {
      var segs, c := Segments(s[..|s| - 1]), s[|s| - 1];
      SegmentsKeep(s[..|s| - 1]);
      if c == '\n' {
        ConcatOneMore(segs, "");
      } else {
        ConcatOneMore(AllButLast(segs), Last(segs) + [c]);
      }
    }
  }
}
