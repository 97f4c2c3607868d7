/** What a terminal shows, without a screen: an unbounded list of lines and a cursor in the last one. */
module LineBuffer {
  const TAB_WIDTH: nat := 4

  datatype Buffer = Buffer(lines: seq<string>, col: nat)

  const EMPTY: Buffer := Buffer([""], 0)

  /** Lines are at most `cols` wide, and the cursor is in the last line or just behind it. */
  ghost predicate Sane(b: Buffer, cols: nat) {
    && b.lines != [] && b.col <= |LastLine(b)|
    && forall i :: 0 <= i < |b.lines| ==> |b.lines[i]| <= cols
  }

  function LastLine(b: Buffer): string
    requires b.lines != []
  {
    b.lines[|b.lines| - 1]
  }

  function NewLine(b: Buffer): Buffer {
    Buffer(b.lines + [""], 0)
  }

  /** Overwrites the character at `col`, or appends one. */
  function Overwrite(line: string, col: nat, c: char): string
    requires col <= |line|
  {
    line[..col] + [c] + if col < |line| then line[col + 1..] else ""
  }

  function WriteAt(b: Buffer, c: char): Buffer
    requires b.lines != [] && b.col <= |LastLine(b)|
  {
    Buffer(b.lines[|b.lines| - 1 := Overwrite(LastLine(b), b.col, c)], b.col + 1)
  }

  /** A full line wraps only when the next character comes. */
  ghost function Print(b: Buffer, cols: nat, c: char): (b': Buffer)
    requires cols > 0 && Sane(b, cols)
    ensures Sane(b', cols)
  {
    if b.col >= cols then WriteAt(NewLine(b), c) else WriteAt(b, c)
  }

  ghost function PrintSpaces(b: Buffer, cols: nat, n: nat): (b': Buffer)
    requires cols > 0 && Sane(b, cols)
    ensures Sane(b', cols)
  {
    if n == 0 then b else Print(PrintSpaces(b, cols, n - 1), cols, ' ')
  }

  predicate Printable(c: char) {
    ' ' <= c <= '~'
  }

  /** One byte: line feed, carriage return, tab, a printable character, or a byte that shows nothing. */
  ghost function Type(b: Buffer, cols: nat, c: char): (b': Buffer)
    requires cols > 0 && Sane(b, cols)
    ensures Sane(b', cols)
  {
    if c == '\n' then NewLine(b)
    else if c == '\r' then b.(col := 0)
    else if c == '\t' then PrintSpaces(b, cols, TAB_WIDTH)
    else if Printable(c) then Print(b, cols, c)
    else b
  }

  /** A whole stream, from an empty terminal. */
  ghost function TypeAll(s: string, cols: nat): (b: Buffer)
    requires cols > 0
    ensures Sane(b, cols)
  {
    if s == "" then EMPTY else Type(TypeAll(s[..|s| - 1], cols), cols, s[|s| - 1])
  }

  lemma {:induction false} TypeOneMore(seen: string, input: string, n: nat, cols: nat)
    requires cols > 0 && n < |input|
    ensures TypeAll(seen + input[..n + 1], cols) == Type(TypeAll(seen + input[..n], cols), cols, input[n])
  {
    var s := seen + input[..n + 1];
    assert s[..|s| - 1] == seen + input[..n];
  }

  /** The character of line `i` at column `c`: lines are padded with spaces, and there are blank lines below. */
  function CharAt(b: Buffer, i: nat, c: nat): char {
    if i < |b.lines| && c < |b.lines[i]| then b.lines[i][c] else ' '
  }

  /** The first line still on a screen of `rows` rows. */
  function TopLine(b: Buffer, rows: nat): nat {
    if |b.lines| <= rows then 0 else |b.lines| - rows
  }
}
