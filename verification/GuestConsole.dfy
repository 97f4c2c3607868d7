/**
 The guest's console, twice: the emulated UART collects the bytes that the guest writes into lines and prints
 them, and the host rebuilds lines from the trace records of the same writes.
 */
module GuestConsole {
  import opened TraceTypes
  import opened TextPieces

  const UFCON: nat := 0x08
  const UTRSTAT: nat := 0x10
  const UFSTAT: nat := 0x18
  const UTXH: nat := 0x20
  const UFCON_FIFOMODE: u64 := 1
  const UTRSTAT_TXE_TXFE: u64 := 6
  const LINE_MAX: nat := 256
  const MMIO_WRITE: u8 := 1

  // ---------------------------------------------------------------- the host

  /** Lines the decoder has finished, and the line it is collecting. */
  datatype Lines = Lines(done: seq<string>, cur: string)

  /** A trace record of a handled write to the transmit register. */
  predicate IsConsoleByte(b: Body, tx: u64) {
    b.kind == KIND_MMIO && b.addr == tx && b.flags % 2 == 1 && b.flags / 4 % 2 == 0
  }

  function ByteOf(value: u64): char {
    (value % 0x100) as char
  }

  function AddByte(l: Lines, c: char): Lines {
    if c == '\n' then Lines(l.done + [l.cur], "") else l.(cur := l.cur + [c])
  }

  function FeedAll(trace: seq<Body>, tx: u64): Lines {
    if trace == [] then Lines([], "")
    else
      var l, b := FeedAll(trace[..|trace| - 1], tx), trace[|trace| - 1];
      if IsConsoleByte(b, tx) then AddByte(l, ByteOf(b.value)) else l
  }

  lemma {:induction false} FeedOneMore(trace: seq<Body>, b: Body, tx: u64)
    ensures FeedAll(trace + [b], tx) ==
            if IsConsoleByte(b, tx) then AddByte(FeedAll(trace, tx), ByteOf(b.value)) else FeedAll(trace, tx)
  {
    assert (trace + [b])[..|trace|] == trace;
  }

  /** The bytes that the guest wrote to the transmit register, from their records. */
  function Stream(trace: seq<Body>, tx: u64): string {
    if trace == [] then ""
    else
      var b := trace[|trace| - 1];
      Stream(trace[..|trace| - 1], tx)
      + if b.kind == 1 && b.addr == tx && (b.flags % 8 == 1 || b.flags % 8 == 3) then [(b.value % 256) as char] else ""
  }

  /** Lines put back together: a line feed behind every finished one. */
  function Unsplit(done: seq<string>): string {
    if done == [] then "" else Unsplit(AllButLast(done)) + Last(done) + "\n"
  }

  ghost predicate Unbroken(s: string) {
    forall i :: 0 <= i < |s| ==> s[i] != '\n'
  }

  /** The decoder's lines are the guest's bytes, broken at the line feeds and nowhere else. */
  lemma {:induction false} LinesAreStream(trace: seq<Body>, tx: u64)
    ensures var l := FeedAll(trace, tx);
            && Unsplit(l.done) + l.cur == Stream(trace, tx)
            && Unbroken(l.cur) && forall i :: 0 <= i < |l.done| ==> Unbroken(l.done[i])
    decreases |trace|
  {
    if trace != [] {
      var front, b := trace[..|trace| - 1], trace[|trace| - 1];
      LinesAreStream(front, tx);
      ConsoleFlags(b.flags);
      if IsConsoleByte(b, tx) {
        ByteAdded(FeedAll(front, tx), ByteOf(b.value));
      }
    }
  }

  lemma {:induction false} ConsoleFlags(flags: u8)
    ensures flags % 2 == 1 && flags / 4 % 2 == 0 <==> flags % 8 == 1 || flags % 8 == 3
  {
  }

  lemma {:induction false} ByteAdded(l: Lines, c: char)
    ensures var l' := AddByte(l, c); Unsplit(l'.done) + l'.cur == Unsplit(l.done) + l.cur + [c]
  {
    if c == '\n' {
      assert AllButLast(l.done + [l.cur]) == l.done;
    }
  }

  /** The decoder's `Console`. */
  class HostConsole {
    const tx: Option<u64>
    var line: string

    constructor (tx: Option<u64>)
      ensures this.tx == tx && line == ""
    {
      this.tx := tx;
      line := "";
    }

    /** `feed` returns the line that this record finishes. */
    method Feed(b: Body, ghost seen: seq<Body>) returns (finished: Option<string>)
      requires tx.Some? ==> line == FeedAll(seen, tx.value).cur
      modifies this
      ensures tx.None? ==> finished.None? && line == old(line)
      ensures tx.Some? ==> var l := FeedAll(seen + [b], tx.value);
                           line == l.cur && l.done == FeedAll(seen, tx.value).done + if finished.Some? then [finished.value] else []
    {
      if tx.None? || b.kind != KIND_MMIO {
        finished := None;
      } else if b.addr != tx.value || b.flags % 2 == 0 || b.flags / 4 % 2 != 0 {
        finished := None;
      } else {
        var c := ByteOf(b.value);
        if c == '\n' {
          finished := Some(line);
          line := "";
        } else {
          line := line + [c];
          finished := None;
        }
      }
      if tx.Some? {
        FeedOneMore(seen, b, tx.value);
      }
    }
  }

  // ---------------------------------------------------------------- what the VMM prints for a line

  function StripCr(s: string): string {
    if s == "" then ""
    else StripCr(s[..|s| - 1]) + if s[|s| - 1] == '\r' then "" else [s[|s| - 1]]
  }

  /** A line in pieces of 255 characters; the last piece is not empty unless the line is. */
  function Chunks(s: string): (cs: seq<string>)
    ensures cs != []
  {
    Pieces(s, LINE_MAX - 1)
  }

  /** The pieces hold the line, in order, and are 255 characters long, except for the last. */
  lemma {:induction false} ChunksHoldTheLine(s: string)
    ensures Concat(Chunks(s)) == s
    ensures forall i :: 0 <= i < |Chunks(s)| - 1 ==> |Chunks(s)[i]| == 255
    ensures |Last(Chunks(s))| <= 255 && (s != "" ==> Last(Chunks(s)) != "")
  {
    PiecesHoldText(s, LINE_MAX - 1);
  }

  /** `printf` stops at a NUL. */
  function Visible(s: string): string {
    if s == "" || s[0] == '\0' then "" else [s[0]] + Visible(s[1..])
  }

  /** What is printed is the text up to its first NUL. */
  lemma {:induction false} VisibleIsPrefix(s: string)
    ensures var v := Visible(s);
            && v <= s && (forall i :: 0 <= i < |v| ==> v[i] as int != 0) && (|v| < |s| ==> s[|v|] as int == 0)
    decreases |s|
  {
    if s != "" && s[0] != '\0' {
      VisibleIsPrefix(s[1..]);
    }
  }

  function VisibleAll(cs: seq<string>): seq<string> {
    seq(|cs|, i requires 0 <= i < |cs| => Visible(cs[i]))
  }

  function PrintedFor(done: seq<string>): seq<string> {
    if done == [] then []
    else PrintedFor(done[..|done| - 1]) + VisibleAll(Chunks(StripCr(done[|done| - 1])))
  }

  /** Everything printed, given the lines that the decoder rebuilds. */
  function Printed(l: Lines): seq<string> {
    PrintedFor(l.done) + VisibleAll(AllButLast(Chunks(StripCr(l.cur))))
  }

  function Buffered(l: Lines): string {
    Last(Chunks(StripCr(l.cur)))
  }

  function AfterFlush(printed: seq<string>, buf: string): seq<string> {
    printed + [Visible(buf)]
  }

  lemma {:induction false} FlushAtNewline(l: Lines)
    ensures Printed(AddByte(l, '\n')) == AfterFlush(Printed(l), Buffered(l)) && Buffered(AddByte(l, '\n')) == ""
  {
    var cs := Chunks(StripCr(l.cur));
    var done := l.done + [l.cur];
    assert done[..|done| - 1] == l.done;
    VisibleLast(cs);
    assert VisibleAll(AllButLast(Chunks(""))) == [];
  }

  lemma {:induction false} StripOneMore(s: string, c: char)
    ensures StripCr(s + [c]) == if c == '\r' then StripCr(s) else StripCr(s) + [c]
  {
    assert (s + [c])[..|s|] == s;
  }

  lemma {:induction false} VisibleLast(cs: seq<string>)
    requires cs != []
    ensures VisibleAll(cs) == VisibleAll(AllButLast(cs)) + [Visible(Last(cs))]
  {
  }

  lemma {:induction false} StepOfByte(l: Lines, c: char)
    requires c != '\n'
    ensures |Buffered(l)| <= LINE_MAX - 1
    ensures c == '\r' ==> Printed(AddByte(l, c)) == Printed(l) && Buffered(AddByte(l, c)) == Buffered(l)
    ensures c != '\r' && |Buffered(l)| < LINE_MAX - 1 ==>
              Printed(AddByte(l, c)) == Printed(l) && Buffered(AddByte(l, c)) == Buffered(l) + [c]
    ensures c != '\r' && |Buffered(l)| == LINE_MAX - 1 ==>
              Printed(AddByte(l, c)) == AfterFlush(Printed(l), Buffered(l)) && Buffered(AddByte(l, c)) == [c]
  {
    var s := StripCr(l.cur);
    var cs := Chunks(s);
    StripOneMore(l.cur, c);
    PiecesOneMore(s, c, LINE_MAX - 1);
    if c != '\r' {
      var more := Chunks(s + [c]);
      if |Last(cs)| < LINE_MAX - 1 {
        assert AllButLast(more) == AllButLast(cs) && Last(more) == Last(cs) + [c];
      } else {
        assert AllButLast(more) == cs && Last(more) == [c];
        VisibleLast(cs);
      }
    }
  }

  // ---------------------------------------------------------------- the emulated UART

  /** What a guest reads: the transmitter is always ready, and nothing is ever received. */
  function RegisterValue(offset: nat): u64 {
    if offset == UFCON then UFCON_FIFOMODE else if offset == UTRSTAT then UTRSTAT_TXE_TXFE else 0
  }

  /** Output goes to 0x20. UFCON: FIFO mode. UTRSTAT: transmitter and its FIFO empty. UFSTAT: nothing received, nothing to send. */
  lemma {:induction false} RegistersRead()
    ensures UTXH == 0x20 && RegisterValue(0x08) == 0x1 && RegisterValue(0x10) == 0x6 && RegisterValue(0x18) == 0x0
  {
  }

  class GuestUart {
    const gpa: u64
    const line: array<char>
    var lineLen: nat
    var printed: seq<string>
    var trace: seq<Body>

    /** The printed lines and the line buffer follow from what the decoder makes of the trace. */
    ghost predicate Valid()
      reads this, line
    {
      && gpa + UTXH < TWO64 && line.Length == LINE_MAX && lineLen < LINE_MAX
      && var l := FeedAll(trace, gpa + UTXH);
         printed == Printed(l) && line[..lineLen] == Buffered(l)
    }

    constructor (gpa: u64)
      requires gpa + UTXH < TWO64
      ensures Valid() && this.gpa == gpa && trace == [] && printed == [] && fresh(line)
    {
      this.gpa := gpa;
      line := new char[LINE_MAX];
      lineLen := 0;
      printed := [];
      trace := [];
    }

    method Flush()
      requires line.Length == LINE_MAX && lineLen < LINE_MAX
      modifies this`lineLen, this`printed, line
      ensures lineLen == 0 && printed == AfterFlush(old(printed), old(line[..lineLen]))
    {
      line[lineLen] := '\0';
      printed := printed + [Visible(line[..lineLen])];
      assert line[..lineLen] == old(line[..lineLen]);
      lineLen := 0;
    }

    /** `console_putc`, right after the record of the same byte. */
    method Putc(c: char, ghost l: Lines)
      requires line.Length == LINE_MAX && lineLen < LINE_MAX && printed == Printed(l) && line[..lineLen] == Buffered(l)
      modifies this`lineLen, this`printed, line
      ensures lineLen < LINE_MAX && printed == Printed(AddByte(l, c)) && line[..lineLen] == Buffered(AddByte(l, c))
    {
      if c != '\n' {
        StepOfByte(l, c);
      } else {
        FlushAtNewline(l);
      }
      if c == '\r' {
        return;
      }
      if c == '\n' {
        Flush();
        return;
      }
      if lineLen == LINE_MAX - 1 {
        Flush();
      }
      Append(c);
    }

    method Append(c: char)
      requires line.Length == LINE_MAX && lineLen < LINE_MAX - 1
      modifies this`lineLen, line
      ensures lineLen == old(lineLen) + 1 && line[..lineLen] == old(line[..lineLen]) + [c]
    {
      line[lineLen] := c;
      lineLen := lineLen + 1;
      assert line[..lineLen] == line[..lineLen - 1] + [c];
    }

    /** `uart_fault`: only a write to UTXH reaches the console; every access that is handled is traced. */
    method UartFault(isWrite: bool, offset: nat, value: u64, pc: u64, fsr: u64, width: u8, vcpu: u16) returns (handled: bool)
      requires Valid() && gpa + offset < TWO64
      modifies this`lineLen, this`printed, this`trace, line
      ensures Valid()
      ensures handled <==> if isWrite then offset == UTXH else offset in {UFCON, UTRSTAT, UFSTAT}
      ensures !handled ==> trace == old(trace) && printed == old(printed)
      ensures handled ==>
                trace == old(trace) + [Body(pc, gpa + offset, if isWrite then value else RegisterValue(offset),
                                            fsr % 0x1_0000_0000, vcpu, KIND_MMIO, width, if isWrite then MMIO_WRITE else 0)]
    {
      ghost var l := FeedAll(trace, gpa + UTXH);
      if isWrite {
        if offset != UTXH {
          return false;
        }
        var b := Body(pc, gpa + offset, value, fsr % 0x1_0000_0000, vcpu, KIND_MMIO, width, MMIO_WRITE);
        FeedOneMore(trace, b, gpa + UTXH);
        trace := trace + [b];
        Putc(ByteOf(value), l);
      } else {
        var val: u64;
        if offset == UFCON {
          val := UFCON_FIFOMODE;
        } else if offset == UTRSTAT {
          val := UTRSTAT_TXE_TXFE;
        } else if offset == UFSTAT {
          val := 0;
        } else {
          return false;
        }
        OtherRecord(Body(pc, gpa + offset, val, fsr % 0x1_0000_0000, vcpu, KIND_MMIO, width, 0));
      }
      handled := true;
    }

    /** Any other record of the trace. */
    method OtherRecord(b: Body)
      requires Valid() && !IsConsoleByte(b, gpa + UTXH)
      modifies this`trace
      ensures Valid() && trace == old(trace) + [b]
    {
      FeedOneMore(trace, b, gpa + UTXH);
      trace := trace + [b];
    }
  }

  // ---------------------------------------------------------------- short lines

  predicate Plain(s: string) {
    |s| <= 255 && forall i :: 0 <= i < |s| ==> s[i] as int != 13 && s[i] as int != 0
  }

  lemma {:induction false} Stripped(s: string)
    ensures |StripCr(s)| <= |s|
    ensures |StripCr(s)| == |s| ==> StripCr(s) == s && forall i :: 0 <= i < |s| ==> s[i] != '\r'
    ensures (forall i :: 0 <= i < |s| ==> s[i] != '\r') ==> StripCr(s) == s
    decreases |s|
  {
    if s != "" {
      Stripped(s[..|s| - 1]);
    }
  }

  lemma {:induction false} Shown(s: string)
    ensures |Visible(s)| <= |s|
    ensures |Visible(s)| == |s| ==> forall i :: 0 <= i < |s| ==> s[i] != '\0'
    ensures (forall i :: 0 <= i < |s| ==> s[i] != '\0') ==> Visible(s) == s
    decreases |s|
  {
    if s != "" {
      Shown(s[1..]);
      if |Visible(s)| == |s| {
        forall i | 0 <= i < |s|
          ensures s[i] != '\0'
        {
          assert i > 0 ==> s[i] == s[1..][i - 1];
        }
      }
    }
  }

  /** The VMM prints a line as the decoder rebuilds it exactly when it is short and holds no CR and no NUL. */
  lemma {:induction false} LinePrintedExactly(s: string)
    ensures VisibleAll(Chunks(StripCr(s))) == [s] <==> Plain(s)
  {
    Stripped(s);
    Shown(StripCr(s));
    var cs := Chunks(StripCr(s));
    assert VisibleAll(cs)[0] == Visible(cs[0]);
  }

  /** So a console of such lines is printed exactly as the decoder rebuilds it. */
  lemma {:induction false} PlainLinesPrinted(done: seq<string>)
    requires forall i :: 0 <= i < |done| ==> Plain(done[i])
    ensures PrintedFor(done) == done
  {
    if done != [] {
      PlainLinesPrinted(done[..|done| - 1]);
      LinePrintedExactly(done[|done| - 1]);
    }
  }
}
