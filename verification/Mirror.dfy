/**
 The tracer's copy of the console for the framebuffer: a ring that drops bytes when it is full and reports
 how many. The framebuffer console empties it concurrently: the tail may have moved at each load.
 Fewer than 2^64 bytes are ever printed.
 */
module Mirror {
  import opened TraceTypes
  import Decimal
  import RingIndex

  const NOTICE_HEAD: string := "\n[fbcon dropped "
  const NOTICE_TAIL: string := " bytes]\n"

  /** What stands in the ring for `n` bytes that were dropped. */
  function Notice(n: nat): string {
    NOTICE_HEAD + Decimal.Digits(n) + NOTICE_TAIL
  }

  /** The notice says in decimal how many bytes were dropped. */
  lemma {:induction false} NoticeReads(n: nat)
    ensures exists digits :: Decimal.AllDigits(digits) && Decimal.Value(digits) == n
                             && Notice(n) == "\n[fbcon dropped " + digits + " bytes]\n"
  {
    Decimal.ValueOfDigits(n);
    var digits := Decimal.Digits(n);
    assert Notice(n) == "\n[fbcon dropped " + digits + " bytes]\n";
  }

  /** The console stream as the mirror saw it: bytes it kept and runs of consecutive bytes it lost. */
  datatype Pieces = Nothing | Kept(before: Pieces, c: char) | Lost(before: Pieces, bytes: string)

  /** The bytes in the ring: a notice replaces each lost run. */
  function Shown(p: Pieces): string {
    match p
    case Nothing => ""
    case Kept(before, c) => Shown(before) + [c]
    case Lost(before, bytes) => Shown(before) + Notice(|bytes|)
  }

  /** The console stream itself. */
  function Original(p: Pieces): string {
    match p
    case Nothing => ""
    case Kept(before, c) => Original(before) + [c]
    case Lost(before, bytes) => Original(before) + bytes
  }

  /** Every reported run is non-empty, so every notice counts bytes that are really missing. */
  predicate Honest(p: Pieces) {
    match p
    case Nothing => true
    case Kept(before, _) => Honest(before)
    case Lost(before, bytes) => Honest(before) && bytes != ""
  }

  function KeptBytes(p: Pieces): nat {
    match p
    case Nothing => 0
    case Kept(before, _) => KeptBytes(before) + 1
    case Lost(before, _) => KeptBytes(before)
  }

  /** The sum of the numbers in the notices. */
  function Reported(p: Pieces): nat {
    match p
    case Nothing => 0
    case Kept(before, _) => Reported(before)
    case Lost(before, bytes) => Reported(before) + |bytes|
  }

  /** Every console byte is either shown or counted in a notice. */
  lemma {:induction false} BytesConserved(p: Pieces)
    ensures |Original(p)| == KeptBytes(p) + Reported(p)
  {
    match p
    case Nothing =>
    case Kept(before, _) => BytesConserved(before);
    case Lost(before, _) => BytesConserved(before);
  }

  lemma {:induction false} DigitsBound(n: nat, k: nat)
    requires n < Decimal.Pow10(k) && k > 0
    ensures |Decimal.Digits(n)| <= k
  {
    if n >= 10 {
      DigitsBound(n / 10, k - 1);
    }
  }

  /** 64 bytes of room suffice for any notice and the byte after it. */
  lemma {:induction false} NoticeFits(n: u64)
    ensures |Notice(n)| + 1 <= 45 <= 64
  {
    Decimal.TwentyDigits();
    DigitsBound(n, 20);
  }

  class Ring {
    const buf: array<char>
    var head: nat             // published to the reader
    var tail: nat
    var dropped: nat
    var pending: bool
    ghost var announced: nat  // the head when the reader was last notified
    ghost var text: string    // every byte ever put into the ring
    ghost var stream: string  // every console byte
    ghost var pieces: Pieces
    ghost var lost: string    // the bytes dropped since the last notice

    /** The undrained bytes lie in their slots. */
    ghost predicate Window(t: string, lo: nat, hi: nat)
      reads buf
    {
      && buf.Length == CONSOLE_CAPACITY && hi <= |t|
      && forall i: nat :: lo <= i < hi ==> buf[i % CONSOLE_CAPACITY] == t[i]
    }

    /**
     The ring never holds more than its capacity, its window is the text's, the text is the stream with a
     notice for each lost run, and the stream is what the text stands for followed by the unreported bytes.
     */
    ghost predicate Valid()
      reads this, buf
    {
      && buf.Length == CONSOLE_CAPACITY
      && head == |text| && tail <= head <= tail + CONSOLE_CAPACITY
      && Window(text, tail, head)
      && Shown(pieces) == text && Honest(pieces)
      && Original(pieces) + lost == stream && |lost| == dropped
      && announced <= head && (announced < head ==> pending)
    }

    constructor ()
      ensures Valid() && stream == "" && text == "" && fresh(buf)
    {
      buf := new char[CONSOLE_CAPACITY];
      head, tail, dropped, pending := 0, 0, 0, false;
      announced, text, stream, pieces, lost := 0, "", "", Nothing, "";
    }

    /** `mirror_store`: appends at the writer's own head, which is not yet published. */
    method Store(h: nat, s: string, ghost t: string) returns (h': nat)
      requires buf.Length == CONSOLE_CAPACITY && |t| == h
      requires tail <= h && h + |s| <= tail + CONSOLE_CAPACITY
      requires Window(t, tail, h)
      modifies buf
      ensures h' == h + |s| && Window(t + s, tail, h')
    {
      h' := h;
      for k := 0 to |s|
        invariant h' == h + k && Window(t + s, tail, h')
      {
        forall i: nat | tail <= i < h' ensures i % CONSOLE_CAPACITY != h' % CONSOLE_CAPACITY {
          RingIndex.DifferentSlots(i, h', CONSOLE_CAPACITY);
        }
        buf[h' % CONSOLE_CAPACITY] := s[k];
        h' := h' + 1;
      }
    }

    method StoreNotice(h: nat, digits: string, ghost t: string) returns (h': nat)
      requires buf.Length == CONSOLE_CAPACITY && |t| == h && tail <= h && |digits| <= 20
      requires h + 64 <= tail + CONSOLE_CAPACITY && Window(t, tail, h)
      modifies buf
      ensures h' == h + |NOTICE_HEAD| + |digits| + |NOTICE_TAIL| && Window(t + (NOTICE_HEAD + digits + NOTICE_TAIL), tail, h')
    {
      ghost var t1 := t + NOTICE_HEAD;
      ghost var t2 := t1 + digits;
      h' := Store(h, NOTICE_HEAD, t);
      h' := Store(h', digits, t1);
      h' := Store(h', NOTICE_TAIL, t2);
      assert t + (NOTICE_HEAD + digits + NOTICE_TAIL) == t2 + NOTICE_TAIL;
    }

    /** `mirror_report_dropped` */
    method ReportDropped(h: nat) returns (h': nat)
      requires Valid() && h == head && 0 < dropped < TWO64 && h + 64 <= tail + CONSOLE_CAPACITY
      modifies buf, this`dropped
      ensures h' == h + |Notice(old(dropped))| && h' + 1 <= tail + CONSOLE_CAPACITY && dropped == 0
      ensures Window(text + Notice(old(dropped)), tail, h')
    {
      NoticeFits(dropped);
      var digits := Decimal.PutDecimal(dropped);
      assert Notice(dropped) == NOTICE_HEAD + digits + NOTICE_TAIL;
      h' := StoreNotice(h, digits, text);
      dropped := 0;
    }

    /**
     `mirror_putc`: `seen1` and `seen2` are the tails that its two loads find. The byte is stored, after a
     notice if bytes were lost and there is room for both, or it is counted as lost.
     */
    method Putc(c: char, seen1: nat, seen2: nat)
      requires Valid() && tail <= seen1 <= seen2 <= head && |stream| + 1 < TWO64
      modifies this, buf
      ensures Valid() && stream == old(stream) + [c] && old(tail) <= tail <= seen2
      ensures var drops := if old(dropped) != 0 then old(head) - seen1 + 64 > CONSOLE_CAPACITY
                           else old(head) - seen2 + 1 > CONSOLE_CAPACITY;
              && dropped == (if drops then old(dropped) + 1 else 0)
              && text == old(text) + (if drops then "" else if old(dropped) != 0 then Notice(old(dropped)) + [c] else [c])
    {
      DroppedBound();
      var h := head;
      ghost var t, p, l := text, pieces, lost;
      if dropped != 0 {
        tail := seen1;
        if h - tail + 64 <= CONSOLE_CAPACITY {
          h := ReportDropped(h);
          t := text + Notice(|lost|);
          p := Lost(pieces, lost);
          l := "";
        }
      }
      if dropped == 0 {
        tail := seen2;
      }
      if dropped != 0 || h - tail + 1 > CONSOLE_CAPACITY {
        Lose(c);
        head := h;
        return;
      }
      h := Store(h, [c], t);
      Publish(h, c, t, p, l);
      if c == '\n' {
        NotifyReader();
      }
    }

    /** The byte joins the run of bytes lost since the last notice. */
    method Lose(c: char)
      requires Valid()
      modifies this`dropped, this`lost, this`stream
      ensures Valid() && stream == old(stream) + [c] && dropped == old(dropped) + 1
    {
      dropped := dropped + 1;
      lost := lost + [c];
      stream := stream + [c];
      assert Original(pieces) + lost == stream;
    }

    /** The writer's head, with the byte at its end, becomes visible to the reader. */
    method Publish(h: nat, c: char, ghost t: string, ghost p: Pieces, ghost l: string)
      requires buf.Length == CONSOLE_CAPACITY && |t| + 1 == h && tail <= h <= tail + CONSOLE_CAPACITY
      requires Window(t + [c], tail, h)
      requires Shown(p) == t && Honest(p) && Original(p) + l == stream && l == "" && dropped == 0
      requires announced <= head < h
      modifies this`head, this`text, this`pieces, this`lost, this`stream, this`pending
      ensures stream == old(stream) + [c] && text == t + [c] && head == h
      ensures pending && Valid()
    {
      head, text, pieces, lost := h, t + [c], Kept(p, c), l;
      stream := stream + [c];
      pending := true;
    }

    lemma {:induction false} DroppedBound()
      requires Valid()
      ensures dropped <= |stream|
    {
    }

    /** `mirror_notify`: after it, every byte in the ring has been announced to the reader. */
    method NotifyReader()
      requires Valid()
      modifies this`pending, this`announced
      ensures Valid() && announced == head
    {
      if pending {
        pending := false;
        announced := head;
      }
    }

    /** `drain_ring` on the reader's side, up to a head it has seen: it reads the text, in order. */
    method Drain(upTo: nat) returns (s: string)
      requires Valid() && tail <= upTo <= head
      modifies this`tail
      ensures Valid() && tail == upTo && s == text[old(tail)..upTo]
    {
      s := "";
      var t := tail;
      while t < upTo
        invariant tail <= t <= upTo && s == text[tail..t]
      {
        s := s + [buf[t % CONSOLE_CAPACITY]];
        t := t + 1;
      }
      tail := t;
    }
  }
}
