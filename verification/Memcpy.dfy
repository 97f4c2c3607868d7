/** The loader's word-at-a-time `memcpy`. Memory is an array of bytes and an address is an index into it. */
module Memcpy {
  import opened TraceTypes
  import opened Bits

  /** The byte-at-a-time loop that the word copy replaces: memory after its first `n` iterations. */
  function ByteCopy(m: seq<u8>, dst: nat, src: nat, n: nat): (r: seq<u8>)
    requires dst + n <= |m| && src + n <= |m|
    ensures |r| == |m|
  {
    if n == 0 then m
    else var before := ByteCopy(m, dst, src, n - 1); before[dst + n - 1 := before[src + n - 1]]
  }

  /** Memory with the bytes from `at` on replaced by `w`. */
  function Replace(m: seq<u8>, at: nat, w: seq<u8>): (r: seq<u8>)
    requires at + |w| <= |m|
    ensures |r| == |m|
  {
    m[..at] + w + m[at + |w|..]
  }

  /** `copy_width` */
  function CopyWidth(dst: nat, src: nat): (w: nat)
    ensures w == 1 || w == 4 || w == 8
  {
    var misalign := Xor(dst, src);
    if misalign % 8 == 0 then 8 else if misalign % 4 == 0 then 4 else 1
  }

  /** The chosen width is the widest at which source and destination are equally aligned. */
  lemma {:induction false} CopyWidthAligned(dst: nat, src: nat)
    ensures CopyWidth(dst, src) == if dst % 8 == src % 8 then 8 else if dst % 4 == src % 4 then 4 else 1
  {
    assert Pow2(3) == 8 && Pow2(2) == 4 by { assert Pow2(1) == 2; }
    XorModPow2(dst, src, 3);
    XorModPow2(dst, src, 2);
  }

  // ---------------------------------------------------------------- facts about the byte loop

  lemma {:induction false} ByteCopyCompose(m: seq<u8>, dst: nat, src: nat, a: nat, b: nat)
    requires dst + a + b <= |m| && src + a + b <= |m|
    ensures ByteCopy(m, dst, src, a + b) == ByteCopy(ByteCopy(m, dst, src, a), dst + a, src + a, b)
    decreases b
  {
    if b > 0 {
      ByteCopyCompose(m, dst, src, a, b - 1);
    }
  }

  /** Away from a destination above the source, the byte loop copies as if all at once. */
  lemma {:induction false} ByteCopyIsReplace(m: seq<u8>, dst: nat, src: nat, n: nat)
    requires dst + n <= |m| && src + n <= |m|
    requires dst <= src || src + n <= dst
    ensures ByteCopy(m, dst, src, n) == Replace(m, dst, m[src..src + n])
  {
    if n > 0 {
      ByteCopyIsReplace(m, dst, src, n - 1);
      var before := Replace(m, dst, m[src..src + n - 1]);
      assert before[src + n - 1] == m[src + n - 1];
    }
  }

  /** A byte that the loop has written is not written again. */
  lemma {:induction false} ByteCopyAt(m: seq<u8>, dst: nat, src: nat, n: nat, i: nat)
    requires dst + n <= |m| && src + n <= |m| && i < n
    ensures ByteCopy(m, dst, src, n)[dst + i] == ByteCopy(m, dst, src, i)[src + i]
  {
    if i < n - 1 {
      ByteCopyAt(m, dst, src, n - 1, i);
    }
  }

  /** A destination inside the source's range, above its start: some memory is not copied faithfully. */
  lemma {:induction false} OverlapAboveFails(len: nat, dst: nat, src: nat, n: nat) returns (m: seq<u8>)
    requires src < dst < src + n && dst + n <= len
    ensures |m| == len && ByteCopy(m, dst, src, n) != Replace(m, dst, m[src..src + n])
  {
    m := seq(len, i => if i == src then 1 else 0);
    var gap := dst - src;
    ByteCopyAt(m, dst, src, n, gap);
    ByteCopyAt(m, dst, src, gap, 0);
    assert ByteCopy(m, dst, src, n)[dst + gap] == 1;
    assert Replace(m, dst, m[src..src + n])[dst + gap] == m[src + gap];
  }

  /** `memcpy` copies every memory as `memmove` would exactly when the destination does not start inside the source. */
  lemma {:induction false} FaithfulExactly(len: nat, dst: nat, src: nat, n: nat)
    requires dst + n <= len && src + n <= len
    ensures (forall m: seq<u8> :: |m| == len ==> ByteCopy(m, dst, src, n) == Replace(m, dst, m[src..src + n]))
            <==> !(src < dst < src + n)
  {
    if src < dst < src + n {
      var m := OverlapAboveFails(len, dst, src, n);
    } else {
      forall m: seq<u8> | |m| == len ensures ByteCopy(m, dst, src, n) == Replace(m, dst, m[src..src + n]) {
        ByteCopyIsReplace(m, dst, src, n);
      }
    }
  }

  /** The byte loop writes nothing outside the destination. */
  lemma {:induction false} ByteCopyFrame(m: seq<u8>, dst: nat, src: nat, n: nat, i: nat)
    requires dst + n <= |m| && src + n <= |m| && i < |m| && !(dst <= i < dst + n)
    ensures ByteCopy(m, dst, src, n)[i] == m[i]
  {
    if n > 0 {
      ByteCopyFrame(m, dst, src, n - 1, i);
    }
  }

  // ---------------------------------------------------------------- the loader's code

  method CopyBytes(m: array<u8>, dst: nat, src: nat, sz: nat)
    requires dst + sz <= m.Length && src + sz <= m.Length
    modifies m
    ensures m[..] == ByteCopy(old(m[..]), dst, src, sz)
  {
    var d, s, left := dst, src, sz;
    while left > 0
      invariant 0 <= left <= sz && d == dst + (sz - left) && s == src + (sz - left)
      invariant m[..] == ByteCopy(old(m[..]), dst, src, sz - left)
    {
      left := left - 1;
      m[d] := m[s];
      d, s := d + 1, s + 1;
    }
  }

  /** A wide load. Device memory allows it only at a multiple of its width. */
  method LoadWord(m: array<u8>, at: nat, width: nat) returns (w: seq<u8>)
    requires (width == 4 || width == 8) && at % width == 0 && at + width <= m.Length
    ensures w == m[at..at + width]
  {
    w := m[at..at + width];
  }

  /** A wide store, with the same restriction. */
  method StoreWord(m: array<u8>, at: nat, w: seq<u8>)
    requires (|w| == 4 || |w| == 8) && at % |w| == 0 && at + |w| <= m.Length
    modifies m
    ensures m[..] == Replace(old(m[..]), at, w)
  {
    forall k | 0 <= k < |w| {
      m[at + k] := w[k];
    }
  }

  lemma {:induction false} AlignedApart(a: nat, b: nat, width: nat)
    requires (width == 4 || width == 8) && a % width == 0 && b % width == 0
    ensures a <= b || b + width <= a
  {
  }

  /** Copying one word is copying its bytes: equally aligned words either coincide or do not overlap. */
  lemma {:induction false} WordIsBytes(m: seq<u8>, dst: nat, src: nat, done: nat, width: nat)
    requires width == 4 || width == 8
    requires dst + done + width <= |m| && src + done + width <= |m|
    requires (dst + done) % width == 0 && (src + done) % width == 0
    ensures var before := ByteCopy(m, dst, src, done);
            ByteCopy(m, dst, src, done + width)
            == Replace(before, dst + done, before[src + done..src + done + width])
  {
    var before := ByteCopy(m, dst, src, done);
    ByteCopyCompose(m, dst, src, done, width);
    AlignedApart(dst + done, src + done, width);
    ByteCopyIsReplace(before, dst + done, src + done, width);
  }

  /** One iteration of a word loop: the word is read before it is written. */
  method MoveWord(m: array<u8>, d: nat, s: nat, width: nat, ghost start: seq<u8>, ghost dst: nat, ghost src: nat, ghost done: nat)
    requires (width == 4 || width == 8) && d % width == 0 && s % width == 0
    requires d + width <= m.Length && s + width <= m.Length
    requires d == dst + done && s == src + done && |start| == m.Length
    requires m[..] == ByteCopy(start, dst, src, done)
    modifies m
    ensures m[..] == ByteCopy(start, dst, src, done + width)
  {
    WordIsBytes(start, dst, src, done, width);
    var w := LoadWord(m, s, width);
    StoreWord(m, d, w);
  }

  lemma {:induction false} NextAligned8(a: nat)
    requires a % 8 == 0
    ensures (a + 8) % 8 == 0
  {
  }

  lemma {:induction false} NextAligned4(a: nat)
    requires a % 4 == 0
    ensures (a + 4) % 4 == 0
  {
  }

  /** `copy_words64` */
  method CopyWords64(m: array<u8>, dst: nat, src: nat, n: nat)
    requires dst % 8 == 0 && src % 8 == 0
    requires dst + n * 8 <= m.Length && src + n * 8 <= m.Length
    modifies m
    ensures m[..] == ByteCopy(old(m[..]), dst, src, n * 8)
  {
    ghost var start, done := m[..], 0;
    var d, s, left := dst, src, n;
    while left > 0
      invariant 0 <= left <= n && done == (n - left) * 8
      invariant d == dst + done && s == src + done && d % 8 == 0 && s % 8 == 0
      invariant m[..] == ByteCopy(start, dst, src, done)
    {
      left := left - 1;
      MoveWord(m, d, s, 8, start, dst, src, done);
      NextAligned8(d);
      NextAligned8(s);
      d, s, done := d + 8, s + 8, done + 8;
    }
  }

  /** `copy_words32` */
  method CopyWords32(m: array<u8>, dst: nat, src: nat, n: nat)
    requires dst % 4 == 0 && src % 4 == 0
    requires dst + n * 4 <= m.Length && src + n * 4 <= m.Length
    modifies m
    ensures m[..] == ByteCopy(old(m[..]), dst, src, n * 4)
  {
    ghost var start, done := m[..], 0;
    var d, s, left := dst, src, n;
    while left > 0
      invariant 0 <= left <= n && done == (n - left) * 4
      invariant d == dst + done && s == src + done && d % 4 == 0 && s % 4 == 0
      invariant m[..] == ByteCopy(start, dst, src, done)
    {
      left := left - 1;
      MoveWord(m, d, s, 4, start, dst, src, done);
      NextAligned4(d);
      NextAligned4(s);
      d, s, done := d + 4, s + 4, done + 4;
    }
  }

  /** The bytes to copy one at a time before the destination is aligned. */
  function HeadBytes(dst: nat, width: nat): nat
    requires width > 0
  {
    (width - dst % width) % width
  }

  lemma {:induction false} Head8(dst: nat, src: nat)
    requires dst % 8 == src % 8
    ensures (dst + HeadBytes(dst, 8)) % 8 == 0 && (src + HeadBytes(dst, 8)) % 8 == 0
  {
  }

  lemma {:induction false} Head4(dst: nat, src: nat)
    requires dst % 4 == src % 4
    ensures (dst + HeadBytes(dst, 4)) % 4 == 0 && (src + HeadBytes(dst, 4)) % 4 == 0
  {
  }

  lemma {:induction false} HeadAligns(dst: nat, src: nat)
    ensures var width := CopyWidth(dst, src); var head := HeadBytes(dst, width);
            width > 1 ==> (dst + head) % width == 0 && (src + head) % width == 0
  {
    CopyWidthAligned(dst, src);
    match CopyWidth(dst, src)
    case 8 => Head8(dst, src);
    case 4 => Head4(dst, src);
    case _ =>
  }

  /** From an aligned start: as many words as fit, then the tail. */
  method CopyAligned(m: array<u8>, d: nat, s: nat, sz: nat, width: nat)
    requires (width == 4 || width == 8) && d % width == 0 && s % width == 0
    requires d + sz <= m.Length && s + sz <= m.Length
    modifies m
    ensures m[..] == ByteCopy(old(m[..]), d, s, sz)
  {
    var wide;
    if width == 8 {
      var words := sz / 8;
      CopyWords64(m, d, s, words);
      wide := words * 8;
    } else {
      var words := sz / 4;
      CopyWords32(m, d, s, words);
      wide := words * 4;
    }
    CopyBytes(m, d + wide, s + wide, sz - wide);
    ByteCopyCompose(old(m[..]), d, s, wide, sz - wide);
  }

  /**
   `memcpy`: for all addresses and sizes, overlapping or not, it leaves memory exactly as the byte loop
   would. Every wide access it makes meets the alignment that `LoadWord` and `StoreWord` require.
   */
  method Copy(m: array<u8>, dst: nat, src: nat, sz: nat)
    requires dst + sz <= m.Length && src + sz <= m.Length
    modifies m
    ensures m[..] == ByteCopy(old(m[..]), dst, src, sz)
  {
    var width := CopyWidth(dst, src);
    var head := HeadBytes(dst, width);
    if width == 1 || sz < head + width {
      CopyBytes(m, dst, src, sz);
      return;
    }
    HeadAligns(dst, src);
    CopyBytes(m, dst, src, head);
    CopyAligned(m, dst + head, src + head, sz - head, width);
    ByteCopyCompose(old(m[..]), dst, src, head, sz - head);
  }
}
