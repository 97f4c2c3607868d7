/**
 Where every field of a record and of a header lies, byte by byte, and what a decoder must find there to accept it.
 Offsets and values are those of the format, not of the tables that `TraceCodec` computes with.
 */
module TraceLayout {
  import opened TraceTypes
  import opened TraceCodec
  import Bits

  // ---------------------------------------------------------------- numbers

  /** Byte `k` of a little-endian number is its digit in base 256. */
  lemma {:induction false} LEByte(n: nat, x: nat, k: nat)
    requires k < n
    ensures ToLE(n, x)[k] == x / Pow256(k) % 256
    decreases k
  {
    if k > 0 {
      LEByte(n - 1, x / 256, k - 1);
      DivDiv(x, 256, Pow256(k - 1));
    }
  }

  lemma {:induction false} DivDiv(x: nat, a: nat, b: nat)
    requires a > 0 && b > 0
    ensures a * b > 0 && x / a / b == x / (a * b)
  {
    var q, r := x / a, x % a;
    var q', r' := q / b, q % b;
    Bits.DivMod(x, a);
    Bits.DivMod(q, b);
    Regroup(a, b, q', r');
    Below(a, b, r', r);
    Bits.ModOf(x, a * b, q', a * r' + r);
  }

  lemma {:induction false} Regroup(a: nat, b: nat, q: nat, r: nat)
    ensures a * (b * q + r) == (a * b) * q + a * r
  {
  }

  lemma {:induction false} Below(a: nat, b: nat, r': nat, r: nat)
    requires r < a && r' < b
    ensures a * b > 0 && 0 <= a * r' + r < a * b
  {
    assert a * (r' + 1) + a * (b - 1 - r') == a * b;
    assert a * (b - 1 - r') >= 0;
  }

  /** Two, four and eight bytes as numbers. */
  function Word16(b: seq<u8>): nat
    requires |b| == 2
  {
    (b[0] as int) + 0x100 * (b[1] as int)
  }

  function Word32(b: seq<u8>): nat
    requires |b| == 4
  {
    Word16(b[..2]) + 0x1_0000 * Word16(b[2..])
  }

  function Word64(b: seq<u8>): nat
    requires |b| == 8
  {
    Word32(b[..4]) + 0x1_0000_0000 * Word32(b[4..])
  }

  lemma {:induction false} FromLECut(b: seq<u8>, k: nat)
    requires k <= |b|
    ensures FromLE(b) == FromLE(b[..k]) + Pow256(k) * FromLE(b[k..])
    decreases k
  {
    if k == 0 {
      assert b[0..] == b;
    } else {
      FromLECut(b[1..], k - 1);
      assert b[..k][1..] == b[1..][..k - 1] && b[1..][k - 1..] == b[k..];
      Mul256(FromLE(b[1..][..k - 1]), Pow256(k - 1), FromLE(b[k..]));
    }
  }

  lemma {:induction false} Mul256(a: nat, p: nat, f: nat)
    ensures 256 * (a + p * f) == 256 * a + (256 * p) * f
  {
  }

  lemma {:induction false} FromLE16(b: seq<u8>)
    requires |b| == 2
    ensures FromLE(b) == Word16(b)
  {
    assert FromLE(b[1..]) == b[1] + 256 * FromLE(b[1..][1..]);
    assert FromLE(b[1..][1..]) == 0;
  }

  lemma {:induction false} FromLE32(b: seq<u8>)
    requires |b| == 4
    ensures FromLE(b) == Word32(b)
  {
    FromLECut(b, 2);
    Widths();
    FromLE16(b[..2]);
    FromLE16(b[2..]);
  }

  lemma {:induction false} FromLE64(b: seq<u8>)
    requires |b| == 8
    ensures FromLE(b) == Word64(b)
  {
    FromLECut(b, 4);
    Widths();
    FromLE32(b[..4]);
    FromLE32(b[4..]);
  }

  // ---------------------------------------------------------------- cutting a structure

  lemma {:induction false} TotalSnoc(widths: seq<nat>, i: nat)
    requires i < |widths|
    ensures Total(widths[..i + 1]) == Total(widths[..i]) + widths[i]
    decreases i
  {
    if i == 0 {
      assert widths[..1][1..] == [];
    } else {
      TotalSnoc(widths[1..], i - 1);
      assert widths[..i + 1][1..] == widths[1..][..i] && widths[..i][1..] == widths[1..][..i - 1];
    }
  }

  lemma {:induction false} TotalBound(widths: seq<nat>, i: nat)
    requires i <= |widths|
    ensures Total(widths[..i]) <= Total(widths)
    decreases i
  {
    if i > 0 {
      TotalBound(widths[1..], i - 1);
      assert widths[..i][1..] == widths[1..][..i - 1];
    }
  }

  /** Part `i` lies behind the widths of the parts before it. */
  lemma {:induction false} PartAt(widths: seq<nat>, raw: seq<u8>, i: nat, at: nat)
    requires |raw| == Total(widths) && i < |widths| && Total(widths[..i]) == at
    ensures at + widths[i] == Total(widths[..i + 1]) <= |raw|
    ensures Split(widths, raw)[i] == raw[at..at + widths[i]]
    decreases i
  {
    TotalSnoc(widths, i);
    TotalBound(widths, i + 1);
    if i > 0 {
      var w := widths[0];
      assert widths[..i][1..] == widths[1..][..i - 1];
      PartAt(widths[1..], raw[w..], i - 1, at - w);
      assert raw[w..][at - w..at - w + widths[i]] == raw[at..at + widths[i]];
    }
  }

  /** The places of the fields of a record: its words, and its single and reserved bytes. */
  ghost predicate RecordWords(raw: seq<u8>, f: seq<seq<u8>>)
    requires |raw| == 64 && |f| == 13
  {
    && f[0] == raw[0..8] && f[1] == raw[8..16] && f[2] == raw[16..24] && f[3] == raw[24..32]
    && f[4] == raw[32..40] && f[5] == raw[40..44] && f[6] == raw[44..46]
  }

  ghost predicate RecordSingles(raw: seq<u8>, f: seq<seq<u8>>)
    requires |raw| == 64 && |f| == 13
  {
    && f[7] == raw[46..47] && f[8] == raw[47..48] && f[9] == raw[48..49] && f[10] == raw[49..50]
    && f[11] == raw[50..56] && f[12] == raw[56..64]
  }

  lemma {:induction false} RecordWordsAt(w: seq<nat>, raw: seq<u8>)
    requires |w| == 13 && |raw| == 64 == Total(w)
    requires w[0] == w[1] == w[2] == w[3] == w[4] == 8 && w[5] == 4 && w[6] == 2
    ensures RecordWords(raw, Split(w, raw)) && Total(w[..7]) == 46
  {
    PartAt(w, raw, 0, 0);
    PartAt(w, raw, 1, 8);
    PartAt(w, raw, 2, 16);
    PartAt(w, raw, 3, 24);
    PartAt(w, raw, 4, 32);
    PartAt(w, raw, 5, 40);
    PartAt(w, raw, 6, 44);
  }

  lemma {:induction false} RecordSinglesAt(w: seq<nat>, raw: seq<u8>)
    requires |w| == 13 && |raw| == 64 == Total(w) && Total(w[..7]) == 46
    requires w[7] == w[8] == w[9] == w[10] == 1 && w[11] == 6 && w[12] == 8
    ensures RecordSingles(raw, Split(w, raw))
  {
    PartAt(w, raw, 7, 46);
    PartAt(w, raw, 8, 47);
    PartAt(w, raw, 9, 48);
    PartAt(w, raw, 10, 49);
    PartAt(w, raw, 11, 50);
    PartAt(w, raw, 12, 56);
  }

  lemma {:induction false} RecordCuts(raw: seq<u8>)
    requires |raw| == 64
    ensures Total(RECORD_WIDTHS) == 64
    ensures RecordWords(raw, Split(RECORD_WIDTHS, raw)) && RecordSingles(raw, Split(RECORD_WIDTHS, raw))
  {
    RecordTotal();
    RecordWordsAt(RECORD_WIDTHS, raw);
    RecordSinglesAt(RECORD_WIDTHS, raw);
  }

  /** The places of the fields of a header. */
  ghost predicate HeaderCut(raw: seq<u8>, f: seq<seq<u8>>)
    requires |raw| == 336 && |f| == 11
  {
    && f[0] == raw[0..8] && f[1] == raw[8..10] && f[2] == raw[10..12] && f[3] == raw[12..16]
    && f[4] == raw[16..32] && f[5] == raw[32..64] && f[6] == raw[64..112] && f[7] == raw[112..160]
    && f[8] == raw[160..208] && f[9] == raw[208..272] && f[10] == raw[272..336]
  }

  lemma {:induction false} HeaderCuts(raw: seq<u8>)
    requires |raw| == 336
    ensures Total(HEADER_WIDTHS) == 336 && HeaderCut(raw, Split(HEADER_WIDTHS, raw))
  {
    HeaderTotal();
    var w := HEADER_WIDTHS;
    PartAt(w, raw, 0, 0);
    PartAt(w, raw, 1, 8);
    PartAt(w, raw, 2, 10);
    PartAt(w, raw, 3, 12);
    PartAt(w, raw, 4, 16);
    PartAt(w, raw, 5, 32);
    PartAt(w, raw, 6, 64);
    PartAt(w, raw, 7, 112);
    PartAt(w, raw, 8, 160);
    PartAt(w, raw, 9, 208);
    PartAt(w, raw, 10, 272);
  }

  // ---------------------------------------------------------------- what is written

  /** The 64 bytes of a record, as the structure lays them out. */
  lemma {:induction false} RecordLayout(r: Record)
    ensures var b := RecordBytes(r);
            && |b| == 64
            && b[0..8] == ToLE(8, r.num) && b[8..16] == ToLE(8, r.time)
            && b[16..24] == ToLE(8, r.body.pc) && b[24..32] == ToLE(8, r.body.addr) && b[32..40] == ToLE(8, r.body.value)
            && b[40..44] == ToLE(4, r.body.esr) && b[44..46] == ToLE(2, r.body.vcpu)
            && b[46] == r.producer && b[47] == r.body.kind && b[48] == r.body.size && b[49] == r.body.flags
            && forall k :: 50 <= k < 64 ==> b[k] == 0
  {
    var b, parts := RecordBytes(r), RecordParts(r);
    RecordTotal();
    RecordFits(r);
    SplitJoin(RECORD_WIDTHS, parts);
    RecordCuts(b);
    SingleBytes(b, parts, r);
    ReservedBytes(b, parts, r);
  }

  lemma {:induction false} ReservedBytes(b: seq<u8>, parts: seq<seq<u8>>, r: Record)
    requires |b| == 64 && parts == RecordParts(r) && RecordSingles(b, parts)
    ensures forall k :: 50 <= k < 64 ==> b[k] == 0
  {
    ZeroBytes(6);
    ZeroBytes(8);
    assert forall k :: 50 <= k < 56 ==> b[k] == parts[11][k - 50];
    assert forall k :: 56 <= k < 64 ==> b[k] == parts[12][k - 56];
  }

  lemma {:induction false} SingleBytes(b: seq<u8>, parts: seq<seq<u8>>, r: Record)
    requires |b| == 64 && parts == RecordParts(r) && RecordSingles(b, parts)
    ensures b[46] == r.producer && b[47] == r.body.kind && b[48] == r.body.size && b[49] == r.body.flags
  {
    OneByte(r.producer);
    OneByte(r.body.kind);
    OneByte(r.body.size);
    OneByte(r.body.flags);
    assert parts[7][0] == b[46] && parts[8][0] == b[47] && parts[9][0] == b[48] && parts[10][0] == b[49];
  }

  lemma {:induction false} ZeroBytes(n: nat)
    ensures forall k :: 0 <= k < n ==> ToLE(n, 0)[k] == 0
    decreases n
  {
    if n > 0 {
      ZeroBytes(n - 1);
    }
  }

  /** The 336 bytes of a header: "SEL4TRC" and a NUL, version 9, record size 64, the frequency and the seven stamps. */
  lemma {:induction false} HeaderLayout(cntfrq: u32, stamp: seq<seq<u8>>)
    requires |stamp| == 7
    ensures var b := HeaderBytes(cntfrq, stamp);
            && |b| == 336
            && b[0..8] == [0x53, 0x45, 0x4c, 0x34, 0x54, 0x52, 0x43, 0x00]
            && b[8..10] == [9, 0] && b[10..12] == [64, 0] && b[12..16] == ToLE(4, cntfrq)
            && b[16..32] == Field(16, stamp[0]) && b[32..64] == Field(32, stamp[1])
            && b[64..112] == Field(48, stamp[2]) && b[112..160] == Field(48, stamp[3]) && b[160..208] == Field(48, stamp[4])
            && b[208..272] == Field(64, stamp[5]) && b[272..336] == Field(64, stamp[6])
  {
    var b, parts := HeaderBytes(cntfrq, stamp), HeaderParts(cntfrq, stamp);
    HeaderTotal();
    HeaderFits(cntfrq, stamp);
    SplitJoin(HEADER_WIDTHS, parts);
    HeaderCuts(b);
    TwoBytes(9);
    TwoBytes(64);
  }

  lemma {:induction false} TwoBytes(x: u8)
    ensures ToLE(2, x) == [x, 0]
  {
    OneByte(0);
  }

  // ---------------------------------------------------------------- what is read

  /** Every field that the decoder reads, from its place. */
  lemma {:induction false} RecordReads(raw: seq<u8>)
    requires |raw| == 64
    ensures var r := UnpackRecord(raw);
            && r.num == Word64(raw[0..8]) && r.time == Word64(raw[8..16])
            && r.body.pc == Word64(raw[16..24]) && r.body.addr == Word64(raw[24..32]) && r.body.value == Word64(raw[32..40])
            && r.body.esr == Word32(raw[40..44]) && r.body.vcpu == Word16(raw[44..46])
            && r.producer == raw[46] && r.body.kind == raw[47] && r.body.size == raw[48] && r.body.flags == raw[49]
  {
    RecordCuts(raw);
    FromLE64(raw[0..8]);
    FromLE64(raw[8..16]);
    FromLE64(raw[16..24]);
    FromLE64(raw[24..32]);
    FromLE64(raw[32..40]);
    FromLE32(raw[40..44]);
    FromLE16(raw[44..46]);
  }

  /** The seven stamps as the decoder strips them. */
  function Stamps(raw: seq<u8>): (stamp: seq<seq<u8>>)
    requires |raw| == 336
    ensures |stamp| == 7
  {
    [StripNuls(raw[16..32]), StripNuls(raw[32..64]), StripNuls(raw[64..112]), StripNuls(raw[112..160]),
     StripNuls(raw[160..208]), StripNuls(raw[208..272]), StripNuls(raw[272..336])]
  }

  /** The headers that `parse_header` accepts, and what it makes of them. */
  ghost predicate GoodHeaderBytes(raw: seq<u8>) {
    && |raw| == 336 && raw[0..8] == [0x53, 0x45, 0x4c, 0x34, 0x54, 0x52, 0x43, 0x00]
    && Word16(raw[8..10]) <= 9 && Word16(raw[10..12]) == 64
    && forall i :: 0 <= i < 7 ==> Ascii(Stamps(raw)[i])
  }

  lemma {:induction false} HeaderReads(raw: seq<u8>)
    ensures UnpackHeader(raw).Some? <==> GoodHeaderBytes(raw)
    ensures UnpackHeader(raw).Some? ==>
              UnpackHeader(raw).value == Header(Word16(raw[8..10]), Word32(raw[12..16]), Stamps(raw))
  {
    if |raw| == 336 {
      HeaderCuts(raw);
      FromLE16(raw[8..10]);
      FromLE16(raw[10..12]);
      FromLE32(raw[12..16]);
      var f := Split(HEADER_WIDTHS, raw);
      var stamp := seq(7, i requires 0 <= i < 7 => StripNuls(f[4 + i]));
      assert stamp == Stamps(raw);
    }
  }

  // ---------------------------------------------------------------- hexadecimal

  /** The lower-case digit for a number below 16. */
  function LowerDigit(d: nat): char
    requires d < 16
  {
    if d < 10 then (48 + d) as char else (87 + d) as char
  }

  /** Byte `k` is printed as two lower-case digits, the high half first. */
  lemma {:induction false} HexDigits(b: seq<u8>, k: nat)
    requires k < |b|
    ensures Hex(b)[2 * k] == LowerDigit(b[k] / 16) && Hex(b)[2 * k + 1] == LowerDigit(b[k] % 16)
    decreases k
  {
    if k == 0 {
      DigitIs(b[0] / 16);
      DigitIs(b[0] % 16);
    } else {
      HexDigits(b[1..], k - 1);
    }
  }

  lemma {:induction false} DigitIs(d: nat)
    requires d < 16
    ensures DIGITS[d] == LowerDigit(d)
  {
    assert d in {0, 1, 2, 3, 4, 5, 6, 7, 8, 9, 10, 11, 12, 13, 14, 15};
  }

  /** The text is two lower-case digits for each byte. */
  ghost predicate Spells(s: string, v: seq<u8>) {
    |s| == 2 * |v|
    && forall k :: 0 <= k < |v| ==> s[2 * k] == LowerDigit(v[k] / 16) && s[2 * k + 1] == LowerDigit(v[k] % 16)
  }

  /** Hexadecimal text is read exactly when it has an even number of digits, as the bytes that it spells. */
  lemma {:induction false} HexReads(s: string)
    requires forall i :: 0 <= i < |s| ==> IsHex(s[i])
    ensures FromHex(s).Some? <==> |s| % 2 == 0
    ensures FromHex(s).Some? ==> Spells(s, FromHex(s).value)
    decreases |s|
  {
    if |s| >= 2 {
      HexReads(s[2..]);
      if FromHex(s[2..]).Some? {
        SpellsMore(s, FromHex(s[2..]).value);
      }
    }
  }

  lemma {:induction false} SpellsMore(s: string, rest: seq<u8>)
    requires |s| >= 2 && IsHex(s[0]) && IsHex(s[1]) && Spells(s[2..], rest)
    ensures Spells(s, [16 * HexValue(s[0]) + HexValue(s[1])] + rest)
  {
    var v := [16 * HexValue(s[0]) + HexValue(s[1])] + rest;
    forall k | 0 <= k < |v|
      ensures s[2 * k] == LowerDigit(v[k] / 16) && s[2 * k + 1] == LowerDigit(v[k] % 16)
    {
      if k == 0 {
        DigitOf(s[0]);
        DigitOf(s[1]);
      } else {
        var t, j := s[2..], k - 1;
        assert v[k] == rest[j] && s[2 * k] == t[2 * j] && s[2 * k + 1] == t[2 * j + 1];
      }
    }
  }

  lemma {:induction false} DigitOf(c: char)
    requires IsHex(c)
    ensures HexValue(c) < 16 && c == LowerDigit(HexValue(c))
  {
  }
}
