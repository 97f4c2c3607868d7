/** The byte layout of records and headers, and the hexadecimal text they are printed as. */
module TraceCodec {
  import opened TraceTypes

  // ---------------------------------------------------------------- little-endian integers

  function Pow256(n: nat): (p: nat)
    ensures p > 0
  {
    if n == 0 then 1 else 256 * Pow256(n - 1)
  }

  /** The `n` low bytes of `x`, least significant first. */
  function ToLE(n: nat, x: nat): (b: seq<u8>)
    ensures |b| == n
  {
    if n == 0 then [] else [x % 256] + ToLE(n - 1, x / 256)
  }

  function FromLE(b: seq<u8>): nat {
    if b == [] then 0 else b[0] + 256 * FromLE(b[1..])
  }

  lemma {:induction false} LERoundTrip(n: nat, x: nat)
    requires x < Pow256(n)
    ensures FromLE(ToLE(n, x)) == x
  {
    if n > 0 {
      LERoundTrip(n - 1, x / 256);
      assert ToLE(n, x)[1..] == ToLE(n - 1, x / 256);
    }
  }

  lemma {:induction false} FromLEBound(b: seq<u8>)
    ensures FromLE(b) < Pow256(|b|)
  {
    if b != [] {
      FromLEBound(b[1..]);
    }
  }

  lemma {:induction false} Widths()
    ensures Pow256(1) == 0x100 && Pow256(2) == 0x1_0000
    ensures Pow256(4) == 0x1_0000_0000 && Pow256(8) == TWO64
  {
    assert Pow256(3) == 256 * Pow256(2);
    assert Pow256(5) == 256 * Pow256(4);
    assert Pow256(6) == 256 * Pow256(5);
    assert Pow256(7) == 256 * Pow256(6);
  }

  // ---------------------------------------------------------------- packed structures

  function Join(parts: seq<seq<u8>>): seq<u8> {
    if parts == [] then [] else parts[0] + Join(parts[1..])
  }

  function Total(widths: seq<nat>): nat {
    if widths == [] then 0 else widths[0] + Total(widths[1..])
  }

  /** The fields of a packed structure, given their widths in order. */
  function Split(widths: seq<nat>, raw: seq<u8>): (parts: seq<seq<u8>>)
    requires |raw| == Total(widths)
    ensures |parts| == |widths|
    ensures forall i :: 0 <= i < |parts| ==> |parts[i]| == widths[i]
  {
    if widths == [] then [] else [raw[..widths[0]]] + Split(widths[1..], raw[widths[0]..])
  }

  ghost predicate Fits(widths: seq<nat>, parts: seq<seq<u8>>) {
    |parts| == |widths| && forall i :: 0 <= i < |parts| ==> |parts[i]| == widths[i]
  }

  lemma {:induction false} SplitJoin(widths: seq<nat>, parts: seq<seq<u8>>)
    requires Fits(widths, parts)
    ensures |Join(parts)| == Total(widths) && Split(widths, Join(parts)) == parts
  {
    if parts != [] {
      SplitJoin(widths[1..], parts[1..]);
      assert Join(parts)[..widths[0]] == parts[0];
      assert Join(parts)[widths[0]..] == Join(parts[1..]);
    }
  }

  // ---------------------------------------------------------------- records

  /** seq, time, pc, addr, value, esr, vcpu, producer, kind, size, flags, reserved0, reserved1 */
  const RECORD_WIDTHS: seq<nat> := [8, 8, 8, 8, 8, 4, 2, 1, 1, 1, 1, 6, 8]

  function RecordParts(r: Record): seq<seq<u8>> {
    [ToLE(8, r.num), ToLE(8, r.time), ToLE(8, r.body.pc), ToLE(8, r.body.addr), ToLE(8, r.body.value),
     ToLE(4, r.body.esr), ToLE(2, r.body.vcpu), ToLE(1, r.producer), ToLE(1, r.body.kind),
     ToLE(1, r.body.size), ToLE(1, r.body.flags), ToLE(6, 0), ToLE(8, 0)]
  }

  /** The memory image of a record. */
  function RecordBytes(r: Record): seq<u8> {
    Join(RecordParts(r))
  }

  lemma {:induction false} TotalFrom(widths: seq<nat>, k: nat)
    requires k < |widths|
    ensures Total(widths[k..]) == widths[k] + Total(widths[k + 1..])
  {
    assert widths[k..][1..] == widths[k + 1..];
  }

  /** The widths from the `k`th on, added up eleven at a time. */
  lemma {:induction false} TotalOfEleven(w: seq<nat>, k: nat)
    requires k + 11 <= |w|
    ensures Total(w[k..]) == w[k] + w[k + 1] + w[k + 2] + w[k + 3] + w[k + 4] + w[k + 5] + w[k + 6]
                             + w[k + 7] + w[k + 8] + w[k + 9] + w[k + 10] + Total(w[k + 11..])
  {
    TotalFrom(w, k); TotalFrom(w, k + 1); TotalFrom(w, k + 2); TotalFrom(w, k + 3); TotalFrom(w, k + 4);
    TotalFrom(w, k + 5); TotalFrom(w, k + 6); TotalFrom(w, k + 7); TotalFrom(w, k + 8); TotalFrom(w, k + 9);
    TotalFrom(w, k + 10);
  }

  lemma {:induction false} TotalOfThirteen(w: seq<nat>)
    requires |w| == 13
    ensures Total(w) == w[0] + w[1] + w[2] + w[3] + w[4] + w[5] + w[6] + w[7] + w[8] + w[9] + w[10] + w[11] + w[12]
  {
    TotalFrom(w, 0);
    TotalFrom(w, 1);
    TotalOfEleven(w, 2);
    assert w[0..] == w && w[13..] == [];
  }

  lemma {:induction false} RecordTotal()
    ensures Total(RECORD_WIDTHS) == RECORD_SIZE
  {
    TotalOfThirteen(RECORD_WIDTHS);
  }

  function U8(b: seq<u8>): u8 requires |b| == 1 {
    b[0]
  }

  function U16(b: seq<u8>): u16 requires |b| == 2 {
    FromLEBound(b); Widths(); FromLE(b)
  }

  function U32(b: seq<u8>): u32 requires |b| == 4 {
    FromLEBound(b); Widths(); FromLE(b)
  }

  function U64(b: seq<u8>): u64 requires |b| == 8 {
    FromLEBound(b); Widths(); FromLE(b)
  }

  /** The decoder's view of 64 bytes; the reserved bytes are skipped. */
  function UnpackRecord(raw: seq<u8>): Record
    requires |raw| == RECORD_SIZE
  {
    RecordTotal();
    var f := Split(RECORD_WIDTHS, raw);
    Record(U64(f[0]), U64(f[1]), U8(f[7]),
           Body(U64(f[2]), U64(f[3]), U64(f[4]), U32(f[5]), U16(f[6]), U8(f[8]), U8(f[9]), U8(f[10])))
  }

  lemma {:induction false} OneByte(x: u8)
    ensures ToLE(1, x) == [x]
  {
    assert ToLE(0, x / 256) == [];
  }

  lemma {:induction false} RecordFits(r: Record)
    ensures Fits(RECORD_WIDTHS, RecordParts(r))
  {
  }

  lemma {:induction false} WordRoundTrip(x: u64)
    ensures U64(ToLE(8, x)) == x
  {
    Widths();
    LERoundTrip(8, x);
  }

  /** Unpacking the memory image of a record gives the record back. */
  lemma {:induction false} RecordRoundTrip(r: Record)
    ensures |RecordBytes(r)| == RECORD_SIZE && UnpackRecord(RecordBytes(r)) == r
  {
    RecordTotal();
    RecordFits(r);
    SplitJoin(RECORD_WIDTHS, RecordParts(r));
    WordRoundTrip(r.num);
    WordRoundTrip(r.time);
    WordRoundTrip(r.body.pc);
    WordRoundTrip(r.body.addr);
    WordRoundTrip(r.body.value);
    Widths();
    LERoundTrip(4, r.body.esr);
    LERoundTrip(2, r.body.vcpu);
    OneByte(r.producer);
    OneByte(r.body.kind);
    OneByte(r.body.size);
    OneByte(r.body.flags);
  }

  // ---------------------------------------------------------------- headers

  const MAGIC_TEXT: seq<u8> := [0x53, 0x45, 0x4c, 0x34, 0x54, 0x52, 0x43]   // "SEL4TRC"
  const MAGIC: seq<u8> := MAGIC_TEXT + [0]
  const VERSION: u16 := 9

  /** The widths of codename, build_id, bootloader, baseband, git_sha, toolchain_sha256 and dtb_sha256. */
  const STAMP_WIDTHS: seq<nat> := [16, 32, 48, 48, 48, 64, 64]

  const HEADER_WIDTHS: seq<nat> := [8, 2, 2, 4] + STAMP_WIDTHS

  datatype Header = Header(version: u16, cntfrq: u32, stamp: seq<seq<u8>>)

  function Zeros(n: nat): seq<u8> {
    seq(n, _ => 0)
  }

  /** A field holding the C string `src`, cut off at the field's width or padded with NULs. */
  function Field(width: nat, src: seq<u8>): (f: seq<u8>)
    ensures |f| == width
  {
    if |src| >= width then src[..width] else src + Zeros(width - |src|)
  }

  /** `field.rstrip(b"\0")` */
  function StripNuls(b: seq<u8>): seq<u8> {
    if b != [] && b[|b| - 1] == 0 then StripNuls(b[..|b| - 1]) else b
  }

  predicate CString(b: seq<u8>) {
    forall i :: 0 <= i < |b| ==> b[i] != 0
  }

  predicate CStrings(fields: seq<seq<u8>>) {
    forall i :: 0 <= i < |fields| ==> CString(fields[i])
  }

  predicate Ascii(b: seq<u8>) {
    forall i :: 0 <= i < |b| ==> b[i] < 0x80
  }

  lemma {:induction false} FieldBytes(width: nat, src: seq<u8>, k: nat)
    requires k < width
    ensures Field(width, src)[k] == if k < |src| then src[k] else 0
  {
  }

  /** Stripping takes away the zero bytes at the end, and only those. */
  lemma {:induction false} StripNulsExactly(b: seq<u8>)
    ensures var s := StripNuls(b);
            && s <= b && (s != [] ==> s[|s| - 1] != 0) && forall k :: |s| <= k < |b| ==> b[k] == 0
    decreases |b|
  {
    if b != [] && b[|b| - 1] == 0 {
      StripNulsExactly(b[..|b| - 1]);
    }
  }

  lemma {:induction false} StripPadding(b: seq<u8>, n: nat)
    requires CString(b)
    ensures StripNuls(b + Zeros(n)) == b
  {
    if n == 0 {
      assert b + Zeros(0) == b;
    } else {
      assert (b + Zeros(n))[..|b| + n - 1] == b + Zeros(n - 1);
      StripPadding(b, n - 1);
    }
  }

  /** Reading a field gives the string that was put there, cut off at the field's width. */
  lemma {:induction false} FieldRoundTrip(width: nat, src: seq<u8>)
    requires CString(src)
    ensures StripNuls(Field(width, src)) == if |src| >= width then src[..width] else src
  {
    if |src| >= width {
      StripPadding(src[..width], 0);
      assert src[..width] + Zeros(0) == src[..width];
    } else {
      StripPadding(src, width - |src|);
    }
  }

  function StampFields(stamp: seq<seq<u8>>): (f: seq<seq<u8>>)
    requires |stamp| == 7
    ensures Fits(STAMP_WIDTHS, f)
  {
    seq(7, i requires 0 <= i < 7 => Field(STAMP_WIDTHS[i], stamp[i]))
  }

  function HeaderParts(cntfrq: u32, stamp: seq<seq<u8>>): seq<seq<u8>>
    requires |stamp| == 7
  {
    [MAGIC, ToLE(2, VERSION), ToLE(2, RECORD_SIZE), ToLE(4, cntfrq)] + StampFields(stamp)
  }

  function HeaderBytes(cntfrq: u32, stamp: seq<seq<u8>>): seq<u8>
    requires |stamp| == 7
  {
    Join(HeaderParts(cntfrq, stamp))
  }

  lemma {:induction false} HeaderTotal()
    ensures Total(HEADER_WIDTHS) == HEADER_SIZE
  {
    var w := HEADER_WIDTHS;
    TotalOfEleven(w, 0);
    assert w[0..] == w && w[11..] == [];
  }

  /** `parse_header` after the hexadecimal is read: every check in order, then the stripped stamp. */
  function UnpackHeader(raw: seq<u8>): Option<Header> {
    if |raw| != HEADER_SIZE then None
    else
      HeaderTotal();
      var f := Split(HEADER_WIDTHS, raw);
      if f[0] != MAGIC then None
      else if U16(f[1]) > 9 then None
      else if U16(f[2]) != RECORD_SIZE then None
      else
        var stamp := seq(7, i requires 0 <= i < 7 => StripNuls(f[4 + i]));
        if forall i :: 0 <= i < 7 ==> Ascii(stamp[i]) then Some(Header(U16(f[1]), U32(f[3]), stamp)) else None
  }

  /** The strings the stamp fields can hold. */
  function Cut(stamp: seq<seq<u8>>): seq<seq<u8>>
    requires |stamp| == 7
  {
    seq(7, i requires 0 <= i < 7 =>
      if |stamp[i]| >= STAMP_WIDTHS[i] then stamp[i][..STAMP_WIDTHS[i]] else stamp[i])
  }

  ghost predicate StampOk(stamp: seq<seq<u8>>) {
    |stamp| == 7 && forall i :: 0 <= i < 7 ==> CString(stamp[i]) && Ascii(stamp[i])
  }

  lemma {:induction false} HeaderFits(cntfrq: u32, stamp: seq<seq<u8>>)
    requires |stamp| == 7
    ensures Fits(HEADER_WIDTHS, HeaderParts(cntfrq, stamp))
  {
  }

  /** What the parser makes of fields that pass its checks. */
  lemma {:induction false} UnpackJoined(parts: seq<seq<u8>>, version: u16, cntfrq: u32, stamp: seq<seq<u8>>)
    requires Fits(HEADER_WIDTHS, parts) && parts[0] == MAGIC
    requires U16(parts[1]) == version <= 9 && U16(parts[2]) == RECORD_SIZE && U32(parts[3]) == cntfrq
    requires |stamp| == 7 && forall i :: 0 <= i < 7 ==> StripNuls(parts[4 + i]) == stamp[i] && Ascii(stamp[i])
    ensures |Join(parts)| == HEADER_SIZE && UnpackHeader(Join(parts)) == Some(Header(version, cntfrq, stamp))
  {
    HeaderTotal();
    SplitJoin(HEADER_WIDTHS, parts);
    assert seq(7, i requires 0 <= i < 7 => StripNuls(parts[4 + i])) == stamp;
  }

  lemma {:induction false} HeaderNumbers(cntfrq: u32)
    ensures U16(ToLE(2, VERSION)) == VERSION && U16(ToLE(2, RECORD_SIZE)) == RECORD_SIZE
    ensures U32(ToLE(4, cntfrq)) == cntfrq
  {
    Widths();
    LERoundTrip(2, VERSION);
    LERoundTrip(2, RECORD_SIZE);
    LERoundTrip(4, cntfrq);
  }

  /** Parsing the header the tracer sends gives version 9, the counter frequency and the build stamp. */
  lemma {:induction false} HeaderRoundTrip(cntfrq: u32, stamp: seq<seq<u8>>)
    requires StampOk(stamp)
    ensures |HeaderBytes(cntfrq, stamp)| == HEADER_SIZE
    ensures UnpackHeader(HeaderBytes(cntfrq, stamp)) == Some(Header(VERSION, cntfrq, Cut(stamp)))
  {
    var parts := HeaderParts(cntfrq, stamp);
    HeaderFits(cntfrq, stamp);
    HeaderNumbers(cntfrq);
    forall i | 0 <= i < 7 ensures StripNuls(parts[4 + i]) == Cut(stamp)[i] && Ascii(Cut(stamp)[i]) {
      FieldRoundTrip(STAMP_WIDTHS[i], stamp[i]);
      assert parts[4 + i] == StampFields(stamp)[i];
    }
    UnpackJoined(parts, VERSION, cntfrq, Cut(stamp));
  }

  // ---------------------------------------------------------------- hexadecimal text

  const DIGITS: string := "0123456789abcdef"

  predicate IsHex(c: char) {
    '0' <= c <= '9' || 'a' <= c <= 'f'
  }

  function HexValue(c: char): nat
    requires IsHex(c)
  {
    if c <= '9' then (c - '0') as int else (c - 'a') as int + 10
  }

  /** Two digits for each byte, high half first. */
  function Hex(b: seq<u8>): (s: string)
    ensures |s| == 2 * |b|
    ensures forall i :: 0 <= i < |s| ==> IsHex(s[i])
  {
    if b == [] then [] else [DIGITS[b[0] / 16], DIGITS[b[0] % 16]] + Hex(b[1..])
  }

  /** `bytes.fromhex` on text made of lowercase digits: an odd number of digits is refused. */
  function FromHex(s: string): Option<seq<u8>>
    requires forall i :: 0 <= i < |s| ==> IsHex(s[i])
  {
    if s == [] then Some([])
    else if |s| == 1 then None
    else
      match FromHex(s[2..])
      case None => None
      case Some(rest) => Some([16 * HexValue(s[0]) + HexValue(s[1])] + rest)
  }

  lemma {:induction false} DigitValue(d: nat)
    requires d < 16
    ensures IsHex(DIGITS[d]) && HexValue(DIGITS[d]) == d
  {
  }

  lemma {:induction false} FromHexPair(hi: char, lo: char, rest: string, bytes: seq<u8>)
    requires IsHex(hi) && IsHex(lo) && (forall i :: 0 <= i < |rest| ==> IsHex(rest[i]))
    requires FromHex(rest) == Some(bytes)
    ensures FromHex([hi, lo] + rest) == Some([16 * HexValue(hi) + HexValue(lo)] + bytes)
  {
    assert ([hi, lo] + rest)[2..] == rest;
  }

  lemma {:induction false} HexRoundTrip(b: seq<u8>)
    ensures FromHex(Hex(b)) == Some(b)
  {
    if b != [] {
      HexRoundTrip(b[1..]);
      DigitValue(b[0] / 16);
      DigitValue(b[0] % 16);
      FromHexPair(DIGITS[b[0] / 16], DIGITS[b[0] % 16], Hex(b[1..]), b[1..]);
      assert [b[0]] + b[1..] == b;
    }
  }

  lemma {:induction false} HexAppend(a: seq<u8>, b: seq<u8>)
    ensures Hex(a + b) == Hex(a) + Hex(b)
  {
    if a == [] {
      assert a + b == b;
    } else {
      assert (a + b)[1..] == a[1..] + b;
      HexAppend(a[1..], b);
    }
  }
}
