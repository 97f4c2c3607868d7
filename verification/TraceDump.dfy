/** The tracer's dump of its archive: one line of text for each header copy and each record. */
module TraceDump {
  import opened TraceTypes
  import opened TraceCodec
  import Decimal

  const LINE_PREFIX_LEN: nat := 5
  const LINE_MAX: nat := LINE_PREFIX_LEN + 2 * HEADER_SIZE + 2

  const HEADER_PREFIX: string := "TRH9 "
  const RECORD_PREFIX: string := "TRC9 "

  /** Everything about the build and the machine that the header carries. */
  datatype Stamp = Stamp(cntfrq: u32, fields: seq<seq<u8>>)

  function HeaderHex(stamp: Stamp): string
    requires |stamp.fields| == 7
  {
    Hex(HeaderBytes(stamp.cntfrq, stamp.fields))
  }

  function HeaderLine(stamp: Stamp): string
    requires |stamp.fields| == 7
  {
    HEADER_PREFIX + HeaderHex(stamp) + "\n"
  }

  function RecordLine(r: Record): string {
    RECORD_PREFIX + Hex(RecordBytes(r)) + "\n"
  }

  /** The lines for the first `n` records: a header copy before records 0, 64, 128, ... */
  function DumpLines(stamp: Stamp, records: seq<Record>, n: nat): seq<string>
    requires |stamp.fields| == 7 && n <= |records|
  {
    if n == 0 then []
    else
      DumpLines(stamp, records, n - 1)
      + (if (n - 1) % HEADER_INTERVAL == 0 then [HeaderLine(stamp)] else [])
      + [RecordLine(records[n - 1])]
  }

  function SummaryLine(count: nat, notArchived: nat): string {
    "TRACER|INFO: dumped " + Decimal.Digits(count) + " records, " + Decimal.Digits(notArchived)
    + " not archived (archive full)\n"
  }

  /** `copy_field`: copies a C string into a field of a structure, cutting it off or padding it with NULs. */
  method CopyField(h: array<u8>, at: nat, width: nat, src: seq<u8>)
    requires CString(src) && at + width <= h.Length
    modifies h
    ensures h[at..at + width] == Field(width, src)
    ensures h[..at] == old(h[..at]) && h[at + width..] == old(h[at + width..])
  {
    var i := 0;
    while i < width && i < |src|
      invariant i <= width && i <= |src|
      invariant forall k :: at <= k < at + i ==> h[k] == src[k - at]
      invariant h[..at] == old(h[..at]) && h[at + width..] == old(h[at + width..])
    {
      h[at + i] := src[i];
      i := i + 1;
    }
    ghost var copied := i;
    while i < width
      invariant copied <= i <= width
      invariant forall k :: at <= k < at + i ==> h[k] == if k < at + copied then src[k - at] else 0
      invariant h[..at] == old(h[..at]) && h[at + width..] == old(h[at + width..])
    {
      h[at + i] := 0;
      i := i + 1;
    }
    ghost var field := Field(width, src);
    forall k | at <= k < at + width
      ensures h[k] == field[k - at]
    {
    }
    assert h[at..at + width] == field;
  }

  /** `emit_line`: the line fits its buffer, terminator included. */
  method EmitLine(line: array<char>, prefix: string, data: seq<u8>) returns (text: string)
    requires line.Length == LINE_MAX && |prefix| == LINE_PREFIX_LEN && |data| <= HEADER_SIZE
    modifies line
    ensures text == prefix + Hex(data) + "\n"
  {
    var pos := 0;
    for i := 0 to LINE_PREFIX_LEN
      invariant pos == i && line[..pos] == prefix[..i]
    {
      line[pos] := prefix[i];
      pos := pos + 1;
    }
    for i := 0 to |data|
      invariant pos == LINE_PREFIX_LEN + 2 * i
      invariant line[..pos] == prefix + Hex(data[..i])
    {
      ghost var done := line[..pos];
      line[pos] := DIGITS[data[i] / 16];
      pos := pos + 1;
      line[pos] := DIGITS[data[i] % 16];
      pos := pos + 1;
      assert line[..pos] == done + [DIGITS[data[i] / 16], DIGITS[data[i] % 16]];
      assert data[..i + 1] == data[..i] + [data[i]];
      HexAppend(data[..i], [data[i]]);
      HexOne(data[i]);
    }
    assert data[..|data|] == data;
    line[pos] := '\n';
    pos := pos + 1;
    line[pos] := '\0';
    text := line[..pos];
  }

  lemma {:induction false} HexOne(b: u8)
    ensures Hex([b]) == [DIGITS[b / 16], DIGITS[b % 16]]
  {
    assert [b][1..] == [];
  }

  /** The structure is filled up to `at`: its first `i` parts are there. */
  ghost predicate Filled(h: array<u8>, at: nat, parts: seq<seq<u8>>, i: nat)
    reads h
  {
    i <= |parts| && at <= h.Length && h[..at] == Join(parts[..i])
  }

  lemma {:induction false} JoinSnoc(parts: seq<seq<u8>>, i: nat)
    requires i < |parts|
    ensures Join(parts[..i + 1]) == Join(parts[..i]) + parts[i]
    decreases i
  {
    if i == 0 {
      assert parts[..1][1..] == [];
    } else {
      JoinSnoc(parts[1..], i - 1);
      assert parts[..i + 1][1..] == parts[1..][..i] && parts[..i][1..] == parts[1..][..i - 1];
    }
  }

  lemma {:induction false} CutInTwo(h: seq<u8>, at: nat, width: nat)
    requires at + width <= |h|
    ensures h[..at + width] == h[..at] + h[at..at + width]
  {
  }

  /** The next field of the structure is a text. */
  method PutText(h: array<u8>, at: nat, width: nat, src: seq<u8>, ghost parts: seq<seq<u8>>, ghost i: nat)
    requires CString(src) && at + width <= h.Length && Filled(h, at, parts, i)
    requires i < |parts| && parts[i] == Field(width, src)
    modifies h
    ensures Filled(h, at + width, parts, i + 1)
  {
    CopyField(h, at, width, src);
    JoinSnoc(parts, i);
    CutInTwo(h[..], at, width);
  }

  /** The next field of the structure is a number, stored on a little-endian machine. */
  method PutNumber(h: array<u8>, at: nat, width: nat, x: nat, ghost parts: seq<seq<u8>>, ghost i: nat)
    requires at + width <= h.Length && Filled(h, at, parts, i)
    requires i < |parts| && parts[i] == ToLE(width, x)
    modifies h
    ensures Filled(h, at + width, parts, i + 1)
  {
    var bytes := ToLE(width, x);
    for k := 0 to width
      invariant h[..at] == old(h[..at]) && h[at..at + k] == bytes[..k]
    {
      h[at + k] := bytes[k];
    }
    JoinSnoc(parts, i);
    CutInTwo(h[..], at, width);
  }

  method FillStamp(h: array<u8>, stamp: Stamp)
    requires h.Length == HEADER_SIZE && |stamp.fields| == 7 && CStrings(stamp.fields)
    requires Filled(h, 16, HeaderParts(stamp.cntfrq, stamp.fields), 4)
    modifies h
    ensures Filled(h, HEADER_SIZE, HeaderParts(stamp.cntfrq, stamp.fields), 11)
  {
    ghost var parts := HeaderParts(stamp.cntfrq, stamp.fields);
    PutText(h, 16, 16, stamp.fields[0], parts, 4);
    PutText(h, 32, 32, stamp.fields[1], parts, 5);
    PutText(h, 64, 48, stamp.fields[2], parts, 6);
    PutText(h, 112, 48, stamp.fields[3], parts, 7);
    PutText(h, 160, 48, stamp.fields[4], parts, 8);
    PutText(h, 208, 64, stamp.fields[5], parts, 9);
    PutText(h, 272, 64, stamp.fields[6], parts, 10);
  }

  /** `send_header`: fills the structure field by field and prints it. */
  method SendHeader(line: array<char>, stamp: Stamp) returns (text: string)
    requires line.Length == LINE_MAX && |stamp.fields| == 7 && CStrings(stamp.fields)
    modifies line
    ensures text == HeaderLine(stamp)
  {
    var h := new u8[HEADER_SIZE];
    ghost var parts := HeaderParts(stamp.cntfrq, stamp.fields);
    assert MAGIC == Field(8, MAGIC_TEXT);
    PutText(h, 0, 8, MAGIC_TEXT, parts, 0);
    PutNumber(h, 8, 2, VERSION, parts, 1);
    PutNumber(h, 10, 2, RECORD_SIZE, parts, 2);
    PutNumber(h, 12, 4, stamp.cntfrq, parts, 3);
    FillStamp(h, stamp);
    assert h[..HEADER_SIZE] == h[..] && parts[..11] == parts;
    text := EmitLine(line, HEADER_PREFIX, h[..]);
  }

  method SendRecord(line: array<char>, r: Record) returns (text: string)
    requires line.Length == LINE_MAX
    modifies line
    ensures text == RecordLine(r)
  {
    RecordRoundTrip(r);
    text := EmitLine(line, RECORD_PREFIX, RecordBytes(r));
  }

  /** `dump_archive`: prints the whole archive and then the summary. */
  method DumpArchive(stamp: Stamp, records: seq<Record>, notArchived: u64) returns (out: seq<string>)
    requires |stamp.fields| == 7 && CStrings(stamp.fields) && |records| <= ARCHIVE_CAPACITY
    ensures out == DumpLines(stamp, records, |records|) + [SummaryLine(|records|, notArchived)]
  {
    var line := new char[LINE_MAX];
    var sinceHeader := HEADER_INTERVAL;
    out := [];
    for i := 0 to |records|
      invariant out == DumpLines(stamp, records, i)
      invariant 0 < sinceHeader <= HEADER_INTERVAL && i % HEADER_INTERVAL == sinceHeader % HEADER_INTERVAL
    {
      HeaderDue(i, sinceHeader);
      if sinceHeader == HEADER_INTERVAL {
        var header := SendHeader(line, stamp);
        out := out + [header];
        sinceHeader := 0;
      }
      sinceHeader := sinceHeader + 1;
      var text := SendRecord(line, records[i]);
      out := out + [text];
    }
    var summary := Summarise(|records|, notArchived);
    out := out + [summary];
  }

  lemma {:induction false} HeaderDue(i: nat, sinceHeader: nat)
    requires 0 < sinceHeader <= HEADER_INTERVAL && i % HEADER_INTERVAL == sinceHeader % HEADER_INTERVAL
    ensures sinceHeader == HEADER_INTERVAL <==> i % HEADER_INTERVAL == 0
    ensures (i + 1) % HEADER_INTERVAL == (if sinceHeader == HEADER_INTERVAL then 1 else sinceHeader + 1) % HEADER_INTERVAL
  {
  }

  method Summarise(count: u64, notArchived: u64) returns (text: string)
    ensures text == SummaryLine(count, notArchived)
  {
    var stored := Decimal.PutDecimal(count);
    var lost := Decimal.PutDecimal(notArchived);
    text := "TRACER|INFO: dumped " + stored + " records, " + lost + " not archived (archive full)\n";
  }

  /** Both counts can be read back from the summary, each at its place. */
  lemma {:induction false} SummaryReads(count: nat, notArchived: nat)
    ensures exists a, b :: && Decimal.AllDigits(a) && Decimal.Value(a) == count
                           && Decimal.AllDigits(b) && Decimal.Value(b) == notArchived
                           && SummaryLine(count, notArchived)
                              == "TRACER|INFO: dumped " + a + " records, " + b + " not archived (archive full)\n"
  {
    Decimal.ValueOfDigits(count);
    Decimal.ValueOfDigits(notArchived);
    var a, b := Decimal.Digits(count), Decimal.Digits(notArchived);
    assert SummaryLine(count, notArchived)
        == "TRACER|INFO: dumped " + a + " records, " + b + " not archived (archive full)\n";
  }

  /** Record `i` stands behind `i` records and `i / 64 + 1` headers, and every 64th right behind a header. */
  ghost predicate Stands(lines: seq<string>, stamp: Stamp, records: seq<Record>, i: nat)
    requires |stamp.fields| == 7 && i < |records|
  {
    var at := i + i / 64 + 1;
    && at < |lines| && lines[at] == "TRC9 " + Hex(RecordBytes(records[i])) + "\n"
    && (i % 64 == 0 ==> lines[at - 1] == "TRH9 " + Hex(HeaderBytes(stamp.cntfrq, stamp.fields)) + "\n")
  }

  /** Where the lines of a dump stand, and how many there are. */
  lemma {:induction false} DumpPositions(stamp: Stamp, records: seq<Record>, n: nat, i: nat)
    requires |stamp.fields| == 7 && i < n <= |records|
    ensures |DumpLines(stamp, records, n)| == n + (n + 63) / 64 && Stands(DumpLines(stamp, records, n), stamp, records, i)
    decreases n
  {
    DumpLength(stamp, records, n);
    DumpBlock(stamp, records, n);
    if i < n - 1 {
      DumpPositions(stamp, records, n - 1, i);
    } else {
      DumpLength(stamp, records, i);
      LastStands(DumpLines(stamp, records, i), DumpLines(stamp, records, n), stamp, records, i);
    }
  }

  lemma {:induction false} LastStands(before: seq<string>, lines: seq<string>, stamp: Stamp, records: seq<Record>, i: nat)
    requires |stamp.fields| == 7 && i < |records| && |before| == i + (i + 63) / 64 < |lines|
    requires lines[|lines| - 1] == RecordLine(records[i])
    requires if i % 64 == 0 then |lines| == |before| + 2 && lines[|before|] == HeaderLine(stamp) else |lines| == |before| + 1
    ensures Stands(lines, stamp, records, i)
  {
    assert (i + 63) / 64 == i / 64 + if i % 64 == 0 then 0 else 1;
  }

  /** The last record of a dump comes behind the lines of the others, and behind a header when one is due. */
  lemma {:induction false} DumpBlock(stamp: Stamp, records: seq<Record>, n: nat)
    requires |stamp.fields| == 7 && 0 < n <= |records|
    ensures var before, lines := DumpLines(stamp, records, n - 1), DumpLines(stamp, records, n);
            && before <= lines && lines[|lines| - 1] == RecordLine(records[n - 1])
            && ((n - 1) % 64 == 0 ==> |lines| == |before| + 2 && lines[|before|] == HeaderLine(stamp))
            && ((n - 1) % 64 != 0 ==> |lines| == |before| + 1)
  {
  }

  lemma {:induction false} DumpLength(stamp: Stamp, records: seq<Record>, n: nat)
    requires |stamp.fields| == 7 && n <= |records|
    ensures |DumpLines(stamp, records, n)| == n + (n + 63) / 64
    decreases n
  {
    if n > 0 {
      DumpLength(stamp, records, n - 1);
    }
  }
}
