/** From `trace_emit` to the host: what the decoder reads back is what was published, in order. */
module TraceRoundTrip {
  import opened TraceTypes
  import opened TraceCodec
  import opened TraceDump
  import opened TraceDecode
  import Decimal
  import P = TracePipeline

  // ---------------------------------------------------------------- one line, with text before it

  predicate Quiet(line: string) {
    Tagless(line, 'H') && Tagless(line, 'C')
  }

  /** A dump line as it appears in a serial log: other output may precede it, as long as it holds no tag. */
  ghost predicate Carries(line: string, text: string) {
    exists pre: string :: line == pre + text && Quiet(pre)
  }

  function Text(c: char, data: seq<u8>): string {
    ['T', 'R', c, '9', ' '] + Hex(data) + "\n"
  }

  /** The only tag in the line is the printed one: the text before it cannot complete a tag with it. */
  lemma {:induction false} OnlyTag(pre: string, c: char, data: seq<u8>, d: char, i: nat)
    requires Tagless(pre, d) && (d == 'H' || d == 'C') && (c == 'H' || c == 'C')
    requires i != |pre| || d != c
    ensures !TagAt(pre + Text(c, data), d, i)
  {
    var line := pre + Text(c, data);
    var text := Text(c, data);
    if i + 5 <= |pre| {
      assert TagAt(line, d, i) == TagAt(pre, d, i);
    } else if i < |pre| {
      assert line[|pre|] == text[0] == 'T';
    } else if |pre| < i < |line| {
      TextHasOneT(c, data, i - |pre|);
      assert line[i] == text[i - |pre|];
    } else if i == |pre| {
      assert line[i + 2] == text[2] == c;
    }
  }

  lemma {:induction false} TextHasOneT(c: char, data: seq<u8>, k: nat)
    requires 0 < k < |Text(c, data)| && (k == 2 ==> c != 'T')
    ensures Text(c, data)[k] != 'T'
  {
    var h := Hex(data);
    if 5 <= k < 5 + |h| {
      assert Text(c, data)[k] == h[k - 5] && IsHex(h[k - 5]);
    }
  }

  lemma {:induction false} HexRunIs(line: string, from: nat, h: string)
    requires from + |h| < |line| && line[from..from + |h|] == h
    requires forall k :: 0 <= k < |h| ==> IsHex(h[k])
    requires !IsHex(line[from + |h|])
    ensures HexRun(line, from) == h
    decreases |h|
  {
    if h != [] {
      assert line[from] == h[0];
      assert line[from + 1..from + 1 + |h[1..]|] == h[1..];
      HexRunIs(line, from + 1, h[1..]);
    }
  }

  lemma {:induction false} SearchFinds(pre: string, c: char, data: seq<u8>)
    requires Quiet(pre) && (c == 'H' || c == 'C')
    ensures Search(pre + Text(c, data), c) == Some(Tagged(9, Hex(data)))
  {
    var line, at := pre + Text(c, data), |pre|;
    TextStands(pre, c, data);
    var found := FindTag(line, c, 0);
    if found.value != at {
      OnlyTag(pre, c, data, c, found.value);
    }
    HexRunIs(line, at + 5, Hex(data));
  }

  /** The tag, the digit, the hex and the newline, behind the text before them. */
  lemma {:induction false} TextStands(pre: string, c: char, data: seq<u8>)
    requires c == 'H' || c == 'C'
    ensures var line, at := pre + Text(c, data), |pre|; var n := |Hex(data)|;
            && |line| == at + 6 + n && TagAt(line, c, at) && line[at + 3] == '9'
            && line[at + 5..at + 5 + n] == Hex(data) && line[at + 5 + n] == '\n'
  {
    var line, text, at := pre + Text(c, data), Text(c, data), |pre|;
    assert forall k :: 0 <= k < |text| ==> line[at + k] == text[k];
    assert line[at + 5..at + 5 + |Hex(data)|] == text[5..5 + |Hex(data)|];
  }

  lemma {:induction false} SearchMisses(pre: string, c: char, data: seq<u8>, d: char)
    requires Quiet(pre) && (d == 'H' || d == 'C') && (c == 'H' || c == 'C') && d != c
    ensures Search(pre + Text(c, data), d) == None
  {
    var found := FindTag(pre + Text(c, data), d, 0);
    if found.Some? {
      OnlyTag(pre, c, data, d, found.value);
    }
  }

  lemma {:induction false} HeaderTextClassified(line: string, stamp: Stamp)
    requires |stamp.fields| == 7 && Carries(line, HeaderLine(stamp))
    ensures Classify(line) == HeaderItem(Tagged(9, HeaderHex(stamp)))
  {
    var pre :| line == pre + HeaderLine(stamp) && Quiet(pre);
    var data := HeaderBytes(stamp.cntfrq, stamp.fields);
    assert HeaderLine(stamp) == Text('H', data);
    SearchFinds(pre, 'H', data);
  }

  lemma {:induction false} RecordTextClassified(line: string, r: Record)
    requires Carries(line, RecordLine(r))
    ensures Classify(line) == RecordItem(Tagged(9, Hex(RecordBytes(r))))
  {
    var pre :| line == pre + RecordLine(r) && Quiet(pre);
    assert RecordLine(r) == Text('C', RecordBytes(r));
    SearchFinds(pre, 'C', RecordBytes(r));
    SearchMisses(pre, 'C', RecordBytes(r), 'H');
  }

  lemma {:induction false} QuietIsNoise(line: string)
    requires Quiet(line)
    ensures Classify(line) == Noise
  {
  }

  // ---------------------------------------------------------------- a dump in a noisy log

  /** `log` is the lines of `dump` in order, each possibly after other output, among lines that hold no tag. */
  ghost predicate Noisy(dump: seq<string>, log: seq<string>)
    decreases |log|
  {
    if log == [] then dump == []
    else
      var line, earlier := log[|log| - 1], log[..|log| - 1];
      || (Quiet(line) && Noisy(dump, earlier))
      || (dump != [] && Carries(line, dump[|dump| - 1]) && Noisy(dump[..|dump| - 1], earlier))
  }

  function RecordTag(r: Record): Tagged {
    Tagged(9, Hex(RecordBytes(r)))
  }

  function HeaderTag(stamp: Stamp): Tagged
    requires |stamp.fields| == 7
  {
    Tagged(9, HeaderHex(stamp))
  }

  function RecordTags(records: seq<Record>): (tags: seq<Tagged>)
    ensures |tags| == |records|
  {
    seq(|records|, i requires 0 <= i < |records| => RecordTag(records[i]))
  }

  predicate HeaderDue(i: nat) {
    i % HEADER_INTERVAL == 0
  }

  /** What the decoder is meant to make of the first lines of a dump, up to record `n`. */
  function DumpItems(header: Tagged, tags: seq<Tagged>, n: nat): seq<Item>
    requires n <= |tags|
  {
    if n == 0 then []
    else
      DumpItems(header, tags, n - 1) + Block(header, HeaderDue(n - 1), tags[n - 1])
  }

  /** However the line is preceded by other output, the decoder takes it for `item`. */
  ghost predicate Stable(text: string, item: Item) {
    forall line: string :: Carries(line, text) ==> Classify(line) == item
  }

  ghost predicate AllStable(lines: seq<string>, items: seq<Item>) {
    |lines| == |items| && forall i :: 0 <= i < |lines| ==> Stable(lines[i], items[i])
  }

  lemma {:induction false} AllStableAppend(a: seq<string>, b: seq<Item>, c: seq<string>, d: seq<Item>)
    requires AllStable(a, b) && AllStable(c, d)
    ensures AllStable(a + c, b + d)
  {
  }

  function BlockLines(stamp: Stamp, due: bool, r: Record): seq<string>
    requires |stamp.fields| == 7
  {
    (if due then [HeaderLine(stamp)] else []) + [RecordLine(r)]
  }

  lemma {:induction false} BlockStable(stamp: Stamp, due: bool, r: Record)
    requires |stamp.fields| == 7
    ensures AllStable(BlockLines(stamp, due, r), Block(HeaderTag(stamp), due, RecordTag(r)))
  {
    HeaderLineStable(stamp);
    RecordLineStable(r);
  }

  lemma {:induction false} DumpLinesStep(stamp: Stamp, records: seq<Record>, n: nat)
    requires |stamp.fields| == 7 && 0 < n <= |records|
    ensures DumpLines(stamp, records, n)
            == DumpLines(stamp, records, n - 1) + BlockLines(stamp, HeaderDue(n - 1), records[n - 1])
  {
  }

  lemma {:induction false} DumpItemsStep(header: Tagged, records: seq<Record>, n: nat)
    requires 0 < n <= |records|
    ensures DumpItems(header, RecordTags(records), n)
            == DumpItems(header, RecordTags(records), n - 1) + Block(header, HeaderDue(n - 1), RecordTag(records[n - 1]))
  {
  }

  lemma {:induction false} DumpLinesStable(stamp: Stamp, records: seq<Record>, n: nat)
    requires |stamp.fields| == 7 && n <= |records|
    ensures AllStable(DumpLines(stamp, records, n), DumpItems(HeaderTag(stamp), RecordTags(records), n))
  {
    if n > 0 {
      DumpLinesStable(stamp, records, n - 1);
      var due, r := HeaderDue(n - 1), records[n - 1];
      BlockStable(stamp, due, r);
      DumpLinesStep(stamp, records, n);
      DumpItemsStep(HeaderTag(stamp), records, n);
      AllStableAppend(DumpLines(stamp, records, n - 1), DumpItems(HeaderTag(stamp), RecordTags(records), n - 1),
                      BlockLines(stamp, due, r), Block(HeaderTag(stamp), due, RecordTag(r)));
    }
  }

  lemma {:induction false} HeaderLineStable(stamp: Stamp)
    requires |stamp.fields| == 7
    ensures Stable(HeaderLine(stamp), HeaderItem(HeaderTag(stamp)))
  {
    forall line: string | Carries(line, HeaderLine(stamp))
      ensures Classify(line) == HeaderItem(HeaderTag(stamp))
    {
      HeaderTextClassified(line, stamp);
    }
  }

  lemma {:induction false} RecordLineStable(r: Record)
    ensures Stable(RecordLine(r), RecordItem(RecordTag(r)))
  {
    forall line: string | Carries(line, RecordLine(r)) ensures Classify(line) == RecordItem(RecordTag(r)) {
      RecordTextClassified(line, r);
    }
  }

  /** `b` is `a` with noise mixed in. */
  ghost predicate Padded(a: seq<Item>, b: seq<Item>)
    decreases |b|
  {
    if b == [] then a == []
    else
      || (b[|b| - 1].Noise? && Padded(a, b[..|b| - 1]))
      || (a != [] && a[|a| - 1] == b[|b| - 1] && Padded(a[..|a| - 1], b[..|b| - 1]))
  }

  lemma {:induction false} PaddedSame(a: seq<Item>, b: seq<Item>)
    requires Padded(a, b)
    ensures Records(a) == Records(b) && Headers(a) == Headers(b)
    decreases |b|
  {
    if b != [] {
      if b[|b| - 1].Noise? && Padded(a, b[..|b| - 1]) {
        PaddedSame(a, b[..|b| - 1]);
      } else {
        PaddedSame(a[..|a| - 1], b[..|b| - 1]);
      }
    }
  }

  lemma {:induction false} NoisyPadded(dump: seq<string>, items: seq<Item>, log: seq<string>)
    requires AllStable(dump, items)
    requires Noisy(dump, log)
    ensures Padded(items, Items(log))
    decreases |log|
  {
    if log != [] {
      var line, earlier := log[|log| - 1], log[..|log| - 1];
      assert Items(log)[..|log| - 1] == Items(earlier);
      if Quiet(line) && Noisy(dump, earlier) {
        QuietIsNoise(line);
        NoisyPadded(dump, items, earlier);
      } else {
        assert Stable(dump[|dump| - 1], items[|items| - 1]);
        NoisyPadded(dump[..|dump| - 1], items[..|items| - 1], earlier);
      }
    }
  }

  lemma {:induction false} ItemsSnoc(items: seq<Item>, item: Item)
    ensures Records(items + [item]) == Records(items) + (if item.RecordItem? then [item.tag] else [])
    ensures Headers(items + [item]) == Headers(items) + (if item.HeaderItem? then [item.tag] else [])
  {
    assert (items + [item])[..|items|] == items;
  }

  function Block(header: Tagged, due: bool, tag: Tagged): seq<Item> {
    (if due then [HeaderItem(header)] else []) + [RecordItem(tag)]
  }

  lemma {:induction false} BlockSnoc(before: seq<Item>, header: Tagged, due: bool, tag: Tagged)
    ensures Records(before + Block(header, due, tag)) == Records(before) + [tag]
    ensures Headers(before + Block(header, due, tag)) == Headers(before) + if due then [header] else []
  {
    if due {
      ItemsSnoc(before, HeaderItem(header));
      ItemsSnoc(before + [HeaderItem(header)], RecordItem(tag));
      assert before + Block(header, due, tag) == before + [HeaderItem(header)] + [RecordItem(tag)];
    } else {
      ItemsSnoc(before, RecordItem(tag));
      assert before + Block(header, due, tag) == before + [RecordItem(tag)];
    }
  }

  ghost predicate AllAre(tags: seq<Tagged>, tag: Tagged) {
    forall i :: 0 <= i < |tags| ==> tags[i] == tag
  }

  /** The items hold exactly these record tags, and only copies of this header, at least one if there are records. */
  ghost predicate Holds(items: seq<Item>, header: Tagged, tags: seq<Tagged>) {
    && Records(items) == tags && AllAre(Headers(items), header)
    && (tags != [] ==> Headers(items) != [])
  }

  lemma {:induction false} HoldsOneMore(items: seq<Item>, header: Tagged, tags: seq<Tagged>, due: bool, tag: Tagged)
    requires Holds(items, header, tags) && (tags == [] ==> due)
    ensures Holds(items + Block(header, due, tag), header, tags + [tag])
  {
    BlockSnoc(items, header, due, tag);
  }

  lemma {:induction false} DumpItemsHold(header: Tagged, tags: seq<Tagged>, n: nat)
    requires n <= |tags|
    ensures Holds(DumpItems(header, tags, n), header, tags[..n])
  {
    if n > 0 {
      var items, front := DumpItems(header, tags, n - 1), tags[..n - 1];
      DumpItemsHold(header, tags, n - 1);
      HoldsOneMore(items, header, front, HeaderDue(n - 1), tags[n - 1]);
      assert tags[..n] == front + [tags[n - 1]];
      HoldsSame(items + Block(header, HeaderDue(n - 1), tags[n - 1]), DumpItems(header, tags, n), header,
                front + [tags[n - 1]], tags[..n]);
    }
  }

  lemma {:induction false} HoldsSame(items: seq<Item>, items': seq<Item>, header: Tagged, tags: seq<Tagged>, tags': seq<Tagged>)
    requires Holds(items, header, tags) && items == items' && tags == tags'
    ensures Holds(items', header, tags')
  {
  }

  /** However the dump is mixed with other output, the decoder sees its header copies and records, in order. */
  lemma {:induction false} NoisyDumpSeen(stamp: Stamp, records: seq<Record>, log: seq<string>)
    requires |stamp.fields| == 7 && Noisy(DumpLines(stamp, records, |records|), log)
    ensures Holds(Items(log), HeaderTag(stamp), RecordTags(records))
  {
    var n, tags := |records|, RecordTags(records);
    DumpLinesStable(stamp, records, n);
    var items := DumpItems(HeaderTag(stamp), tags, n);
    NoisyPadded(DumpLines(stamp, records, n), items, log);
    PaddedSame(items, Items(log));
    DumpItemsHold(HeaderTag(stamp), tags, n);
    assert tags[..n] == tags;
  }

  /** Any log is a noisy form of itself. */
  lemma {:induction false} NoisyReflexive(log: seq<string>)
    ensures Noisy(log, log)
    decreases |log|
  {
    if log != [] {
      var line := log[|log| - 1];
      assert line == "" + line && Quiet("");
      NoisyReflexive(log[..|log| - 1]);
    }
  }

  lemma {:induction false} SummaryIsQuiet(count: nat, notArchived: nat)
    ensures Quiet(SummaryLine(count, notArchived))
  {
    var head := "TRACER|INFO: dumped ";
    var rest := Decimal.Digits(count) + " records, " + Decimal.Digits(notArchived) + " not archived (archive full)\n";
    var line := SummaryLine(count, notArchived);
    assert line == head + rest;
    assert forall k :: 0 <= k < |rest| ==> rest[k] != 'T';
    assert forall k :: 1 <= k < |head| ==> head[k] != 'T';
    assert line[2] == 'A';
  }

  /** What `DumpArchive` prints is a dump in a noisy log. */
  lemma {:induction false} PrintedDumpIsNoisy(stamp: Stamp, records: seq<Record>, notArchived: nat)
    requires |stamp.fields| == 7
    ensures var dump := DumpLines(stamp, records, |records|);
            Noisy(dump, dump + [SummaryLine(|records|, notArchived)])
  {
    var dump := DumpLines(stamp, records, |records|);
    NoisyReflexive(dump);
    SummaryIsQuiet(|records|, notArchived);
    var log := dump + [SummaryLine(|records|, notArchived)];
    assert log[..|log| - 1] == dump;
  }

  /** Records the tracer can hold: numbered from 0 without a gap, with kinds 1 to 6. */
  ghost predicate Archived(records: seq<Record>) {
    forall i :: 0 <= i < |records| ==> records[i].num == i && 1 <= records[i].body.kind <= 6
  }

  lemma {:induction false} RecordTagsGood(records: seq<Record>)
    requires Archived(records)
    ensures RecordsGood(9, RecordTags(records))
    ensures forall i :: 0 <= i < |records| ==> ParseRecord(RecordTags(records)[i].hex) == Some(records[i])
  {
    forall i | 0 <= i < |records| ensures ParseRecord(RecordTags(records)[i].hex) == Some(records[i]) {
      HexRoundTrip(RecordBytes(records[i]));
      RecordRoundTrip(records[i]);
    }
  }

  lemma {:induction false} HeaderTagGood(stamp: Stamp)
    requires StampOk(stamp.fields)
    ensures ParseHeader(HeaderHex(stamp)) == Some(Header(9, stamp.cntfrq, Cut(stamp.fields)))
    ensures GoodHeader(HeaderTag(stamp))
  {
    HexRoundTrip(HeaderBytes(stamp.cntfrq, stamp.fields));
    HeaderRoundTrip(stamp.cntfrq, stamp.fields);
  }

  /** One dump of a non-empty archive, however noisy the log, decodes to the archive and the stamp without error. */
  lemma {:induction false} DumpRoundTrip(stamp: Stamp, records: seq<Record>, log: seq<string>)
    requires StampOk(stamp.fields) && records != [] && Archived(records)
    requires Noisy(DumpLines(stamp, records, |records|), log)
    ensures var d := FeedAll(Items(log));
            && Errors(d) == 0 && d.tally.decoded == records
            && d.header == Some(Header(9, stamp.cntfrq, Cut(stamp.fields)))
  {
    NoisyDumpSeen(stamp, records, log);
    HeaderTagGood(stamp);
    RecordTagsGood(records);
    var items := Items(log);
    assert HeadersAgree(Headers(items));
    assert GoodLog(items);
    DecoderIsExact(log);
    var d := FeedAll(items);
    assert forall i :: 0 <= i < |records| ==> ParseRecord(Records(items)[i].hex) == Some(records[i]);
  }

  // ---------------------------------------------------------------- from the ring to the host

  predicate KindOk(b: Body) {
    1 <= b.kind <= 6
  }

  ghost predicate StepsOk(steps: seq<P.Step>) {
    forall i :: 0 <= i < |steps| && steps[i].Emit? ==> KindOk(steps[i].body)
  }

  ghost predicate KindsOk(s: P.State) {
    && (forall i :: 0 <= i < |s.log| ==> KindOk(s.log[i].body))
    && (forall p, i :: 0 <= p < |s.producers| && 0 <= i < |P.InFlight(s.producers[p])| ==>
          KindOk(P.InFlight(s.producers[p])[i]))
  }

  lemma {:induction false} StepKeepsKinds(s: P.State, step: P.Step)
    requires P.Shape(s) && KindsOk(s) && (step.Emit? ==> KindOk(step.body))
    ensures KindsOk(P.Next(s, step))
  {
    if step.Produce? && step.p < |s.producers| {
      P.MoverInFlight(s, step.p);
      P.ProducerFrame(s, step.p);
      if s.producers[step.p].StoreHead? {
        assert KindOk(P.InFlight(s.producers[step.p])[0]);
      }
    } else if step.Trace? {
      P.TracerFrame(s);
    }
  }

  lemma {:induction false} RunKeepsKinds(s: P.State, steps: seq<P.Step>)
    requires P.Shape(s) && KindsOk(s) && StepsOk(steps)
    ensures KindsOk(P.Run(s, steps))
    decreases |steps|
  {
    if steps != [] {
      StepKeepsKinds(s, steps[0]);
      RunKeepsKinds(P.Next(s, steps[0]), steps[1..]);
    }
  }

  /** What a dump would print of the archive: a torn slot could hold anything. */
  function Printed(slots: seq<P.Slot>, torn: Record): (r: seq<Record>)
    ensures |r| == |slots|
  {
    seq(|slots|, i requires 0 <= i < |slots| => if slots[i].Full? then slots[i].rec else torn)
  }

  /**
   Nothing is dropped: whenever the tracer dumps a non-empty archive, in any interleaving of the producers
   and the tracer, decoding the log gives a gapless prefix of the publication order, without error. The
   prefix is everything the tracer has drained, as long as the archive has not overflowed.
   */
  lemma {:induction false} EveryDumpDecodesToAPrefix(n: nat, steps: seq<P.Step>, torn: Record, stamp: Stamp, log: seq<string>)
    requires n <= 0x100 && StepsOk(steps) && |P.Run(P.Init(n), steps).log| < TWO64
    requires StampOk(stamp.fields) && P.Run(P.Init(n), steps).archive != []
    requires var records := Printed(P.Run(P.Init(n), steps).archive, torn);
             Noisy(DumpLines(stamp, records, |records|), log)
    ensures var s := P.Run(P.Init(n), steps); var d := FeedAll(Items(log));
            && |s.archive| <= |s.log| && s.tail <= |s.log|
            && Errors(d) == 0 && d.tally.decoded == s.log[..|s.archive|]
            && (s.notArchived == 0 && !s.tracer.StoreTail? ==> d.tally.decoded == s.log[..s.tail])
  {
    P.EveryRunAccounted(n, steps);
    RunKeepsKinds(P.Init(n), steps);
    var s := P.Run(P.Init(n), steps);
    var records := Printed(s.archive, torn);
    assert records == s.log[..|s.archive|];
    DumpRoundTrip(stamp, records, log);
  }
}
