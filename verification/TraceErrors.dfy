/**
 What the decoder makes of any log, damaged or not: which records it decodes, and what each of its errors stands for.
 A gap costs one error, and decoding goes on behind it.
 */
module TraceErrors {
  import opened TraceTypes
  import opened TraceCodec
  import opened TraceDecode
  import TraceLayout

  // ---------------------------------------------------------------- what is in a log

  /** The kinds of each version of the format, as numbers. */
  lemma {:induction false} KindTable(version: nat, kind: u8)
    ensures KindDefined(version, kind) <==>
              || (version == 0 && kind == 1)
              || (version == 1 && kind in {1, 2, 3, 4})
              || (version == 2 && kind in {1, 2, 3, 4, 5})
              || (version > 2 && kind in {1, 2, 3, 4, 5, 6})
  {
  }

  /** A line is a header if it has a header tag anywhere; otherwise a record if it has a record tag anywhere. */
  lemma {:induction false} ClassifyExactly(line: string)
    ensures Classify(line).HeaderItem? <==> !Tagless(line, 'H')
    ensures Classify(line).RecordItem? <==> Tagless(line, 'H') && !Tagless(line, 'C')
  {
  }

  /** Record text is 128 digits, and its bytes are read at their places. */
  lemma {:induction false} RecordTextExactly(hex: HexText)
    ensures ParseRecord(hex).Some? <==> |hex| == 128
    ensures ParseRecord(hex).Some? ==> exists raw :: TraceLayout.Spells(hex, raw) && ParseRecord(hex).value == UnpackRecord(raw)
  {
    TraceLayout.HexReads(hex);
  }

  /** Header text is 672 digits that spell acceptable bytes. */
  lemma {:induction false} HeaderTextExactly(hex: HexText)
    ensures ParseHeader(hex).Some? <==> exists raw :: TraceLayout.Spells(hex, raw) && TraceLayout.GoodHeaderBytes(raw)
    ensures ParseHeader(hex).Some? ==> |hex| == 672
  {
    TraceLayout.HexReads(hex);
    if FromHex(hex).Some? {
      TraceLayout.HeaderReads(FromHex(hex).value);
    }
    forall raw | TraceLayout.Spells(hex, raw)
      ensures FromHex(hex) == Some(raw)
    {
      SpellsOne(hex, raw, FromHex(hex).value);
    }
  }

  lemma {:induction false} SpellsOne(s: string, a: seq<u8>, b: seq<u8>)
    requires TraceLayout.Spells(s, a) && TraceLayout.Spells(s, b)
    ensures a == b
  {
    forall k | 0 <= k < |a|
      ensures a[k] == b[k]
    {
      LowerDigitInjective(a[k] / 16, b[k] / 16);
      LowerDigitInjective(a[k] % 16, b[k] % 16);
    }
  }

  lemma {:induction false} LowerDigitInjective(d: nat, e: nat)
    requires d < 16 && e < 16 && TraceLayout.LowerDigit(d) == TraceLayout.LowerDigit(e)
    ensures d == e
  {
  }

  // ---------------------------------------------------------------- record lines

  /** A record line that counts: it carries the version's digit and its text parses. */
  predicate Readable(version: nat, tag: Tagged) {
    tag.digit == version && ParseRecord(tag.hex).Some?
  }

  /** The records of the readable lines, in order. */
  function Read(version: nat, tags: seq<Tagged>): seq<Record> {
    if tags == [] then []
    else
      var last := tags[|tags| - 1];
      Read(version, tags[..|tags| - 1]) + if Readable(version, last) then [ParseRecord(last.hex).value] else []
  }

  function Unreadable(version: nat, tags: seq<Tagged>): nat {
    if tags == [] then 0
    else Unreadable(version, tags[..|tags| - 1]) + if Readable(version, tags[|tags| - 1]) then 0 else 1
  }

  function UnknownKinds(version: nat, records: seq<Record>): nat {
    if records == [] then 0
    else
      UnknownKinds(version, records[..|records| - 1])
      + if KindDefined(version, records[|records| - 1].body.kind) then 0 else 1
  }

  /** The number that record `k` should have: one more than the record before it, 0 for the first. */
  function Due(records: seq<Record>, k: nat): nat
    requires k <= |records|
  {
    if k == 0 then 0 else records[k - 1].num + 1
  }

  /** The records whose number is not the one that is due. */
  function Jumps(records: seq<Record>): nat {
    if records == [] then 0
    else
      var n := |records| - 1;
      Jumps(records[..n]) + if records[n].num == Due(records, n) then 0 else 1
  }

  function RecordErrors(version: nat, tags: seq<Tagged>): nat {
    Unreadable(version, tags) + UnknownKinds(version, Read(version, tags)) + Jumps(Read(version, tags))
  }

  lemma {:induction false} OneMoreRecord(version: nat, records: seq<Record>, r: Record)
    ensures UnknownKinds(version, records + [r]) == UnknownKinds(version, records) + if KindDefined(version, r.body.kind) then 0 else 1
    ensures Jumps(records + [r]) == Jumps(records) + if r.num == Due(records, |records|) then 0 else 1
    ensures Due(records + [r], |records| + 1) == r.num + 1
  {
    assert (records + [r])[..|records|] == records;
  }

  /** What one more record line adds to the errors. */
  lemma {:induction false} OneMoreLine(version: nat, front: seq<Tagged>, tag: Tagged)
    ensures !Readable(version, tag) ==>
              && Read(version, front + [tag]) == Read(version, front)
              && RecordErrors(version, front + [tag]) == RecordErrors(version, front) + 1
    ensures Readable(version, tag) ==>
              var r, records := ParseRecord(tag.hex).value, Read(version, front);
              && Read(version, front + [tag]) == records + [r]
              && RecordErrors(version, front + [tag]) ==
                 RecordErrors(version, front) + (if KindDefined(version, r.body.kind) then 0 else 1)
                                              + (if r.num == Due(records, |records|) then 0 else 1)
  {
    assert (front + [tag])[..|front|] == front;
    if Readable(version, tag) {
      OneMoreRecord(version, Read(version, front), ParseRecord(tag.hex).value);
    } else {
      assert Read(version, front + [tag]) == Read(version, front);
    }
  }

  /** The tally is that of these record lines, with some errors on top. */
  ghost predicate TallyIs(t: Tally, version: nat, extra: nat, tags: seq<Tagged>) {
    var records := Read(version, tags);
    t.decoded == records && t.expected == Due(records, |records|) && t.errors == extra + RecordErrors(version, tags)
  }

  lemma {:induction false} RecordStep(t: Tally, version: nat, extra: nat, front: seq<Tagged>, tag: Tagged)
    requires TallyIs(t, version, extra, front)
    ensures TallyIs(TakeRecord(version, t, tag), version, extra, front + [tag])
  {
    OneMoreLine(version, front, tag);
    if Readable(version, tag) {
      OneMoreRecord(version, Read(version, front), ParseRecord(tag.hex).value);
    }
  }

  lemma {:induction false} TakeSnoc(version: nat, t: Tally, front: seq<Tagged>, tag: Tagged)
    ensures TakeRecords(version, t, front + [tag]) == TakeRecord(version, TakeRecords(version, t, front), tag)
  {
    assert (front + [tag])[..|front|] == front;
  }

  /** Record lines, from a fresh start with some errors already: what is decoded and what is counted. */
  ghost predicate Counted(version: nat, extra: nat, tags: seq<Tagged>) {
    TallyIs(TakeRecords(version, Tally(0, [], extra), tags), version, extra, tags)
  }

  lemma {:induction false} CountedSnoc(version: nat, extra: nat, front: seq<Tagged>, tag: Tagged)
    requires Counted(version, extra, front)
    ensures Counted(version, extra, front + [tag])
  {
    TakeSnoc(version, Tally(0, [], extra), front, tag);
    RecordStep(TakeRecords(version, Tally(0, [], extra), front), version, extra, front, tag);
  }

  lemma {:induction false} RecordsCounted(version: nat, extra: nat, tags: seq<Tagged>, n: nat)
    requires n <= |tags|
    ensures Counted(version, extra, tags[..n])
    decreases n
  {
    if n > 0 {
      RecordsCounted(version, extra, tags, n - 1);
      CountedSnoc(version, extra, tags[..n - 1], tags[n - 1]);
      assert tags[..n] == tags[..n - 1] + [tags[n - 1]];
    }
  }

  // ---------------------------------------------------------------- header lines

  /** The first good header line. */
  function FirstGood(items: seq<Item>): Option<Tagged> {
    if items == [] then None
    else
      var before, last := FirstGood(items[..|items| - 1]), items[|items| - 1];
      if before.None? && last.HeaderItem? && GoodHeader(last.tag) then Some(last.tag) else before
  }

  /** Header lines that are bad, and good ones that differ from the first good one. */
  function HeaderErrors(items: seq<Item>): nat {
    if items == [] then 0
    else
      var before, last := items[..|items| - 1], items[|items| - 1];
      HeaderErrors(before)
      + if last.HeaderItem? && (!GoodHeader(last.tag) || (FirstGood(before).Some? && FirstGood(before).value.hex != last.tag.hex))
        then 1 else 0
  }

  /** The decoder's state after any lines, in terms of what was in them. */
  ghost predicate StateIs(d: Decoder, items: seq<Item>) {
    match FirstGood(items)
    case None =>
      d == Decoder(None, "", Records(items), Tally(0, [], HeaderErrors(items)))
    case Some(first) =>
      && GoodHeader(first) && d.header == ParseHeader(first.hex) && d.headerHex == first.hex && d.pending == []
      && TallyIs(d.tally, ParseHeader(first.hex).value.version, HeaderErrors(items), Records(items))
  }

  lemma {:induction false} StateStep(d: Decoder, before: seq<Item>, item: Item)
    requires StateIs(d, before)
    ensures StateIs(Feed(d, item), before + [item])
  {
    var items := before + [item];
    assert items[..|items| - 1] == before;
    match item
    case Noise =>
      assert Records(items) == Records(before);
    case HeaderItem(tag) =>
      assert Records(items) == Records(before);
      if FirstGood(before).None? && GoodHeader(tag) {
        var tags := Records(before);
        RecordsCounted(ParseHeader(tag.hex).value.version, HeaderErrors(before), tags, |tags|);
        assert tags[..|tags|] == tags;
      }
    case RecordItem(tag) =>
      assert Records(items) == Records(before) + [tag];
      if FirstGood(before).Some? {
        RecordStep(d.tally, ParseHeader(FirstGood(before).value.hex).value.version, HeaderErrors(before), Records(before), tag);
      }
  }

  lemma {:induction false} StateOfAll(items: seq<Item>)
    ensures StateIs(FeedAll(items), items)
    decreases |items|
  {
    if items != [] {
      var before, last := items[..|items| - 1], items[|items| - 1];
      StateOfAll(before);
      StateStep(FeedAll(before), before, last);
      assert before + [last] == items;
    }
  }

  /**
   Any log. With a good header line: every record line that carries its digit and parses is decoded, in order,
   wherever the header stands and whatever is wrong around it; and the errors are the bad and the differing header
   lines, the unreadable record lines, the undefined kinds, and the records whose number is not one more than that of
   the decoded record before. Without: nothing is decoded, and the errors are the bad header lines and one more.
   */
  lemma {:induction false} EveryLogCounted(log: seq<string>)
    ensures var d := FeedAll(Items(log)); var items := Items(log);
            match FirstGood(items)
            case None => d.header == None && d.tally.decoded == [] && Errors(d) == HeaderErrors(items) + 1
            case Some(first) =>
              && ParseHeader(first.hex).Some? && d.header == ParseHeader(first.hex)
              && var version := ParseHeader(first.hex).value.version;
                 var records := Read(version, Records(items));
                 && d.tally.decoded == records
                 && Errors(d) == HeaderErrors(items) + Unreadable(version, Records(items))
                                 + UnknownKinds(version, records) + Jumps(records)
  {
    StateOfAll(Items(log));
  }
}
