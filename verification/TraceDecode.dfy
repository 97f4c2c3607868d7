/** The host decoder: it finds header and record lines in a serial log and checks them. */
module TraceDecode {
  import opened TraceTypes
  import opened TraceCodec
  import Decimal

  // ---------------------------------------------------------------- finding a line's tag

  /** "TR", the letter `c`, one digit and a space, at position `i`. */
  predicate TagAt(line: string, c: char, i: nat) {
    && i + 5 <= |line|
    && line[i] == 'T' && line[i + 1] == 'R' && line[i + 2] == c
    && Decimal.IsDigit(line[i + 3]) && line[i + 4] == ' '
  }

  predicate Tagless(line: string, c: char) {
    forall i: nat :: i < |line| ==> !TagAt(line, c, i)
  }

  /** The first tag at or after `from`. */
  function FindTag(line: string, c: char, from: nat): (r: Option<nat>)
    requires from <= |line|
    ensures r.None? ==> forall i: nat :: from <= i < |line| ==> !TagAt(line, c, i)
    ensures r.Some? ==> from <= r.value && TagAt(line, c, r.value)
    ensures r.Some? ==> forall i: nat :: from <= i < r.value ==> !TagAt(line, c, i)
    decreases |line| - from
  {
    if from == |line| then None
    else if TagAt(line, c, from) then Some(from)
    else FindTag(line, c, from + 1)
  }

  /** The longest run of hexadecimal digits starting at `from`. */
  function HexRun(line: string, from: nat): (r: string)
    requires from <= |line|
    ensures from + |r| <= |line| && r == line[from..from + |r|] && forall i :: 0 <= i < |r| ==> IsHex(r[i])
    ensures from + |r| < |line| ==> !IsHex(line[from + |r|])
    decreases |line| - from
  {
    if from < |line| && IsHex(line[from]) then [line[from]] + HexRun(line, from + 1) else []
  }

  type HexText = s: string | forall i :: 0 <= i < |s| ==> IsHex(s[i])

  datatype Tagged = Tagged(digit: nat, hex: HexText)

  /** `re.search` with the header (`H`) or record (`C`) pattern. */
  function Search(line: string, c: char): Option<Tagged> {
    match FindTag(line, c, 0)
    case None => None
    case Some(i) => Some(Tagged((line[i + 3] - '0') as int, HexRun(line, i + 5)))
  }

  /** What a log line is to the decoder; the header pattern is tried first. */
  datatype Item = HeaderItem(tag: Tagged) | RecordItem(tag: Tagged) | Noise

  function Classify(line: string): Item {
    match Search(line, 'H')
    case Some(m) => HeaderItem(m)
    case None =>
      match Search(line, 'C')
      case Some(m) => RecordItem(m)
      case None => Noise
  }

  // ---------------------------------------------------------------- one line

  function ParseHeader(hex: HexText): Option<Header> {
    match FromHex(hex)
    case None => None
    case Some(raw) => UnpackHeader(raw)
  }

  function ParseRecord(hex: HexText): Option<Record> {
    match FromHex(hex)
    case None => None
    case Some(raw) => if |raw| == RECORD_SIZE then Some(UnpackRecord(raw)) else None
  }

  /** `KINDS_BY_VERSION` */
  predicate KindDefined(version: nat, kind: u8) {
    1 <= kind <= if version == 0 then 1 else if version == 1 then 4 else if version == 2 then 5 else 6
  }

  /** The decoder's running totals over record lines. */
  datatype Tally = Tally(expected: nat, decoded: seq<Record>, errors: nat)

  /** The inner function `record`: one record line, once the header is known. */
  function TakeRecord(version: nat, t: Tally, tag: Tagged): Tally {
    if tag.digit != version then t.(errors := t.errors + 1)
    else
      match ParseRecord(tag.hex)
      case None => t.(errors := t.errors + 1)
      case Some(rec) =>
        Tally(rec.num + 1, t.decoded + [rec],
              t.errors + (if KindDefined(version, rec.body.kind) then 0 else 1)
                       + (if rec.num == t.expected then 0 else 1))
  }

  /** Record lines taken one after the other. */
  function TakeRecords(version: nat, t: Tally, tags: seq<Tagged>): Tally {
    if tags == [] then t
    else TakeRecord(version, TakeRecords(version, t, tags[..|tags| - 1]), tags[|tags| - 1])
  }

  // ---------------------------------------------------------------- a whole log

  datatype Decoder = Decoder(header: Option<Header>, headerHex: string, pending: seq<Tagged>, tally: Tally)

  const START: Decoder := Decoder(None, "", [], Tally(0, [], 0))

  function Fail(d: Decoder): Decoder {
    d.(tally := d.tally.(errors := d.tally.errors + 1))
  }

  /** A header line is good when its text parses and its digit is the version it carries. */
  predicate GoodHeader(tag: Tagged) {
    ParseHeader(tag.hex).Some? && ParseHeader(tag.hex).value.version == tag.digit
  }

  function Feed(d: Decoder, item: Item): Decoder {
    match item
    case Noise => d
    case HeaderItem(tag) =>
      if !GoodHeader(tag) then Fail(d)
      else if d.header.Some? then if tag.hex == d.headerHex then d else Fail(d)
      else
        var header := ParseHeader(tag.hex).value;
        Decoder(Some(header), tag.hex, [], TakeRecords(header.version, d.tally, d.pending))
    case RecordItem(tag) =>
      match d.header
      case None => d.(pending := d.pending + [tag])
      case Some(header) => d.(tally := TakeRecord(header.version, d.tally, tag))
  }

  function FeedAll(items: seq<Item>): Decoder {
    if items == [] then START else Feed(FeedAll(items[..|items| - 1]), items[|items| - 1])
  }

  /** The exit status counts one more error when no header was found. */
  function Errors(d: Decoder): nat {
    d.tally.errors + if d.header.None? then 1 else 0
  }

  function Items(log: seq<string>): (items: seq<Item>)
    ensures |items| == |log|
  {
    seq(|log|, i requires 0 <= i < |log| => Classify(log[i]))
  }

  /** `decode`: the loop over the log, with records held back until the first header. */
  method Decode(log: seq<string>) returns (header: Option<Header>, decoded: seq<Record>, errors: nat)
    ensures var d := FeedAll(Items(log));
            header == d.header && decoded == d.tally.decoded && errors == Errors(d)
  {
    header := None;
    var headerHex: string := "";
    var pending: seq<Tagged> := [];
    var tally := Tally(0, [], 0);
    for n := 0 to |log|
      invariant FeedAll(Items(log)[..n]) == Decoder(header, headerHex, pending, tally)
    {
      assert Items(log)[..n + 1][..n] == Items(log)[..n];
      match Classify(log[n]) {
        case Noise =>
        case HeaderItem(tag) =>
          var parsed := ParseHeader(tag.hex);
          if parsed.None? || tag.digit != parsed.value.version {
            tally := tally.(errors := tally.errors + 1);
          } else if header.Some? {
            if tag.hex != headerHex {
              tally := tally.(errors := tally.errors + 1);
            }
          } else {
            header := parsed;
            headerHex := tag.hex;
            tally := Flush(parsed.value.version, tally, pending);
            pending := [];
          }
        case RecordItem(tag) =>
          if header.None? {
            pending := pending + [tag];
          } else {
            tally := TakeRecord(header.value.version, tally, tag);
          }
      }
    }
    assert Items(log)[..|log|] == Items(log);
    decoded := tally.decoded;
    errors := tally.errors + if header.None? then 1 else 0;
  }

  /** The records that were waiting for a header. */
  method Flush(version: nat, start: Tally, pending: seq<Tagged>) returns (tally: Tally)
    ensures tally == TakeRecords(version, start, pending)
  {
    tally := start;
    for i := 0 to |pending|
      invariant tally == TakeRecords(version, start, pending[..i])
    {
      assert pending[..i + 1][..i] == pending[..i];
      tally := TakeRecord(version, tally, pending[i]);
    }
    assert pending[..|pending|] == pending;
  }

  // ---------------------------------------------------------------- what the decoder accepts

  function Headers(items: seq<Item>): seq<Tagged> {
    if items == [] then []
    else
      var last := items[|items| - 1];
      Headers(items[..|items| - 1]) + if last.HeaderItem? then [last.tag] else []
  }

  function Records(items: seq<Item>): seq<Tagged> {
    if items == [] then []
    else
      var last := items[|items| - 1];
      Records(items[..|items| - 1]) + if last.RecordItem? then [last.tag] else []
  }

  /** All header copies are good and identical. */
  ghost predicate HeadersAgree(headers: seq<Tagged>) {
    forall i :: 0 <= i < |headers| ==> GoodHeader(headers[i]) && headers[i].hex == headers[0].hex
  }

  /** Record lines that all parse, with defined kinds and sequence numbers 0, 1, 2, ... */
  ghost predicate RecordsGood(version: nat, tags: seq<Tagged>) {
    forall i :: 0 <= i < |tags| ==>
      && tags[i].digit == version && ParseRecord(tags[i].hex).Some?
      && KindDefined(version, ParseRecord(tags[i].hex).value.body.kind)
      && ParseRecord(tags[i].hex).value.num == i
  }

  /** With agreeing headers, the decoder's state depends on the header and the record lines alone. */
  ghost function Canonical(items: seq<Item>): Decoder
    requires HeadersAgree(Headers(items))
  {
    if Headers(items) == [] then START.(pending := Records(items))
    else
      var first := Headers(items)[0];
      assert GoodHeader(first);
      var header := ParseHeader(first.hex).value;
      Decoder(Some(header), first.hex, [], TakeRecords(header.version, START.tally, Records(items)))
  }

  lemma {:induction false} FeedAllIsCanonical(items: seq<Item>)
    requires HeadersAgree(Headers(items))
    ensures FeedAll(items) == Canonical(items)
  {
    if items != [] {
      var before := items[..|items| - 1];
      var hs := Headers(before);
      assert HeadersAgree(hs) by {
        assert Headers(items)[..|hs|] == hs;
      }
      FeedAllIsCanonical(before);
      match items[|items| - 1]
      case Noise =>
        assert Headers(items) == hs && Records(items) == Records(before);
      case HeaderItem(tag) =>
        assert Headers(items) == hs + [tag] && Records(items) == Records(before);
        assert GoodHeader(Headers(items)[|hs|]) && tag.hex == Headers(items)[0].hex;
      case RecordItem(tag) =>
        assert Headers(items) == hs && Records(items) == Records(before) + [tag];
        assert Records(items)[..|Records(before)|] == Records(before);
    }
  }

  lemma {:induction false} TakeRecordsOnlyAddsErrors(version: nat, t: Tally, tags: seq<Tagged>)
    ensures TakeRecords(version, t, tags).errors >= t.errors
  {
    if tags != [] {
      TakeRecordsOnlyAddsErrors(version, t, tags[..|tags| - 1]);
    }
  }

  /** A bad or different header copy is an error that no later line takes back. */
  lemma {:induction false} DisagreementIsAnError(items: seq<Item>)
    requires !HeadersAgree(Headers(items))
    ensures FeedAll(items).tally.errors > 0
  {
    var before := items[..|items| - 1];
    var last := items[|items| - 1];
    if HeadersAgree(Headers(before)) {
      FeedAllIsCanonical(before);
      var hs := Headers(before);
      assert last.HeaderItem? && Headers(items) == hs + [last.tag];
      assert !GoodHeader(last.tag) || (hs != [] && last.tag.hex != hs[0].hex);
    } else {
      DisagreementIsAnError(before);
      if last.HeaderItem? && GoodHeader(last.tag) && FeedAll(before).header.None? {
        TakeRecordsOnlyAddsErrors(ParseHeader(last.tag.hex).value.version, FeedAll(before).tally, FeedAll(before).pending);
      }
    }
  }

  /** Record lines produce no error exactly when they are all good; then they decode to themselves. */
  lemma {:induction false} TakeRecordsExact(version: nat, tags: seq<Tagged>)
    ensures var t := TakeRecords(version, START.tally, tags);
            && (t.errors == 0 <==> RecordsGood(version, tags))
            && (t.errors == 0 ==>
                  && t.expected == |tags| && |t.decoded| == |tags|
                  && forall i :: 0 <= i < |tags| ==> ParseRecord(tags[i].hex) == Some(t.decoded[i]))
  {
    if tags != [] {
      var before := tags[..|tags| - 1];
      TakeRecordsExact(version, before);
      if RecordsGood(version, tags) {
        assert RecordsGood(version, before);
        var n := |tags| - 1;
        assert ParseRecord(tags[n].hex).value.num == n;
      } else if RecordsGood(version, before) {
        var n := |tags| - 1;
        assert forall i :: 0 <= i < n ==> tags[i] == before[i];
      }
    }
  }

  /** The logs the decoder is meant to accept. */
  ghost predicate GoodLog(items: seq<Item>) {
    && Headers(items) != [] && HeadersAgree(Headers(items))
    && RecordsGood(Headers(items)[0].digit, Records(items))
  }

  /**
   A log decodes without error exactly when it has a header, all header copies are good and identical,
   and its record lines all parse, have kinds the version defines and are numbered 0, 1, 2, ... A gap is
   always an error. Every record line is then decoded, in order.
   */
  lemma {:induction false} DecoderIsExact(log: seq<string>)
    ensures var d := FeedAll(Items(log));
            && (Errors(d) == 0 <==> GoodLog(Items(log)))
            && (Errors(d) == 0 ==>
                  && |d.tally.decoded| == |Records(Items(log))|
                  && d.header == ParseHeader(Headers(Items(log))[0].hex)
                  && forall i :: 0 <= i < |d.tally.decoded| ==>
                       && ParseRecord(Records(Items(log))[i].hex) == Some(d.tally.decoded[i])
                       && d.tally.decoded[i].num == i)
  {
    var items := Items(log);
    if HeadersAgree(Headers(items)) {
      FeedAllIsCanonical(items);
      if Headers(items) != [] {
        var version := ParseHeader(Headers(items)[0].hex).value.version;
        assert GoodHeader(Headers(items)[0]);
        TakeRecordsExact(version, Records(items));
      }
    } else {
      DisagreementIsAnError(items);
    }
  }

  /** Where the header copies lie between the record lines does not matter, as long as there is one. */
  lemma {:induction false} HeaderPositionIsIrrelevant(log1: seq<string>, log2: seq<string>)
    requires Headers(Items(log1)) != [] && Headers(Items(log2)) != []
    requires HeadersAgree(Headers(Items(log1)) + Headers(Items(log2)))
    requires Records(Items(log1)) == Records(Items(log2))
    ensures FeedAll(Items(log1)) == FeedAll(Items(log2))
  {
    var h1, h2 := Headers(Items(log1)), Headers(Items(log2));
    assert forall i :: 0 <= i < |h2| ==> (h1 + h2)[|h1| + i] == h2[i];
    assert forall i :: 0 <= i < |h1| ==> (h1 + h2)[i] == h1[i];
    FeedAllIsCanonical(Items(log1));
    FeedAllIsCanonical(Items(log2));
  }
}
