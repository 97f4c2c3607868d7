/**
 The arguments of `guest-start`, as `uartrx` scans them: hand-written scanners over a character buffer, and
 the grammar of space-separated words that they accept. An address and a length are a slice of the line.
 */
module CommandLine {
  import opened TraceTypes
  import opened Decimal
  import Bits

  // ---------------------------------------------------------------- words

  /** The words of a string, between spaces, read one character at a time. */
  function Words(s: string): (ws: seq<string>)
    ensures s != "" && s[0] != ' ' ==> ws != [] && ws[0] != ""
  {
    if s == "" then []
    else if s[0] == ' ' then Words(s[1..])
    else if |s| == 1 || s[1] == ' ' then [[s[0]]] + Words(s[1..])
    else
      var rest := Words(s[1..]);
      [[s[0]] + rest[0]] + rest[1..]
  }

  predicate NoSpace(s: string) {
    forall i :: 0 <= i < |s| ==> s[i] != ' '
  }

  predicate AllSpace(s: string) {
    forall i :: 0 <= i < |s| ==> s[i] == ' '
  }

  predicate StartsWithSpace(s: string) {
    s != "" && s[0] == ' '
  }

  predicate EndsWithSpace(s: string) {
    s != "" && s[|s| - 1] == ' '
  }

  /** A string can be cut at any place where no word is cut in two. */
  lemma {:induction false} WordsOfParts(a: string, b: string)
    requires a == "" || b == "" || EndsWithSpace(a) || StartsWithSpace(b)
    ensures Words(a + b) == Words(a) + Words(b)
    decreases |a|
  {
    if a == "" {
      assert a + b == b;
    } else if b == "" {
      assert a + b == a;
    } else {
      assert (a + b)[1..] == a[1..] + b;
      WordsOfParts(a[1..], b);
    }
  }

  lemma {:induction false} WordsOfWord(s: string)
    requires s != "" && NoSpace(s)
    ensures Words(s) == [s]
    decreases |s|
  {
    if |s| > 1 {
      WordsOfWord(s[1..]);
      assert [s[0]] + s[1..] == s;
    } else {
      assert [s[0]] == s && Words(s[1..]) == [];
    }
  }

  lemma {:induction false} WordsOfSpaces(s: string)
    requires AllSpace(s)
    ensures Words(s) == []
    decreases |s|
  {
    if s != "" {
      WordsOfSpaces(s[1..]);
    }
  }

  lemma {:induction false} WordsTrimmed(s: string, gap: string)
    requires AllSpace(gap)
    ensures Words(s + gap) == Words(s)
  {
    WordsOfParts(s, gap);
    WordsOfSpaces(gap);
  }

  // ---------------------------------------------------------------- the scanners

  /** `word_is`: the slice is exactly the word. */
  method WordIs(s: string, word: string) returns (same: bool)
    ensures same <==> s == word
  {
    var i := 0;
    while i < |s| && i < |word|
      invariant 0 <= i <= |s| && i <= |word| && s[..i] == word[..i]
    {
      if s[i] != word[i] {
        return false;
      }
      i := i + 1;
    }
    assert s[..|s|] == s && word[..|word|] == word;
    same := i == |s| && i == |word|;
  }

  /** The first word of a slice ends at `n`. */
  predicate WordEnds(s: string, n: nat) {
    n <= |s| && NoSpace(s[..n]) && (n < |s| ==> s[n] == ' ')
  }

  method TokenLen(s: string) returns (n: nat)
    ensures WordEnds(s, n)
  {
    n := 0;
    while n < |s| && s[n] != ' '
      invariant n <= |s| && NoSpace(s[..n])
    {
      n := n + 1;
    }
  }

  /** The spaces at the front of a slice end at `n`. */
  predicate SpacesEnd(s: string, n: nat) {
    n <= |s| && AllSpace(s[..n]) && (n < |s| ==> s[n] != ' ')
  }

  method SkipSpaces(s: string) returns (n: nat)
    ensures SpacesEnd(s, n)
  {
    n := 0;
    while n < |s| && s[n] == ' '
      invariant n <= |s| && AllSpace(s[..n])
    {
      n := n + 1;
    }
  }

  method TrimSpaces(s: string) returns (len: nat)
    ensures len <= |s| && AllSpace(s[len..]) && !EndsWithSpace(s[..len])
    ensures Words(s[..len]) == Words(s)
  {
    len := |s|;
    while len > 0 && s[len - 1] == ' '
      invariant len <= |s| && AllSpace(s[len..])
    {
      len := len - 1;
    }
    WordsTrimmed(s[..len], s[len..]);
    assert s[..len] + s[len..] == s;
  }

  /** One word and the spaces behind it. */
  lemma {:induction false} WordsOfScan(s: string, n: nat, k: nat)
    requires WordEnds(s, n) && SpacesEnd(s[n..], k)
    ensures Words(s[..n + k]) == if n == 0 then [] else [s[..n]]
    ensures Words(s) == Words(s[..n + k]) + Words(s[n + k..])
    ensures n == 0 && s != "" ==> k > 0
  {
    var gap := s[n..n + k];
    assert gap == s[n..][..k];
    WordsOfSpaces(gap);
    if n > 0 {
      WordsOfWord(s[..n]);
    }
    assert k > 0 ==> s[n..][0] == ' ';
    assert n < |s| ==> s[n..][0] == ' ';
    WordsOfParts(s[..n], gap);
    assert s[..n + k] == s[..n] + gap;
    assert s == s[..n + k] + s[n + k..];
    assert k > 0 ==> EndsWithSpace(s[..n + k]) by { assert k > 0 ==> s[n + k - 1] == gap[k - 1]; }
    WordsOfParts(s[..n + k], s[n + k..]);
  }

  /**
   `find_word` ends on every string, for each round passes a word or a space. It returns the place of the first
   word equal to `word`, or the end of the string when there is none.
   */
  method FindWord(s: string, word: string) returns (at: nat)
    requires word != ""
    ensures at <= |s| && word !in Words(s[..at]) && Words(s) == Words(s[..at]) + Words(s[at..])
    ensures at < |s| ==> WordEnds(s[at..], |word|) && s[at..][..|word|] == word
  {
    at := 0;
    while at < |s|
      invariant at <= |s| && word !in Words(s[..at])
      invariant at == 0 || at == |s| || EndsWithSpace(s[..at])
    {
      assert s == s[..at] + s[at..];
      WordsOfParts(s[..at], s[at..]);
      var n := TokenLen(s[at..]);
      var same := WordIs(s[at..][..n], word);
      if same {
        return at;
      }
      var k := SkipSpaces(s[at..][n..]);
      PassWord(s[..at], s[at..], n, k, word);
      assert s[..at] + s[at..][..n + k] == s[..at + n + k];
      at := at + n + k;
    }
    assert s[..at] == s;
  }

  lemma {:induction false} PassWord(before: string, t: string, n: nat, k: nat, word: string)
    requires t != "" && WordEnds(t, n) && SpacesEnd(t[n..], k) && t[..n] != word
    requires word !in Words(before) && (before == "" || EndsWithSpace(before))
    ensures 0 < n + k <= |t|
    ensures word !in Words(before + t[..n + k])
    ensures n + k == |t| || EndsWithSpace(before + t[..n + k])
  {
    WordsOfScan(t, n, k);
    WordsOfParts(before, t[..n + k]);
    if n + k < |t| {
      SpaceBehind(t, n, k);
    }
  }

  lemma {:induction false} SpaceBehind(t: string, n: nat, k: nat)
    requires WordEnds(t, n) && SpacesEnd(t[n..], k) && n + k < |t|
    ensures k > 0 && t[n + k - 1] == ' '
  {
    assert t[n..][0] == ' ';
    assert t[n..][..k][k - 1] == t[n + k - 1];
  }

  // ---------------------------------------------------------------- the grammar

  const DEFAULT: nat := 0
  const LINUX: nat := 1
  const HARNESS: nat := 0x100
  const BYTE_MAX: nat := 0xff

  datatype Kind = Default | Linux | Harness(mode: u8)

  datatype Request = Request(kind: Kind, vcpu: u8)

  /** A decimal word that, read modulo 2^64, fits in a byte. */
  function Number(w: string): Option<u8> {
    if w != "" && AllDigits(w) && Value(w) % TWO64 <= BYTE_MAX then Some(Value(w) % TWO64) else None
  }

  /** `[] | linux | harness | harness N` */
  function KindOf(ws: seq<string>): Option<Kind> {
    if ws == [] then Some(Default)
    else if ws == ["linux"] then Some(Linux)
    else if ws == ["harness"] then Some(Harness(0))
    else if |ws| == 2 && ws[0] == "harness" then
      match Number(ws[1]) {
        case Some(n) => Some(Harness(n))
        case None => None
      }
    else None
  }

  /** `[] | vcpu K` */
  function VcpuOf(ws: seq<string>): Option<u8> {
    if ws == [] then Some(0)
    else if |ws| == 2 && ws[0] == "vcpu" then Number(ws[1])
    else None
  }

  /** The words are those of a kind followed by those of a vCPU. */
  ghost predicate Denotes(ws: seq<string>, r: Request) {
    exists k: nat :: k <= |ws| && KindOf(ws[..k]) == Some(r.kind) && VcpuOf(ws[k..]) == Some(r.vcpu)
  }

  /** The words of a kind and those of a vCPU meet at the first `vcpu`, or at the end. */
  lemma {:induction false} WhereVcpuStarts(ws: seq<string>, k: nat, r: Request)
    requires k <= |ws| && KindOf(ws[..k]) == Some(r.kind) && VcpuOf(ws[k..]) == Some(r.vcpu)
    ensures "vcpu" !in ws[..k] && (k < |ws| ==> ws[k] == "vcpu")
  {
    if "vcpu" in ws[..k] {
      assert Number("vcpu").None? by { assert !IsDigit("vcpu"[0]); }
      assert false;
    }
  }

  lemma {:induction false} Unambiguous(ws: seq<string>, r: Request, r': Request)
    requires Denotes(ws, r) && Denotes(ws, r')
    ensures r == r'
  {
    var k: nat :| k <= |ws| && KindOf(ws[..k]) == Some(r.kind) && VcpuOf(ws[k..]) == Some(r.vcpu);
    var k': nat :| k' <= |ws| && KindOf(ws[..k']) == Some(r'.kind) && VcpuOf(ws[k'..]) == Some(r'.vcpu);
    WhereVcpuStarts(ws, k, r);
    WhereVcpuStarts(ws, k', r');
    FirstIsUnique(ws, k, k', "vcpu");
  }

  lemma {:induction false} FirstIsUnique(ws: seq<string>, k: nat, k': nat, w: string)
    requires k <= |ws| && w !in ws[..k] && (k < |ws| ==> ws[k] == w)
    requires k' <= |ws| && w !in ws[..k'] && (k' < |ws| ==> ws[k'] == w)
    ensures k == k'
  {
  }

  /** The words that ask for `r`. */
  function Spelling(r: Request): seq<string> {
    (match r.kind
     case Default => []
     case Linux => ["linux"]
     case Harness(n) => ["harness", Digits(n)])
    + ["vcpu", Digits(r.vcpu)]
  }

  lemma {:induction false} NumberOfDigits(n: u8)
    ensures Number(Digits(n)) == Some(n)
  {
    PrintedNumberParses(n);
  }

  /** Every request can be asked for. */
  lemma {:induction false} SpellingDenotes(r: Request)
    ensures Denotes(Spelling(r), r)
  {
    var ws, tail := Spelling(r), ["vcpu", Digits(r.vcpu)];
    var k := |ws| - 2;
    NumberOfDigits(r.vcpu);
    assert VcpuOf(tail) == Some(r.vcpu);
    match r.kind {
      case Default =>
        assert ws[..k] == [];
      case Linux =>
        assert ws[..k] == ["linux"];
      case Harness(n) =>
        NumberOfDigits(n);
        assert ws[..k] == ["harness", Digits(n)];
    }
    assert KindOf(ws[..k]) == Some(r.kind);
    assert ws[k..] == tail;
  }

  /** What is asked for when words are left out: the default guest, mode 0, vCPU 0. */
  lemma {:induction false} Defaults(ws: seq<string>, r: Request)
    requires Denotes(ws, r)
    ensures "vcpu" !in ws ==> r.vcpu == 0
    ensures ws == [] || (ws != [] && ws[0] == "vcpu") <==> r.kind.Default?
    ensures ws != [] && ws[0] == "linux" <==> r.kind.Linux?
    ensures ws != [] && ws[0] == "harness" <==> r.kind.Harness?
    ensures ws != [] && ws[0] == "harness" && (|ws| == 1 || ws[1] == "vcpu") ==> r.kind == Harness(0)
  {
    var k: nat :| k <= |ws| && KindOf(ws[..k]) == Some(r.kind) && VcpuOf(ws[k..]) == Some(r.vcpu);
    WhereVcpuStarts(ws, k, r);
    if k > 0 {
      assert ws[..k][0] == ws[0];
    }
  }

  // ---------------------------------------------------------------- the selection word

  function KindBits(kind: Kind): u64 {
    match kind {
      case Default => DEFAULT
      case Linux => LINUX
      case Harness(n) => HARNESS + n
    }
  }

  function Select(r: Request): u64 {
    KindBits(r.kind) + r.vcpu * 0x1_0000
  }

  /** `GUEST_SELECT_GUEST`, `GUEST_SELECT_HARNESS_MODE` and `GUEST_SELECT_VCPU`. */
  function GuestField(sel: u64): nat { sel % 0x1_0000 }
  function ModeField(sel: u64): nat { sel % 0x100 }
  function VcpuField(sel: u64): nat { sel / 0x1_0000 % 0x100 }

  /** `GUEST_SELECT_IS_HARNESS`: the guest field without its low byte. */
  predicate IsHarness(sel: u64) {
    GuestField(sel) / 0x100 * 0x100 == HARNESS
  }

  /** The accessors recover what was selected. */
  lemma {:induction false} SelectRoundTrip(r: Request)
    ensures VcpuField(Select(r)) == r.vcpu
    ensures IsHarness(Select(r)) <==> r.kind.Harness?
    ensures r.kind.Harness? ==> ModeField(Select(r)) == r.kind.mode
    ensures GuestField(Select(r)) == LINUX <==> r.kind.Linux?
    ensures GuestField(Select(r)) == DEFAULT <==> r.kind.Default?
  {
    var b := KindBits(r.kind);
    assert b < 0x200;
    assert Select(r) % 0x1_0000 == b && Select(r) / 0x1_0000 == r.vcpu;
    assert Select(r) % 0x100 == b % 0x100;
  }

  /** The selection word, as a number. */
  lemma {:induction false} SelectNumbers(n: u8, k: u8)
    ensures Select(Request(Default, k)) == 0x1_0000 * k
    ensures Select(Request(Linux, k)) == 0x1_0000 * k + 1
    ensures Select(Request(Harness(n), k)) == 0x1_0000 * k + 0x100 + n
  {
  }

  lemma {:induction false} OrHarness(mode: u8)
    ensures Bits.Or(HARNESS, mode) == HARNESS + mode
  {
    assert Bits.Pow2(8) == 0x100 by { assert Bits.Pow2(4) == 16; }
    Bits.OrOfShifted(mode, 1, 8);
    Bits.OrCommutes(mode, HARNESS);
  }

  lemma {:induction false} OrVcpu(kind: Kind, vcpu: u8)
    ensures Bits.Or(KindBits(kind), vcpu * 0x1_0000) == Select(Request(kind, vcpu))
  {
    assert Bits.Pow2(16) == 0x1_0000 by {
      assert Bits.Pow2(4) == 16;
      assert Bits.Pow2(8) == 0x100;
      assert Bits.Pow2(12) == 0x1000;
    }
    Bits.OrOfShifted(KindBits(kind), vcpu, 16);
  }

  // ---------------------------------------------------------------- the parsers

  method ParseHarnessMode(s: string) returns (select: Option<u64>)
    ensures s == "" ==> select == Some(KindBits(Harness(0)))
    ensures s != "" && Number(s).Some? ==> select == Some(KindBits(Harness(Number(s).value)))
    ensures s != "" && Number(s).None? ==> select == None
  {
    var mode: u64 := 0;
    if |s| != 0 {
      var parsed := ParseDecimal(s);
      if parsed.None? || parsed.value > BYTE_MAX {
        return None;
      }
      mode := parsed.value;
      assert Number(s) == Some(mode);
    }
    OrHarness(mode);
    select := Some(Bits.Or(HARNESS, mode));
  }

  lemma {:induction false} FirstWordEnds(s: string) returns (n: nat)
    ensures WordEnds(s, n)
    decreases |s|
  {
    if s == "" || s[0] == ' ' {
      n := 0;
    } else {
      var m := FirstWordEnds(s[1..]);
      n := m + 1;
      assert s[..n] == [s[0]] + s[1..][..m];
    }
  }

  lemma {:induction false} FirstSpacesEnd(s: string) returns (n: nat)
    ensures SpacesEnd(s, n)
    decreases |s|
  {
    if s == "" || s[0] != ' ' {
      n := 0;
    } else {
      var m := FirstSpacesEnd(s[1..]);
      n := m + 1;
      assert s[..n] == [s[0]] + s[1..][..m];
    }
  }

  lemma {:induction false} SomeWord(s: string)
    requires s != "" && !EndsWithSpace(s)
    ensures Words(s) != []
    decreases |s|
  {
    if s[0] == ' ' {
      SomeWord(s[1..]);
    }
  }

  lemma {:induction false} RestIsThere(s: string, n: nat, k: nat)
    requires n < |s| && SpacesEnd(s[n..], k) && !EndsWithSpace(s)
    ensures n + k < |s| && !EndsWithSpace(s[n + k..])
  {
  }

  /** A trimmed slice is a number exactly when it is one word that is a number. */
  lemma {:induction false} NumberIsOneWord(s: string)
    requires s != "" && !StartsWithSpace(s) && !EndsWithSpace(s)
    ensures Number(s).Some? ==> Words(s) == [s]
    ensures |Words(s)| == 1 ==> Words(s) == [s]
  {
    var n := FirstWordEnds(s);
    if n == |s| {
      assert s[..n] == s;
      WordsOfWord(s);
    } else {
      assert !IsDigit(s[n]);
      var k := FirstSpacesEnd(s[n..]);
      WordsOfScan(s, n, k);
      RestIsThere(s, n, k);
      SomeWord(s[n + k..]);
      assert |Words(s)| > 1;
    }
  }

  /** A first word, and behind the spaces nothing, one number, or something else. */
  lemma {:induction false} FirstWord(s: string, n: nat, k: nat)
    requires s != "" && !EndsWithSpace(s) && WordEnds(s, n) && SpacesEnd(s[n..], k)
    ensures n == 0 <==> StartsWithSpace(s)
    ensures n > 0 && n + k == |s| ==> Words(s) == [s[..n]]
    ensures n > 0 && n + k < |s| ==>
              && |Words(s)| >= 2 && Words(s)[0] == s[..n]
              && (|Words(s)| == 2 ==> Words(s)[1] == s[n + k..])
              && (Number(s[n + k..]).Some? ==> |Words(s)| == 2)
  {
    WordsOfScan(s, n, k);
    if n + k < |s| {
      SomeWord(s[n + k..]);
      NumberIsOneWord(s[n + k..]);
    }
  }

  /** `parse_guest_kind`, on a slice whose trailing spaces are gone. */
  method ParseGuestKind(s: string) returns (select: Option<u64>)
    requires !EndsWithSpace(s)
    ensures select.Some? <==> !StartsWithSpace(s) && KindOf(Words(s)).Some?
    ensures select.Some? ==> select.value == KindBits(KindOf(Words(s)).value)
  {
    var word := TokenLen(s);
    var k := SkipSpaces(s[word..]);
    var rest := word + k;
    if |s| == 0 {
      return Some(DEFAULT);
    }
    FirstWord(s, word, k);
    var linux := WordIs(s[..word], "linux");
    if linux && rest == |s| {
      return Some(LINUX);
    }
    var harness := WordIs(s[..word], "harness");
    if harness {
      select := ParseHarnessMode(s[rest..]);
      return;
    }
    return None;
  }

  lemma {:induction false} VcpuNumber(s: string, k: nat)
    requires WordEnds(s, 4) && s[..4] == "vcpu" && SpacesEnd(s[4..], k)
    ensures !EndsWithSpace(s) && VcpuOf(Words(s)).Some? ==> VcpuOf(Words(s)) == Number(s[4 + k..])
    ensures Number(s[4 + k..]).Some? ==> !EndsWithSpace(s) && VcpuOf(Words(s)) == Number(s[4 + k..])
  {
    var number := s[4 + k..];
    WordsOfScan(s, 4, k);
    if number != "" {
      assert number[|number| - 1] == s[|s| - 1];
      if !EndsWithSpace(number) {
        NumberIsOneWord(number);
      } else {
        assert !IsDigit(number[|number| - 1]);
      }
    }
  }

  /** `parse_vcpu`, on what `find_word` leaves: nothing, or a slice whose first word is `vcpu`. */
  method ParseVcpu(s: string) returns (vcpu: Option<u64>)
    requires s == "" || (WordEnds(s, 4) && s[..4] == "vcpu")
    ensures vcpu.Some? <==> !EndsWithSpace(s) && VcpuOf(Words(s)).Some?
    ensures vcpu.Some? ==> vcpu.value == VcpuOf(Words(s)).value
  {
    var word := TokenLen(s);
    var k := SkipSpaces(s[word..]);
    var rest := word + k;
    if |s| == 0 {
      return Some(0);
    }
    assert word == 4;
    VcpuNumber(s, k);
    vcpu := ParseDecimal(s[rest..]);
    if vcpu.Some? && vcpu.value > BYTE_MAX {
      vcpu := None;
    }
  }

  /** The spaces that are left at the ends of a string do no harm. Between words, any number of spaces may stand. */
  predicate EndsOk(s: string) {
    && (StartsWithSpace(s) ==> Words(s) == [] || Words(s)[0] == "vcpu")
    && (EndsWithSpace(s) ==> "vcpu" !in Words(s))
  }

  lemma {:induction false} AcceptedDenotes(s: string, a: string, kind: string, b: string)
    requires s == a + b && Words(s) == Words(a) + Words(b) && Words(kind) == Words(a) && kind <= a
    requires "vcpu" !in Words(a) && (b != "" ==> Words(b) != [] && Words(b)[0] == "vcpu")
    requires !StartsWithSpace(kind) && KindOf(Words(kind)).Some? && !EndsWithSpace(b) && VcpuOf(Words(b)).Some?
    requires kind == "" ==> Words(a) == []
    ensures EndsOk(s) && Denotes(Words(s), Request(KindOf(Words(kind)).value, VcpuOf(Words(b)).value))
  {
    var ws, k := Words(s), |Words(a)|;
    assert ws[..k] == Words(a) && ws[k..] == Words(b);
  }

  lemma {:induction false} DenotedAccepted(s: string, a: string, kind: string, b: string, r: Request)
    requires s == a + b && Words(s) == Words(a) + Words(b) && Words(kind) == Words(a) && kind <= a
    requires "vcpu" !in Words(a) && (b != "" ==> Words(b) != [] && Words(b)[0] == "vcpu")
    requires b == "" ==> Words(b) == []
    requires !EndsWithSpace(kind) && EndsOk(s) && Denotes(Words(s), r)
    ensures !StartsWithSpace(kind) && KindOf(Words(kind)) == Some(r.kind)
    ensures !EndsWithSpace(b) && VcpuOf(Words(b)) == Some(r.vcpu)
  {
    var ws, k := Words(s), |Words(a)|;
    assert ws[..k] == Words(a) && ws[k..] == Words(b);
    var k': nat :| k' <= |ws| && KindOf(ws[..k']) == Some(r.kind) && VcpuOf(ws[k'..]) == Some(r.vcpu);
    WhereVcpuStarts(ws, k', r);
    FirstIsUnique(ws, k, k', "vcpu");
    if kind != "" {
      SomeWord(kind);
      assert ws[0] == Words(a)[0];
    }
  }

  /**
   `parse_guest_select`, on every string: it accepts exactly the words of the grammar (with the spaces at the ends
   where they do no harm) and returns the selection word of what they denote.
   */
  method ParseGuestSelect(s: string) returns (select: Option<u64>)
    ensures select.Some? <==> EndsOk(s) && exists r :: Denotes(Words(s), r)
    ensures select.Some? ==> forall r :: Denotes(Words(s), r) ==> select.value == Select(r)
  {
    var at := FindWord(s, "vcpu");
    var len := TrimSpaces(s[..at]);
    ghost var a, b, kind := s[..at], s[at..], s[..at][..len];
    assert s == a + b;
    if b != "" {
      var k := FirstSpacesEnd(b[4..]);
      WordsOfScan(b, 4, k);
    }
    var guest := ParseGuestKind(s[..at][..len]);
    var vcpu := ParseVcpu(s[at..]);
    if guest.None? || vcpu.None? {
      forall r | EndsOk(s) && Denotes(Words(s), r)
        ensures false
      {
        DenotedAccepted(s, a, kind, b, r);
      }
      return None;
    }
    AcceptedDenotes(s, a, kind, b);
    ghost var r := Request(KindOf(Words(kind)).value, VcpuOf(Words(b)).value);
    forall r' | Denotes(Words(s), r')
      ensures r' == r
    {
      Unambiguous(Words(s), r, r');
    }
    OrVcpu(r.kind, r.vcpu);
    select := Some(Bits.Or(guest.value, vcpu.value * 0x1_0000));
  }

  /** On a trimmed string, as `run_line` passes it, the ends are no condition. */
  lemma {:induction false} TrimmedEndsOk(s: string)
    requires !StartsWithSpace(s) && !EndsWithSpace(s)
    ensures EndsOk(s)
  {
  }
}
