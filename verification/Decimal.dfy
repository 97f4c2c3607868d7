/** Decimal numbers as the console prints and parses them. */
module Decimal {
  import opened TraceTypes

  predicate IsDigit(c: char) {
    '0' <= c <= '9'
  }

  predicate AllDigits(s: string) {
    forall i :: 0 <= i < |s| ==> IsDigit(s[i])
  }

  function DigitChar(d: nat): (c: char)
    requires d < 10
    ensures IsDigit(c)
  {
    '0' + d as char
  }

  /** The decimal numeral of `v`: no leading zero, and "0" for zero. */
  function Digits(v: nat): (s: string)
    ensures s != [] && AllDigits(s)
  {
    (if v < 10 then [] else Digits(v / 10)) + [DigitChar(v % 10)]
  }

  /** The number a digit string denotes. */
  function Value(s: string): nat
    requires AllDigits(s)
  {
    if s == [] then 0 else 10 * Value(s[..|s| - 1]) + (s[|s| - 1] - '0') as int
  }

  lemma {:induction false} ValueOfDigits(v: nat)
    ensures Value(Digits(v)) == v
  {
    var s := Digits(v);
    assert (s[|s| - 1] - '0') as int == v % 10;
    if v < 10 {
      assert s[..|s| - 1] == [];
    } else {
      assert s[..|s| - 1] == Digits(v / 10);
      ValueOfDigits(v / 10);
    }
  }

  function Pow10(n: nat): nat {
    if n == 0 then 1 else 10 * Pow10(n - 1)
  }

  lemma {:induction false} TwentyDigits()
    ensures TWO64 <= Pow10(20)
  {
    assert Pow10(4) == 10000;
    assert Pow10(8) == 10000 * 10000 by { assert Pow10(6) == 1000000; }
    assert Pow10(12) == 1000000000000 by { assert Pow10(10) == 10000000000; }
    assert Pow10(16) == 10000000000000000 by { assert Pow10(14) == 100000000000000; }
    assert Pow10(20) == 100000000000000000000 by { assert Pow10(18) == 1000000000000000000; }
  }

  lemma {:induction false} DigitsStep(v: nat, pos: nat)
    requires v < Pow10(pos) && (v > 0 || pos > 0)
    ensures pos > 0 && v / 10 < Pow10(pos - 1)
    ensures Digits(v) == (if v / 10 == 0 then [] else Digits(v / 10)) + [DigitChar(v % 10)]
  {
  }

  /**
   The backwards digit loop shared by `console_putdec`, `put_decimal` and `mirror_report_dropped`:
   it fills a 21-byte buffer from the end, never runs off its front, and produces the numeral.
   */
  method PutDecimal(val: u64) returns (text: string)
    ensures text == Digits(val)
    ensures |text| <= 20
  {
    var buf := new char[21];
    var pos := 20;
    buf[pos] := '\0';
    var v: nat := val;
    var more := true;
    TwentyDigits();
    while more
      invariant buf.Length == 21 && 0 <= pos <= 20
      invariant v < Pow10(pos)
      invariant more ==> Digits(val) == Digits(v) + buf[pos..20]
      invariant !more ==> Digits(val) == buf[pos..20]
      invariant more ==> v > 0 || pos == 20
      decreases more, v
    {
      ghost var done := buf[pos..20];
      DigitsStep(v, pos);
      var digit := DigitChar(v % 10);
      pos := pos - 1;
      buf[pos] := digit;
      assert buf[pos..20] == [digit] + done;
      v := v / 10;
      more := v != 0;
    }
    text := buf[pos..20];
  }

  /** `parse_decimal`: refuses the empty string and any other character, and wraps modulo 2^64. */
  method ParseDecimal(s: string) returns (out: Option<u64>)
    ensures out.Some? <==> s != [] && AllDigits(s)
    ensures out.Some? ==> out.value == Value(s) % TWO64
  {
    if |s| == 0 {
      return None;
    }
    var val: u64 := 0;
    for i := 0 to |s|
      invariant AllDigits(s[..i])
      invariant val == Value(s[..i]) % TWO64
    {
      if s[i] < '0' || s[i] > '9' {
        return None;
      }
      assert s[..i + 1][..i] == s[..i];
      WrapStep(Value(s[..i]), (s[i] - '0') as int);
      val := (val * 10 + (s[i] - '0') as int) % TWO64;
    }
    assert s[..|s|] == s;
    out := Some(val);
  }

  lemma {:induction false} WrapStep(x: nat, d: nat)
    ensures (x % TWO64 * 10 + d) % TWO64 == (10 * x + d) % TWO64
  {
    var q := x / TWO64;
    assert 10 * x + d == (x % TWO64 * 10 + d) + 10 * q * TWO64;
    ModMultiple(x % TWO64 * 10 + d, 10 * q);
  }

  lemma {:induction false} ModMultiple(a: nat, k: nat)
    ensures (a + k * TWO64) % TWO64 == a % TWO64
  {
  }

  /** What `ParseDecimal` returns for a printed 64-bit number is that number. */
  lemma {:induction false} PrintedNumberParses(v: u64)
    ensures Digits(v) != [] && AllDigits(Digits(v)) && Value(Digits(v)) % TWO64 == v
  {
    ValueOfDigits(v);
  }

  /** Digit by digit: the code of the digit `d` is 48 plus `d`, and the last digit is the remainder by ten. */
  lemma {:induction false} DigitsAre(v: nat, d: nat)
    requires d < 10
    ensures Digits(d) == [(48 + d) as char]
    ensures v > 0 ==> Digits(10 * v + d) == Digits(v) + [(48 + d) as char]
  {
    assert (10 * v + d) / 10 == v && (10 * v + d) % 10 == d;
  }
}
