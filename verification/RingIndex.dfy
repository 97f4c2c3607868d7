/**
 What a 64-bit counter does to `counter % capacity` once it has wrapped. The trace ring and the console rings hold
 1023 and 16368 entries, which do not divide 2^64.
 */
module RingIndex {
  import opened TraceTypes
  import Bits

  /** The slot that the code uses for the item number `t`, counted without bound. */
  function Slot(t: nat, capacity: nat): nat
    requires capacity > 0
  {
    t % TWO64 % capacity
  }

  /** Entries less than a ring apart lie in different slots. */
  lemma {:induction false} DifferentSlots(i: nat, j: nat, capacity: nat)
    requires i < j < i + capacity
    ensures i % capacity != j % capacity
  {
    var a, b := i / capacity, j / capacity;
    Bits.DivMod(i, capacity);
    Bits.DivMod(j, capacity);
    if i % capacity == j % capacity {
      Multiples(capacity, a, b);
    }
  }

  lemma {:induction false} Multiples(m: nat, a: nat, b: nat)
    ensures m * b <= m * a || m * a + m <= m * b
  {
    if a < b {
      assert m * b == m * a + m + m * (b - a - 1);
    } else {
      assert m * a == m * b + m * (a - b);
    }
  }

  lemma {:induction false} WrapIncrement(n: nat)
    ensures Inc64(n % TWO64) == (n + 1) % TWO64
  {
  }

  lemma {:induction false} MultipleGone(a: nat, m: nat, k: nat)
    requires m > 0
    ensures (a + m * k) % m == a % m
    decreases k
  {
    if k > 0 {
      MultipleGone(a, m, k - 1);
      assert a + m * k == (a + m * (k - 1)) + m;
      OneMultipleGone(a + m * (k - 1), m);
    }
  }

  lemma {:induction false} OneMultipleGone(a: nat, m: nat)
    requires m > 0
    ensures (a + m) % m == a % m
  {
    var q, r := a / m, a % m;
    Bits.DivMod(a, m);
    Bits.ModOf(a + m, m, q + 1, r);
  }

  /** After `w` wraps the trace ring's index is off by `16 * w` slots. */
  lemma {:induction false} TraceShift(t: nat)
    ensures t % RING_CAPACITY == (Slot(t, RING_CAPACITY) + 16 * (t / TWO64)) % RING_CAPACITY
  {
    var w, r := t / TWO64, t % TWO64;
    assert TWO64 == RING_CAPACITY * 18032007892189200 + 16;
    assert t == (r + 16 * w) + RING_CAPACITY * (18032007892189200 * w);
    MultipleGone(r + 16 * w, RING_CAPACITY, 18032007892189200 * w);
    assert r + 16 * w == (r % RING_CAPACITY + 16 * w) + RING_CAPACITY * (r / RING_CAPACITY);
    MultipleGone(r % RING_CAPACITY + 16 * w, RING_CAPACITY, r / RING_CAPACITY);
  }

  /** The trace ring's index is the right one exactly when the number of wraps is a multiple of 1023; so before the first. */
  lemma {:induction false} TraceSlotExact(t: nat)
    ensures Slot(t, RING_CAPACITY) == t % RING_CAPACITY <==> t / TWO64 % RING_CAPACITY == 0
  {
    TraceShift(t);
    SixteenCancels(Slot(t, RING_CAPACITY), t / TWO64);
  }

  /** 16 and 1023 have no common factor. */
  lemma {:induction false} SixteenCancels(a: nat, w: nat)
    requires a < RING_CAPACITY
    ensures (a + 16 * w) % RING_CAPACITY == a <==> w % RING_CAPACITY == 0
  {
    var x := a + 16 * w;
    if x % 1023 == a {
      var k := x / 1023;
      assert 16 * w == 1023 * k;
      assert w == 1023 * (64 * k - w);
    }
    if w % 1023 == 0 {
      var k := w / 1023;
      assert x == a + 1023 * (16 * k);
      MultipleGone(a, 1023, 16 * k);
    }
  }

  /** The same holds of a console ring, for 16368 is 16 times 1023. */
  lemma {:induction false} ConsoleSlotExact(t: nat)
    ensures Slot(t, CONSOLE_CAPACITY) == t % CONSOLE_CAPACITY <==> t / TWO64 % RING_CAPACITY == 0
  {
    var w, r := t / TWO64, t % TWO64;
    assert TWO64 == CONSOLE_CAPACITY * 1127000493261825 + 16;
    assert t == (r + 16 * w) + CONSOLE_CAPACITY * (1127000493261825 * w);
    MultipleGone(r + 16 * w, CONSOLE_CAPACITY, 1127000493261825 * w);
    var a := r % CONSOLE_CAPACITY;
    assert r + 16 * w == (a + 16 * w) + CONSOLE_CAPACITY * (r / CONSOLE_CAPACITY);
    MultipleGone(a + 16 * w, CONSOLE_CAPACITY, r / CONSOLE_CAPACITY);
    SixteenDivides(a, w);
  }

  lemma {:induction false} SixteenDivides(a: nat, w: nat)
    requires a < CONSOLE_CAPACITY
    ensures (a + 16 * w) % CONSOLE_CAPACITY == a <==> w % RING_CAPACITY == 0
  {
    var x := a + 16 * w;
    if x % 16368 == a {
      var k := x / 16368;
      assert 16 * w == 16368 * k;
      assert w == 1023 * k;
    }
    if w % 1023 == 0 {
      var k := w / 1023;
      assert x == a + 16368 * k;
      MultipleGone(a, 16368, k);
    }
  }

  /** The command ring's index is always the right one, for 64 divides 2^64. */
  lemma {:induction false} CommandSlotExact(t: nat)
    ensures Slot(t, CMD_CAPACITY) == t % CMD_CAPACITY
  {
    var w, r := t / TWO64, t % TWO64;
    assert t == r + CMD_CAPACITY * (0x400_0000_0000_0000 * w);
    MultipleGone(r, CMD_CAPACITY, 0x400_0000_0000_0000 * w);
  }
}
