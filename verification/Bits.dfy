/** Bitwise operations on natural numbers, bit by bit. */
module Bits {
  function Pow2(k: nat): (p: nat)
    ensures p > 0
  {
    if k == 0 then 1 else 2 * Pow2(k - 1)
  }

  /** Bit `k` of `n`, as `n >> k & 1`. */
  predicate Bit(n: nat, k: nat) {
    if k == 0 then n % 2 == 1 else Bit(n / 2, k - 1)
  }

  function Xor(a: nat, b: nat): nat {
    if a == 0 && b == 0 then 0 else (a % 2 + b % 2) % 2 + 2 * Xor(a / 2, b / 2)
  }

  function Or(a: nat, b: nat): nat {
    if a == 0 && b == 0 then 0 else (if a % 2 == 1 || b % 2 == 1 then 1 else 0) + 2 * Or(a / 2, b / 2)
  }

  /** The exclusive or of two numbers ends in `k` zero bits exactly when the numbers agree modulo 2^k. */
  lemma {:induction false} XorModPow2(a: nat, b: nat, k: nat)
    ensures Xor(a, b) % Pow2(k) == 0 <==> a % Pow2(k) == b % Pow2(k)
  {
    if k > 0 {
      XorModPow2(a / 2, b / 2, k - 1);
      XorHalves(a, b);
      HalfMod(a, k);
      HalfMod(b, k);
      HalfMod(Xor(a, b), k);
    }
  }

  lemma {:induction false} XorHalves(a: nat, b: nat)
    ensures Xor(a, b) / 2 == Xor(a / 2, b / 2)
    ensures Xor(a, b) % 2 == 0 <==> a % 2 == b % 2
  {
  }

  /** The remainder modulo 2^k, from the lowest bit and the rest. */
  lemma {:induction false} HalfMod(x: nat, k: nat)
    requires k > 0
    ensures x % Pow2(k) == x % 2 + 2 * (x / 2 % Pow2(k - 1))
  {
    var p, h := Pow2(k - 1), x / 2;
    var q, r := h / p, h % p;
    assert h == p * q + r by { DivMod(h, p); }
    assert x == 2 * p * q + (x % 2 + 2 * r) by {
      assert 2 * (p * q) == 2 * p * q;
    }
    ModOf(x, 2 * p, q, x % 2 + 2 * r);
  }

  lemma {:induction false} DivMod(x: nat, m: nat)
    requires m > 0
    ensures x == m * (x / m) + x % m
  {
  }

  /** The remainder is determined by any quotient that fits. */
  lemma {:induction false} ModOf(x: nat, m: nat, q: nat, r: nat)
    requires m > 0 && r < m && x == m * q + r
    ensures x % m == r && x / m == q
  {
    DivMod(x, m);
    QuotientUnique(m, q, r, x / m, x % m);
  }

  lemma {:induction false} QuotientUnique(m: nat, q: nat, r: nat, q': nat, r': nat)
    requires r < m && r' < m && m * q + r == m * q' + r'
    ensures q == q' && r == r'
  {
    assert q < q' ==> m * q' >= m * (q + 1) == m * q + m;
    assert q' < q ==> m * q >= m * (q' + 1) == m * q' + m;
  }

  /** Two numbers that share no bit: the `or` is the sum. */
  lemma {:induction false} OrOfShifted(a: nat, b: nat, k: nat)
    requires a < Pow2(k)
    ensures Or(a, b * Pow2(k)) == a + b * Pow2(k)
    decreases k
  {
    var c := b * Pow2(k);
    if k == 0 {
      OrZero(b);
    } else {
      assert c == 2 * (b * Pow2(k - 1)) by { assert Pow2(k) == 2 * Pow2(k - 1); }
      OrOfShifted(a / 2, b, k - 1);
    }
  }

  lemma {:induction false} OrHalves(a: nat, b: nat)
    ensures Or(a, b) / 2 == Or(a / 2, b / 2)
    ensures Or(a, b) % 2 == 1 <==> a % 2 == 1 || b % 2 == 1
  {
  }

  lemma {:induction false} BitOfOr(a: nat, b: nat, k: nat)
    ensures Bit(Or(a, b), k) <==> Bit(a, k) || Bit(b, k)
    decreases k
  {
    OrHalves(a, b);
    if k > 0 {
      BitOfOr(a / 2, b / 2, k - 1);
    }
  }

  lemma {:induction false} BitOfZero(k: nat)
    ensures !Bit(0, k)
    decreases k
  {
    if k > 0 {
      BitOfZero(k - 1);
    }
  }

  lemma {:induction false} BitOfPow2(j: nat, k: nat)
    ensures Bit(Pow2(j), k) <==> j == k
    decreases k
  {
    if j == 0 && k > 0 {
      BitOfZero(k - 1);
    } else if j > 0 && k > 0 {
      BitOfPow2(j - 1, k - 1);
    }
  }

  lemma {:induction false} OrCommutes(a: nat, b: nat)
    ensures Or(a, b) == Or(b, a)
    decreases a + b
  {
    if a != 0 || b != 0 {
      OrCommutes(a / 2, b / 2);
    }
  }

  lemma {:induction false} OrZero(b: nat)
    ensures Or(0, b) == b
  {
    if b > 0 {
      OrZero(b / 2);
    }
  }
}
