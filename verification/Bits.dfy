/**
  Unsigned bit vectors as natural numbers: shifts, masks and the bitwise operators the hardware is
  written in, with the lemmas that turn each of them into plain arithmetic.
  A value of width w is a natural number below Pow2(w); truncation to w bits is Low(_, w).
  Everything is defined one bit at a time, so that every proof below is linear.
 */
module Bits {

  function Pow2(k: nat): (p: nat)
    ensures p >= 1
  {
    if k == 0 then 1 else 2 * Pow2(k - 1)
  }

  /** `n << k` without truncation: n * 2^k. */
  function Scale(n: int, k: nat): int
    decreases k
  {
    if k == 0 then n else 2 * Scale(n, k - 1)
  }

  /** `a >> k`: floor(a / 2^k). */
  function Shr(a: nat, k: nat): nat
    decreases k
  {
    if k == 0 then a else Shr(a / 2, k - 1)
  }

  /** The k low bits of a: a mod 2^k. */
  function Low(a: nat, k: nat): nat
    decreases k
  {
    if k == 0 then 0 else a % 2 + 2 * Low(a / 2, k - 1)
  }

  /** All-ones vector of width w. */
  function Ones(w: nat): nat {
    Pow2(w) - 1
  }

  /** `a << k`, truncated to w bits. */
  function Shl(a: nat, k: nat, w: nat): nat {
    ScaleNat(a, k);
    Low(Scale(a, k), w)
  }

  function And(a: nat, b: nat): nat {
    if a == 0 || b == 0 then 0
    else (if a % 2 == 1 && b % 2 == 1 then 1 else 0) + 2 * And(a / 2, b / 2)
  }

  function Or(a: nat, b: nat): nat {
    if a == 0 then b else if b == 0 then a
    else (if a % 2 == 1 || b % 2 == 1 then 1 else 0) + 2 * Or(a / 2, b / 2)
  }

  // ---------------------------------------------------------------- Scale

  lemma {:induction false} ScaleNat(n: nat, k: nat)
    ensures Scale(n, k) >= n
    decreases k
  {
    if k > 0 {
      ScaleNat(n, k - 1);
    }
  }

  lemma {:induction false} ScaleOne(k: nat)
    ensures Scale(1, k) == Pow2(k)
  {
    if k > 0 {
      ScaleOne(k - 1);
    }
  }

  lemma {:induction false} ScaleAdd(m: int, n: int, k: nat)
    ensures Scale(m + n, k) == Scale(m, k) + Scale(n, k)
    decreases k
  {
    if k > 0 {
      ScaleAdd(m, n, k - 1);
    }
  }

  lemma {:induction false} ScaleTwice(n: int, j: nat, k: nat)
    ensures Scale(Scale(n, j), k) == Scale(n, j + k)
    decreases k
  {
    if k > 0 {
      ScaleTwice(n, j, k - 1);
    }
  }

  /** Scaling preserves and reflects the order. */
  lemma {:induction false} ScaleOrder(m: int, n: int, k: nat)
    ensures m <= n <==> Scale(m, k) <= Scale(n, k)
    decreases k
  {
    if k > 0 {
      ScaleOrder(m, n, k - 1);
    }
  }

  lemma {:induction false} ScaleTimes(c: int, k: nat)
    ensures Scale(c, k) == c * Pow2(k)
    decreases k
  {
    if k > 0 {
      ScaleTimes(c, k - 1);
    }
  }

  lemma {:induction false} Pow2Mono(a: nat, b: nat)
    requires a <= b
    ensures Pow2(a) <= Pow2(b)
  {
    if a < b {
      Pow2Mono(a, b - 1);
    }
  }

  /** Nine more bits multiply by 512. */
  lemma ScaleNine(n: int, k: nat)
    ensures Scale(n, k + 9) == 512 * Scale(n, k)
  {
    ScaleTwice(n, k, 9);
    ScaleTwice(Scale(n, k), 3, 6);
    ScaleTwice(8 * Scale(n, k), 3, 3);
  }

  lemma ScaleByNine(n: int)
    ensures Scale(n, 9) == 512 * n
  {
  }

  // ---------------------------------------------------------------- Shr and Low

  lemma {:induction false} Split(a: nat, k: nat)
    ensures a == Scale(Shr(a, k), k) + Low(a, k)
    ensures Low(a, k) < Pow2(k)
    decreases k
  {
    if k > 0 {
      Split(a / 2, k - 1);
    }
  }

  lemma {:induction false} SplitUnique(a: nat, k: nat, q: nat, r: nat)
    requires a == Scale(q, k) + r && r < Pow2(k)
    ensures Shr(a, k) == q && Low(a, k) == r
    decreases k
  {
    if k > 0 {
      SplitUnique(a / 2, k - 1, q, r / 2);
    }
  }

  lemma LowSmall(a: nat, k: nat)
    requires a < Pow2(k)
    ensures Low(a, k) == a && Shr(a, k) == 0
  {
    ScaleZero(k);
    SplitUnique(a, k, 0, a);
  }

  lemma {:induction false} ScaleZero(k: nat)
    ensures Scale(0, k) == 0
  {
    if k > 0 {
      ScaleZero(k - 1);
    }
  }

  lemma ShrScale(q: nat, k: nat)
    ensures Scale(q, k) >= 0 && Shr(Scale(q, k), k) == q && Low(Scale(q, k), k) == 0
  {
    ScaleNat(q, k);
    SplitUnique(Scale(q, k), k, q, 0);
  }

  /** A multiple of 2^k is the scaled quotient, and the other way round. */
  lemma Multiple(a: nat, k: nat)
    ensures Low(a, k) == 0 <==> a == Scale(Shr(a, k), k)
  {
    Split(a, k);
  }

  lemma ShrMono(a: nat, b: nat, k: nat)
    requires a <= b
    ensures Shr(a, k) <= Shr(b, k)
  {
    Split(a, k);
    Split(b, k);
    ScaleOne(k);
    if Shr(a, k) > Shr(b, k) {
      ScaleOrder(Shr(b, k) + 1, Shr(a, k), k);
      ScaleAdd(Shr(b, k), 1, k);
    }
  }

  lemma {:induction false} ShrTwice(a: nat, j: nat, k: nat)
    ensures Shr(Shr(a, j), k) == Shr(a, j + k)
    decreases j
  {
    if j > 0 {
      ShrTwice(a / 2, j - 1, k);
    }
  }

  lemma {:induction false} LowLow(a: nat, j: nat, k: nat)
    requires j <= k
    ensures Low(Low(a, k), j) == Low(a, j)
    decreases j
  {
    if j > 0 {
      LowLow(a / 2, j - 1, k - 1);
    }
  }

  /** Shifting right by nine more bits divides by 512. */
  lemma ShrNine(a: nat, k: nat)
    ensures Shr(a, k + 9) == Shr(a, k) / 512
  {
    ShrTwice(a, k, 9);
    ShrTwice(Shr(a, k), 3, 6);
    ShrTwice(Shr(a, k) / 8, 3, 3);
  }

  lemma {:induction false} LowScaled(n: nat, j: nat, k: nat)
    requires j <= k
    ensures Scale(n, k) >= 0 && Low(Scale(n, k), j) == 0
  {
    ScaleNat(n, k);
    if j > 0 {
      LowScaled(n, j - 1, k - 1);
    }
  }

  /** The low bits of a sum with a multiple of 2^k. */
  lemma LowAdd(a: nat, n: int, k: nat)
    requires a + Scale(n, k) >= 0
    ensures Low(a + Scale(n, k), k) == Low(a, k)
  {
    Split(a, k);
    var q := Shr(a, k);
    ScaleAdd(q, n, k);
    ScaleOrder(0, q + n + 1, k);
    ScaleOrder(q + n + 1, 0, k);
    ScaleAdd(q + n, 1, k);
    ScaleOne(k);
    ScaleZero(k);
    SplitUnique(a + Scale(n, k), k, q + n, Low(a, k));
  }

  // ---------------------------------------------------------------- literal widths

  lemma Pow2Literals()
    ensures Pow2(0) == 1 && Pow2(1) == 2 && Pow2(2) == 4 && Pow2(3) == 8
    ensures Pow2(4) == 0x10 && Pow2(5) == 0x20 && Pow2(6) == 0x40 && Pow2(8) == 0x100
    ensures Pow2(9) == 0x200 && Pow2(10) == 0x400 && Pow2(14) == 0x4000 && Pow2(15) == 0x8000
    ensures Pow2(23) == 0x80_0000 && Pow2(24) == 0x100_0000
    ensures Pow2(31) == 0x8000_0000 && Pow2(32) == 0x1_0000_0000 && Pow2(33) == 0x2_0000_0000
  {
  }

  /** The top of the address space in units of the reset exponent. */
  lemma ShrTop()
    ensures Shr(0x1_0000_0000, 24) == 256
  {
    Pow2Literals();
    ScaleOne(8);
    ScaleOne(32);
    ScaleTwice(1, 8, 24);
    SplitUnique(0x1_0000_0000, 24, 256, 0);
  }

  // ---------------------------------------------------------------- masks

  lemma {:induction false} AndOnes(a: nat, k: nat)
    ensures And(a, Ones(k)) == Low(a, k)
  {
    hide And;
    if k == 0 {
      AndZero(a);
    } else {
      AndOnes(a / 2, k - 1);
      AndOdd(a, Pow2(k - 1) - 1);
    }
  }

  lemma AndZero(a: nat)
    ensures And(a, 0) == 0
  {
  }

  lemma AndOdd(a: nat, m: nat)
    ensures And(a, 2 * m + 1) == a % 2 + 2 * And(a / 2, m)
  {
  }

  lemma {:induction false} AndHigh(a: nat, k: nat, w: nat)
    requires k <= w && a < Pow2(w)
    ensures Pow2(k) <= Pow2(w)
    ensures And(a, Pow2(w) - Pow2(k)) == a - Low(a, k)
  {
    hide And;
    Pow2Mono(k, w);
    if k == 0 {
      AndOnes(a, w);
      LowSmall(a, w);
    } else {
      AndHigh(a / 2, k - 1, w - 1);
      AndDouble(a, Pow2(w - 1) - Pow2(k - 1));
    }
  }

  lemma AndDouble(a: nat, m: nat)
    ensures And(a, 2 * m) == 2 * And(a / 2, m)
  {
  }

  /** The mask `{w{1'b1}} << k`. */
  lemma HighMask(k: nat, w: nat)
    ensures Shl(Ones(w), k, w) == if k <= w then Pow2(w) - Pow2(k) else 0
  {
    ScaleNat(Ones(w), k);
    ScaleOne(k);
    ScaleAdd(Pow2(w), -1, k);
    ScaleAdd(1, -1, k);
    ScaleZero(k);
    assert Scale(Ones(w), k) == Scale(Pow2(w), k) - Pow2(k);
    ScaleOne(w);
    ScaleTwice(1, w, k);
    ScaleTwice(1, k, w);
    assert Scale(Pow2(w), k) == Scale(Pow2(k), w);
    if k <= w {
      Pow2Mono(k, w);
      ScaleAdd(Pow2(k) - 1, 1, w);
      SplitUnique(Scale(Ones(w), k), w, Pow2(k) - 1, Pow2(w) - Pow2(k));
    } else {
      LowScaled(Ones(w), w, k);
    }
  }

  /** `a & ({w{1'b1}} << k)` keeps the part of a that is a multiple of 2^k. */
  lemma AndMask(a: nat, k: nat, w: nat)
    requires a < Pow2(w)
    ensures And(a, Shl(Ones(w), k, w)) == if k <= w then a - Low(a, k) else 0
  {
    HighMask(k, w);
    if k <= w {
      AndHigh(a, k, w);
    }
  }

  /** `~a` on w bits. */
  function Not(a: nat, w: nat): nat
    requires a < Pow2(w)
  {
    Ones(w) - a
  }

  /** `a & ~({w{1'b1}} << k)` keeps the k low bits of a. */
  lemma AndNotMask(a: nat, k: nat, w: nat)
    requires a < Pow2(w)
    ensures Shl(Ones(w), k, w) < Pow2(w)
    ensures And(a, Not(Shl(Ones(w), k, w), w)) == Low(a, k)
  {
    HighMask(k, w);
    if k <= w {
      Pow2Mono(k, w);
      AndOnes(a, k);
    } else {
      Pow2Mono(w, k);
      AndOnes(a, w);
      LowSmall(a, w);
      LowSmall(a, k);
    }
  }

  lemma OrZero(a: nat)
    ensures Or(0, a) == a
  {
  }

  /** Or of two vectors that share no bit is their sum. */
  lemma {:induction false} OrDisjoint(hi: nat, lo: nat, k: nat)
    requires Low(hi, k) == 0 && lo < Pow2(k)
    ensures Or(hi, lo) == hi + lo
  {
    if k > 0 && hi > 0 && lo > 0 {
      OrDisjoint(hi / 2, lo / 2, k - 1);
    }
  }

  // ---------------------------------------------------------------- remainders

  lemma QuotientRemainder(a: nat, d: nat, q: nat, r: nat)
    requires d > 0 && a == q * d + r && r < d
    ensures a % d == r
  {
    var k := a / d - q;
    assert k * d == r - a % d;
    NoMultipleBetween(k, d);
  }

  lemma NoMultipleBetween(k: int, d: int)
    requires -d < k * d < d
    ensures k == 0
  {
    MonotoneProduct(1, k, d);
    MonotoneProduct(k, -1, d);
  }

  lemma MonotoneProduct(a: int, b: int, c: int)
    ensures a <= b && c >= 0 ==> a * c <= b * c
  {
  }
}
