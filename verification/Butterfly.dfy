/**
  Bit gather and scatter (bcompress, bdecompress): a five-stage butterfly network whose swap masks
  come from stored prefix counts, against a bit-serial definition.
 */
module Butterfly {
  import opened Bits
  import opened PrefixCount

  // ---------------------------------------------------------------- bit-serial definitions

  /** bdecompress from bit i on: the next unused bit of x goes to the next one of m. */
  function ScatterFrom(x: Word, m: Word, i: nat, j: nat): (r: seq<bool>)
    requires j <= i <= 32
    ensures |r| == 32 - i
    decreases 32 - i
  {
    if i == 32 then []
    else if m[i] then [x[j]] + ScatterFrom(x, m, i + 1, j + 1)
    else [false] + ScatterFrom(x, m, i + 1, j)
  }

  function Scatter(x: Word, m: Word): Word {
    ScatterFrom(x, m, 0, 0)
  }

  /** bcompress from bit i on: the bits of x under ones of m, packed together. */
  function GatherFrom(x: Word, m: Word, i: nat): (r: seq<bool>)
    requires i <= 32
    ensures |r| <= 32 - i
    decreases 32 - i
  {
    if i == 32 then []
    else if m[i] then [x[i]] + GatherFrom(x, m, i + 1)
    else GatherFrom(x, m, i + 1)
  }

  function Gather(x: Word, m: Word): Word {
    var g := GatherFrom(x, m, 0);
    g + seq(32 - |g|, i => false)
  }

  // ---------------------------------------------------------------- the network

  function AndW(x: Word, y: Word): Word { seq(32, b requires 0 <= b < 32 => x[b] && y[b]) }
  function OrW(x: Word, y: Word): Word { seq(32, b requires 0 <= b < 32 => x[b] || y[b]) }
  function NotW(x: Word): Word { seq(32, b requires 0 <= b < 32 => !x[b]) }
  function ShrW(x: Word, n: nat): Word { seq(32, b requires 0 <= b < 32 => b + n < 32 && x[b + n]) }
  function ShlW(x: Word, n: nat): Word { seq(32, b requires 0 <= b < 32 => b >= n && x[b - n]) }

  /** First cycle: the count bits that are kept, packed into the two intermediate registers. */
  function LsbReg(counts: seq<nat>): Word
    requires |counts| == 32
  {
    seq(32, i requires 0 <= i < 32 => counts[i] % 2 == 1)
  }

  function MsbReg(counts: seq<nat>): Word
    requires |counts| == 32
  {
    seq(32, i requires 0 <= i < 32 =>
      if i < 16 then counts[2 * i + 1] / 2 % 2 == 1
      else if i < 24 then counts[4 * (i - 16) + 3] / 4 % 2 == 1
      else if i < 28 then counts[8 * (i - 24) + 7] / 8 % 2 == 1
      else if i < 30 then counts[16 * (i - 28) + 15] / 16 % 2 == 1
      else if i == 30 then counts[31] / 32 % 2 == 1
      else false)
  }

  function B(b: bool): nat { if b then 1 else 0 }

  /** Second cycle: the stored bits of count i; bits that were not stored read as zero. */
  function Loaded(lsb: Word, msb: Word, i: nat): nat
    requires i < 32
  {
    B(lsb[i])
    + (if i % 2 == 1 then 2 * B(msb[i / 2]) else 0)
    + (if i % 4 == 3 then 4 * B(msb[16 + i / 4]) else 0)
    + (if i % 8 == 7 then 8 * B(msb[24 + i / 8]) else 0)
    + (if i % 16 == 15 then 16 * B(msb[28 + i / 16]) else 0)
    + (if i == 31 then 32 * B(msb[30]) else 0)
  }

  /**
    Stage parameter k: segments have 2^(k+1) bits, their halves n = 2^k. Bit b is in segment
    Shr(b, k + 1) at offset Low(b, k + 1), in column Low(b, k) of its half.
   */
  function Middle(k: nat, b: nat): nat {
    ScaleNat(Shr(b, k + 1), k + 1);
    Scale(Shr(b, k + 1), k + 1) + Pow2(k)
  }

  lemma MiddleIn(k: nat, b: nat)
    requires k <= 4 && b < 32
    ensures 1 <= Middle(k, b) < 32
  {
    hide Shr, Scale, Low, Pow2;
    Split(b, k + 1);
    UnitsBelow(b, k + 1);
    ScaleNat(Shr(b, k + 1), k + 1);
    ScaleOrder(Shr(b, k + 1) + 1, Pow2(5 - (k + 1)), k + 1);
    ScaleAdd(Shr(b, k + 1), 1, k + 1);
    ScaleOne(k + 1);
    PowersTo32(k + 1);
    Doubled(k);
  }

  lemma PowersTo32(k: nat)
    requires k <= 5
    ensures Scale(Pow2(5 - k), k) == 32
  {
    hide Scale, Pow2;
    ScaleOne(5 - k);
    ScaleTwice(1, 5 - k, k);
    ScaleOne(5);
    Pow2Literals();
  }

  lemma UnitsBelow(b: nat, k: nat)
    requires k <= 5 && b < 32
    ensures Shr(b, k) < Pow2(5 - k)
  {
    hide Shr, Scale, Low, Pow2;
    Split(b, k);
    PowersTo32(k);
    ScaleOrder(Pow2(5 - k), Shr(b, k), k);
  }

  lemma Doubled(k: nat)
    ensures Pow2(k + 1) == 2 * Pow2(k)
  {
  }

  /** Shift amount of b's segment: the count through its right half, to k + 1 bits. */
  function Amount(lsb: Word, msb: Word, k: nat, b: nat): nat
    requires k <= 4 && b < 32
  {
    MiddleIn(k, b);
    Low(Loaded(lsb, msb, Middle(k, b) - 1), k + 1)
  }

  /** Bit t of `{n{1'b0}}{n{1'b1}} << amount`: left rotate and complement upon wrap. */
  predicate Lrotc(n: nat, amount: nat, t: nat) {
    t >= amount && t - amount < n
  }

  /** butterfly_mask_l and butterfly_mask_r of a stage. */
  function MaskL(lsb: Word, msb: Word, k: nat): Word
    requires k <= 4
  {
    seq(32, b requires 0 <= b < 32 =>
      Low(b, k + 1) >= Pow2(k) && !Lrotc(Pow2(k), Amount(lsb, msb, k, b), Low(b, k + 1)))
  }

  function MaskR(lsb: Word, msb: Word, k: nat): Word
    requires k <= 4
  {
    seq(32, b requires 0 <= b < 32 =>
      Low(b, k + 1) < Pow2(k) && !Lrotc(Pow2(k), Amount(lsb, msb, k, b), Pow2(k) + Low(b, k + 1)))
  }

  function Stage(x: Word, lsb: Word, msb: Word, k: nat): Word
    requires k <= 4
  {
    var l, r := MaskL(lsb, msb, k), MaskR(lsb, msb, k);
    OrW(OrW(AndW(x, NotW(OrW(l, r))), ShrW(AndW(x, l), Pow2(k))), ShlW(AndW(x, r), Pow2(k)))
  }

  function ButterflyNet(x: Word, m: Word, lsb: Word, msb: Word): Word {
    AndW(Stage(Stage(Stage(Stage(Stage(x, lsb, msb, 4), lsb, msb, 3), lsb, msb, 2), lsb, msb, 1), lsb, msb, 0), m)
  }

  function InverseNet(x: Word, m: Word, lsb: Word, msb: Word): Word {
    Stage(Stage(Stage(Stage(Stage(AndW(x, m), lsb, msb, 0), lsb, msb, 1), lsb, msb, 2), lsb, msb, 3), lsb, msb, 4)
  }

  // ---------------------------------------------------------------- swaps

  /** Ones of m below position p. */
  function Rank(m: Word, p: nat): nat
    requires p <= 32
  {
    OnesIn(m, 0, p)
  }

  ghost predicate CountsOf(counts: seq<nat>, m: Word) {
    |counts| == 32 && forall i | 0 <= i < 32 :: counts[i] == Rank(m, i + 1)
  }

  lemma LowIsMod(a: nat, w: nat)
    ensures w == 1 ==> Low(a, w) == a % 2
    ensures w == 2 ==> Low(a, w) == a % 4
    ensures w == 3 ==> Low(a, w) == a % 8
    ensures w == 4 ==> Low(a, w) == a % 16
    ensures w == 5 ==> Low(a, w) == a % 32
  {
    hide Low, Shr, Scale, Pow2;
    Pow2Literals();
    LowIsRemainder(a, w);
  }

  lemma LowIsRemainder(a: nat, w: nat)
    ensures Low(a, w) == a % Pow2(w)
  {
    hide Low, Shr, Scale, Pow2;
    Split(a, w);
    ScaleTimes(Shr(a, w), w);
    QuotientRemainder(a, Pow2(w), Shr(a, w), Low(a, w));
  }

  /** The bit of weight w. */
  function Digit(c: nat, w: nat): (d: nat)
    requires w > 0
    ensures d < 2
  {
    c / w % 2
  }

  lemma Weigh2(c: nat)
    ensures c % 2 + 2 * Digit(c, 2) == c % 4
  {
    QuotientRemainder(c, 4, c / 2 / 2, c % 2 + 2 * (c / 2 % 2));
  }

  lemma Weigh4(c: nat)
    ensures c % 4 + 4 * Digit(c, 4) == c % 8
  {
    QuotientRemainder(c, 8, c / 4 / 2, c % 4 + 4 * (c / 4 % 2));
  }

  lemma Weigh8(c: nat)
    ensures c % 8 + 8 * Digit(c, 8) == c % 16
  {
    QuotientRemainder(c, 16, c / 8 / 2, c % 8 + 8 * (c / 8 % 2));
  }

  lemma Weigh16(c: nat)
    ensures c % 16 + 16 * Digit(c, 16) == c % 32
  {
    QuotientRemainder(c, 32, c / 16 / 2, c % 16 + 16 * (c / 16 % 2));
  }

  lemma StoredBits(counts: seq<nat>, i: nat)
    requires |counts| == 32 && i < 32
    ensures LsbReg(counts)[i] == (counts[i] % 2 == 1)
    ensures i % 2 == 1 ==> MsbReg(counts)[i / 2] == (Digit(counts[i], 2) == 1)
    ensures i % 4 == 3 ==> MsbReg(counts)[16 + i / 4] == (Digit(counts[i], 4) == 1)
    ensures i % 8 == 7 ==> MsbReg(counts)[24 + i / 8] == (Digit(counts[i], 8) == 1)
    ensures i % 16 == 15 ==> MsbReg(counts)[28 + i / 16] == (Digit(counts[i], 16) == 1)
  {
    assert i % 2 == 1 ==> 2 * (i / 2) + 1 == i;
    assert i % 4 == 3 ==> 4 * (i / 4) + 3 == i;
    assert i % 8 == 7 ==> 8 * (i / 8) + 7 == i;
    assert i % 16 == 15 ==> 16 * (i / 16) + 15 == i;
  }

  /** What the second cycle reads at index i, up to bits that were not stored. */
  lemma LoadedBits(counts: seq<nat>, i: nat) returns (t: nat)
    requires |counts| == 32 && i < 32
    ensures
      var c := counts[i];
      Loaded(LsbReg(counts), MsbReg(counts), i)
      == c % 2 + (if i % 2 == 1 then 2 * Digit(c, 2) else 0) + (if i % 4 == 3 then 4 * Digit(c, 4) else 0)
         + (if i % 8 == 7 then 8 * Digit(c, 8) else 0) + (if i % 16 == 15 then 16 * Digit(c, 16) else 0) + 32 * t
  {
    hide LsbReg, MsbReg, Digit;
    StoredBits(counts, i);
    t := if i == 31 then B(MsbReg(counts)[30]) else 0;
  }

  lemma LastOf2(i: nat)
    requires (i + 1) % 2 == 0
    ensures i % 2 == 1
  {
  }

  lemma LastOf4(i: nat)
    requires (i + 1) % 4 == 0
    ensures i % 4 == 3 && (i + 1) % 2 == 0
  {
  }

  lemma LastOf8(i: nat)
    requires (i + 1) % 8 == 0
    ensures i % 8 == 7 && (i + 1) % 4 == 0
  {
  }

  lemma LastOf16(i: nat)
    requires (i + 1) % 16 == 0
    ensures i % 16 == 15 && (i + 1) % 8 == 0
  {
  }

  lemma LastOfBlock(i: nat, k: nat)
    requires i < 32 && k <= 4 && Low(i + 1, k) == 0
    ensures k >= 1 ==> i % 2 == 1
    ensures k >= 2 ==> i % 4 == 3
    ensures k >= 3 ==> i % 8 == 7
    ensures k >= 4 ==> i % 16 == 15
  {
    hide Low;
    LowIsMod(i + 1, k);
    if k >= 4 { LastOf16(i); }
    if k >= 3 { LastOf8(i); }
    if k >= 2 { LastOf4(i); }
    if k >= 1 { LastOf2(i); }
  }

  /** The stored bits are enough at the places where they are used. */
  lemma LoadedEnough(counts: seq<nat>, i: nat, k: nat)
    requires |counts| == 32 && i < 32 && k <= 4 && Low(i + 1, k) == 0
    ensures Low(Loaded(LsbReg(counts), MsbReg(counts), i), k + 1) == Low(counts[i], k + 1)
  {
    hide Loaded, LsbReg, MsbReg, Low, Digit;
    var t := LoadedBits(counts, i);
    LastOfBlock(i, k);
    var c, q := counts[i], Loaded(LsbReg(counts), MsbReg(counts), i);
    LowIsMod(c, k + 1);
    LowIsMod(q, k + 1);
    var b2, b4 := if i % 2 == 1 then Digit(c, 2) else 0, if i % 4 == 3 then Digit(c, 4) else 0;
    var b8, b16 := if i % 8 == 7 then Digit(c, 8) else 0, if i % 16 == 15 then Digit(c, 16) else 0;
    Assembled(c, q, k, b2, b4, b8, b16, t);
  }

  /** The bits below weight 2^(k+1) are those of c, whatever the others are. */
  lemma Assembled(c: nat, q: nat, k: nat, b2: nat, b4: nat, b8: nat, b16: nat, t: nat)
    requires k <= 4 && q == c % 2 + 2 * b2 + 4 * b4 + 8 * b8 + 16 * b16 + 32 * t
    requires k >= 1 ==> b2 == Digit(c, 2)
    requires k >= 2 ==> b4 == Digit(c, 4)
    requires k >= 3 ==> b8 == Digit(c, 8)
    requires k >= 4 ==> b16 == Digit(c, 16)
    ensures k == 0 ==> q % 2 == c % 2
    ensures k == 1 ==> q % 4 == c % 4
    ensures k == 2 ==> q % 8 == c % 8
    ensures k == 3 ==> q % 16 == c % 16
    ensures k == 4 ==> q % 32 == c % 32
  {
    hide Digit;
    Weigh2(c);
    Weigh4(c);
    Weigh8(c);
    Weigh16(c);
    if k == 0 {
      DropHigh(c % 2, b2 + 2 * b4 + 4 * b8 + 8 * b16 + 16 * t, 2);
    } else if k == 1 {
      DropHigh(c % 4, b4 + 2 * b8 + 4 * b16 + 8 * t, 4);
    } else if k == 2 {
      DropHigh(c % 8, b8 + 2 * b16 + 4 * t, 8);
    } else if k == 3 {
      DropHigh(c % 16, b16 + 2 * t, 16);
    } else {
      DropHigh(c % 32, t, 32);
    }
  }

  lemma DropHigh(low: nat, k: nat, w: nat)
    requires w in {2, 4, 8, 16, 32} && low < w
    ensures (low + w * k) % w == low
  {
    QuotientRemainder(low + w * k, w, k, low);
  }

  // ---------------------------------------------------------------- one stage is a set of swaps

  predicate InLeft(k: nat, b: nat) { Shr(b, k) % 2 == 1 }

  /** Offset, column and half of a bit. */
  lemma BitPlace(b: nat, k: nat)
    ensures Shr(b, k + 1) == Shr(b, k) / 2
    ensures Low(b, k + 1) == Low(b, k) + if InLeft(k, b) then Pow2(k) else 0
    ensures Low(b, k) < Pow2(k)
  {
    hide Shr, Scale, Low, Pow2;
    Split(b, k);
    var u := Shr(b, k);
    ScaleAdd(u / 2 * 2, u % 2, k);
    ScaleTwice(u / 2, 1, k);
    ScaleByTwo(u / 2);
    ScaleOne(k);
    ScaleZero(k);
    Doubled(k);
    SplitUnique(b, k + 1, u / 2, Low(b, k) + if u % 2 == 1 then Pow2(k) else 0);
  }

  lemma ScaleByTwo(n: int)
    ensures Scale(n, 1) == n * 2
  {
  }

  /** The bit b trades places with. */
  function Partner(k: nat, b: nat): int {
    if InLeft(k, b) then b - Pow2(k) else b + Pow2(k)
  }

  lemma PartnerPlace(k: nat, b: nat)
    requires k <= 4 && b < 32
    ensures
      var p := Partner(k, b);
      && 0 <= p < 32 && Low(p, k) == Low(b, k) && InLeft(k, p) == !InLeft(k, b)
      && Shr(p, k + 1) == Shr(b, k + 1) && Partner(k, p) == b
  {
    hide Shr, Scale, Low, Pow2;
    var u, p := Shr(b, k), Partner(k, b);
    var u' := if u % 2 == 1 then u - 1 else u + 1;
    Split(b, k);
    UnitsBelow(b, k);
    Doubled(5 - k - 1);
    ScaleAdd(u, 1, k);
    ScaleAdd(u, -1, k);
    ScaleAdd(1, -1, k);
    ScaleZero(k);
    ScaleOne(k);
    ScaleNat(u', k);
    SplitUnique(p, k, u', Low(b, k));
    PowersTo32(k);
    ScaleOrder(u' + 1, Pow2(5 - k), k);
    ScaleAdd(u', 1, k);
    BitPlace(b, k);
    BitPlace(p, k);
  }

  /** Whether column col is swapped when the count through the right half is c. */
  predicate Swapped(k: nat, c: nat, col: nat) {
    !Lrotc(Pow2(k), Low(c, k + 1), Pow2(k) + col)
  }

  /** Where stage k takes bit b from (and sends it to). */
  function Route(m: Word, k: nat, b: nat): int
    requires k <= 4 && b < 32
  {
    MiddleIn(k, b);
    if Swapped(k, Rank(m, Middle(k, b)), Low(b, k)) then Partner(k, b) else b
  }

  lemma MiddleAligned(k: nat, b: nat)
    ensures Low(Middle(k, b), k) == 0
  {
    hide Shr, Scale, Low, Pow2;
    var s := Shr(b, k + 1);
    ScaleTwice(s, 1, k);
    ScaleByTwo(s);
    ScaleOne(k);
    ScaleAdd(s * 2, 1, k);
    LowScaled(s * 2 + 1, k, k);
  }

  /** The stored counts give the swap flags. */
  lemma FlagOf(counts: seq<nat>, m: Word, k: nat, b: nat)
    requires CountsOf(counts, m) && k <= 4 && b < 32
    ensures 1 <= Middle(k, b) < 32
    ensures
      var flag := Swapped(k, Rank(m, Middle(k, b)), Low(b, k));
      && MaskL(LsbReg(counts), MsbReg(counts), k)[b] == (InLeft(k, b) && flag)
      && MaskR(LsbReg(counts), MsbReg(counts), k)[b] == (!InLeft(k, b) && flag)
  {
    hide Loaded, LsbReg, MsbReg, OnesIn, Lrotc, Low, Shr, Scale, Pow2, Middle;
    MiddleIn(k, b);
    MiddleAligned(k, b);
    BitPlace(b, k);
    LoadedEnough(counts, Middle(k, b) - 1, k);
  }

  lemma SamePartnerMiddle(k: nat, b: nat)
    requires k <= 4 && b < 32
    ensures 0 <= Partner(k, b) && Middle(k, Partner(k, b)) == Middle(k, b)
  {
    hide Shr, Scale, Low, Pow2;
    PartnerPlace(k, b);
  }

  /** Bit b of a stage's result. */
  lemma StageAt(x: Word, counts: seq<nat>, m: Word, k: nat, b: nat)
    requires CountsOf(counts, m) && k <= 4 && b < 32
    ensures 0 <= Route(m, k, b) < 32
    ensures Stage(x, LsbReg(counts), MsbReg(counts), k)[b] == x[Route(m, k, b)]
  {
    hide LsbReg, MsbReg, OnesIn, Lrotc, MaskL, MaskR, Swapped, Middle, Low, Shr, Pow2;
    FlagOf(counts, m, k, b);
    PartnerPlace(k, b);
    SamePartnerMiddle(k, b);
    if b + Pow2(k) < 32 {
      FlagOf(counts, m, k, b + Pow2(k));
    }
    if b >= Pow2(k) {
      FlagOf(counts, m, k, b - Pow2(k));
    }
    AwayFromPartner(k, b);
  }

  /** The only bits a stage shifts onto b come from its partner. */
  lemma AwayFromPartner(k: nat, b: nat)
    requires k <= 4 && b < 32
    ensures InLeft(k, b) && b + Pow2(k) < 32 ==> !InLeft(k, b + Pow2(k))
    ensures !InLeft(k, b) && b >= Pow2(k) ==> InLeft(k, b - Pow2(k))
  {
    hide Shr, Scale, Low, Pow2;
    Split(b, k);
    var u := Shr(b, k);
    ScaleAdd(u, 1, k);
    ScaleAdd(u, -1, k);
    ScaleAdd(1, -1, k);
    ScaleZero(k);
    ScaleOne(k);
    SplitUnique(b + Pow2(k), k, u + 1, Low(b, k));
    if b >= Pow2(k) {
      assert u >= 1;
      ScaleNat(u - 1, k);
      SplitUnique(b - Pow2(k), k, u - 1, Low(b, k));
    }
  }

  /** Swapping twice is the identity. */
  lemma RouteInvolution(m: Word, k: nat, b: nat)
    requires k <= 4 && b < 32
    ensures 0 <= Route(m, k, b) < 32 && Route(m, k, Route(m, k, b)) == b
  {
    hide OnesIn, Swapped, Middle, Low, Shr, Pow2;
    PartnerPlace(k, b);
    SamePartnerMiddle(k, b);
  }
}
