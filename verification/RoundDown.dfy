/**
  CSetBoundsRoundDown: the base is kept exactly, the top is never above the request, and no exponent
  up to 14 could give a longer region with that base.
  CRRL and CRAM: the length and alignment that make a request exact.
 */
module RoundDown {
  import opened Bits
  import opened CapTypes
  import opened Bounds
  import opened BoundsCircuit
  import opened Rounding

  /** min(14, bit length of length / 512, alignment of addr). */
  function RoundDownExp(addr: U32, length: U32): U5 {
    var el, eb := ExpLen(length), TrailingZeros(addr, 32);
    if el > eb && eb <= 14 then eb else if el > 14 then 14 else el
  }

  /** The number of units kept: all 511 when the length is larger than that, else what fits. */
  function RoundDownUnits(addr: U32, length: U32): nat {
    var el, eb := ExpLen(length), TrailingZeros(addr, 32);
    if el > eb || el > 14 then 511 else Shr(length, el)
  }

  lemma RoundDownAligned(addr: U32, length: U32)
    ensures Low(addr, RoundDownExp(addr, length)) == 0
    ensures forall e: nat | e <= 14 && Low(addr, e) == 0 :: e <= TrailingZeros(addr, 32)
  {
    hide Low, TrailingZeros, ExpLen;
    TrailingZerosIsAlignment(addr, 32, RoundDownExp(addr, length));
    forall e: nat | e <= 14 && Low(addr, e) == 0
      ensures e <= TrailingZeros(addr, 32)
    {
      TrailingZerosIsAlignment(addr, 32, e);
    }
  }

  /** Quotient of an aligned sum. */
  lemma ShrAligned(addr: nat, length: nat, e: nat)
    requires Low(addr, e) == 0
    ensures Shr(addr + length, e) == Shr(addr, e) + Shr(length, e)
    ensures Low(addr + length, e) == Low(length, e)
  {
    hide Low, Shr, Scale, Pow2;
    Split(addr, e);
    Split(length, e);
    ScaleAdd(Shr(addr, e), Shr(length, e), e);
    SplitUnique(addr + length, e, Shr(addr, e) + Shr(length, e), Low(length, e));
  }

  lemma UnitsBound(addr: U32, length: U32)
    ensures RoundDownUnits(addr, length) <= 511
    ensures Scale(RoundDownUnits(addr, length), RoundDownExp(addr, length)) <= length
  {
    hide Low, Shr, Scale, Pow2, ExpLen, TrailingZeros;
    var el, eb, e := ExpLen(length), TrailingZeros(addr, 32), RoundDownExp(addr, length);
    LengthWindow(length);
    if el > eb || el > 14 {
      ScaleMonoExp(512, e, el - 1);
      ScaleOrder(511, 512, e);
    } else {
      Split(length, el);
      ScaleOrder(512, Shr(length, el), el);
    }
  }

  /** The decoded region is [addr, addr + units * 2^exp). */
  lemma RoundDownEncodes(f: FullCap, addr: U32, length: U32)
    requires addr + length <= 0x1_0000_0000
    ensures
      var r := SetBoundsRoundDown(f, addr, PrepBoundReq(f, addr, length));
      var n := Scale(RoundDownUnits(addr, length), RoundDownExp(addr, length));
      && r.exp == RoundDownExp(addr, length) && n >= 0
      && Encodes(Full2RegCap(r), addr, addr, addr + n)
  {
    hide Low, Shr, Scale, Pow2, ExpLen, TrailingZeros;
    var e, n := RoundDownExp(addr, length), RoundDownUnits(addr, length);
    RoundDownAligned(addr, length);
    UnitsBound(addr, length);
    ScaleNat(n, e);
    ShrAligned(addr, length, e);
    ShrAligned(addr, Scale(n, e), e);
    ShrScale(n, e);
    ScaleOrder(n, 511, e);
    ScaleOrder(1, 512, e);
    ScaleOne(e);
  }

  function RequestRoundDown(c: RegCap, addr: U32, length: U32): RegCap {
    var f := Reg2FullCap(c, addr);
    Full2RegCap(SetBoundsRoundDown(f, addr, PrepBoundReq(f, addr, length)))
  }

  /** Base exact, top not above the request, region inside the source. */
  lemma RoundDownBounds(c: RegCap, addr: U32, length: U32)
    requires c.valid && WellFormed(c, addr)
    ensures
      var r := RequestRoundDown(c, addr, length);
      && r.valid == (Base32(c, addr) <= addr && addr + length <= Top33(c, addr))
      && (r.valid ==>
           && WellFormed(r, addr) && r.exp == RoundDownExp(addr, length)
           && Base32(r, addr) == addr
           && Top33(r, addr) == addr + Scale(RoundDownUnits(addr, length), r.exp) <= addr + length
           && r.cperms == c.cperms && r.otype == c.otype)
  {
    hide Low, Shr, Scale, Pow2, ExpLen, TrailingZeros, GetBound33, RoundDownUnits, RoundDownExp;
    var r := RequestRoundDown(c, addr, length);
    if r.valid {
      RoundDownEncodes(Reg2FullCap(c, addr), addr, length);
      UnitsBound(addr, length);
      Decode(r, addr, addr, addr + Scale(RoundDownUnits(addr, length), r.exp));
    }
  }

  /** No other exponent up to 14 gives a longer region starting at addr inside the request. */
  lemma RoundDownIsLongest(addr: U32, length: U32, e: U5, units: nat)
    requires e <= 14 && Low(addr, e) == 0 && units <= 511 && Scale(units, e) <= length
    ensures Scale(units, e) <= Scale(RoundDownUnits(addr, length), RoundDownExp(addr, length))
  {
    hide Low, Shr, Scale, Pow2, ExpLen, TrailingZeros;
    var el, eb, x := ExpLen(length), TrailingZeros(addr, 32), RoundDownExp(addr, length);
    RoundDownAligned(addr, length);
    LengthWindow(length);
    ScaleOrder(units, 511, e);
    if el > eb || el > 14 {
      ScaleMonoExp(511, e, x);
    } else if e >= el {
      ScaleTwice(units, e - el, el);
      ScaleNat(units, e - el);
      FitsInFloor(Scale(units, e - el), length, el);
    } else {
      ScaleTwice(256, 1, el - 1);
      ScaleByOne(256);
      FitsInFloor(256, length, el);
      ScaleMonoExp(511, e, el - 1);
      ScaleOrder(511, 512, el - 1);
    }
  }

  lemma FitsInFloor(n: nat, length: nat, e: nat)
    requires Scale(n, e) <= length
    ensures Scale(n, e) <= Scale(Shr(length, e), e)
  {
    hide Low, Shr, Scale, Pow2;
    ScaleNat(n, e);
    ShrScale(n, e);
    ShrMono(Scale(n, e), length, e);
    ScaleOrder(n, Shr(length, e), e);
  }

  // ---------------------------------------------------------------- CRRL and CRAM

  /** CRRL rd, rs1: set_bounds of the NULL capability at address 0. */
  function Crrl(length: U32): U32 {
    SetBounds(NULL_FULL_CAP, 0, PrepBoundReq(NULL_FULL_CAP, 0, length), false).rlen
  }

  /** CRAM rd, rs1. */
  function Cram(length: U32): U32 {
    SetBounds(NULL_FULL_CAP, 0, PrepBoundReq(NULL_FULL_CAP, 0, length), false).maska
  }

  lemma LowZero(e: nat)
    ensures Low(0, e) == 0 && Shr(0, e) == 0
  {
    Pow2Mono(0, e);
    LowSmall(0, e);
  }

  /** CRRL rounds the length up at the least exponent that fits it, on 32 bits. */
  lemma CrrlComputes(length: U32)
    ensures
      var e := ChosenExp(0, length);
      && IsLeastExp(e, 0, length)
      && Crrl(length) == CeilTo(length, e) % 0x1_0000_0000
      && Cram(length) == 0x1_0000_0000 - Pow2(e)
      && length <= CeilTo(length, e) <= 0x1_0000_0000
      && Low(CeilTo(length, e), e) == 0 && CeilTo(length, e) <= Scale(511, e)
  {
    hide Low, Shr, Scale, Pow2, ExpLen, TrailingZeros, SetBounds, Rounded;
    var e := ChosenExp(0, length);
    SetBoundsComputes(NULL_FULL_CAP, 0, length, false);
    ChoiceIsLeast(0, length);
    LowZero(e);
    CeilInSpace(length, e);
    FloorCeil(length, e);
    ShrScale(CeilShr(length, e), e);
    ScaleOrder(CeilShr(length, e), 511, e);
  }

  /** And with the mask keeps an address exactly when it is aligned to the mask's exponent. */
  lemma CramAligns(addr: U32, e: nat)
    requires e <= 32
    ensures Pow2(e) <= 0x1_0000_0000
    ensures And(addr, 0x1_0000_0000 - Pow2(e)) == addr <==> Low(addr, e) == 0
  {
    hide Low, And, Pow2;
    Pow2Literals();
    Pow2Mono(e, 32);
    AndHigh(addr, e, 32);
  }

  /**
    The promise of CRRL and CRAM: a request of the rounded length at an address the mask does not
    change is exactly representable.
   */
  lemma CrrlCramMakeExact(addr: U32, length: U32)
    requires And(addr, Cram(length)) == addr
    ensures Representable(addr, addr + Crrl(length))
  {
    hide Low, Shr, Scale, Pow2, And, ExpLen, Crrl, Cram, ChosenExp, ExactAt, Span, CeilTo;
    var e := ChosenExp(0, length);
    CrrlComputes(length);
    CramAligns(addr, e);
    var n := Crrl(length);
    if n == 0 {
      LowZero(e);
      ScaleNat(511, e);
    }
    ShrAligned(addr, n, e);
    ExactAtIntro(e, addr, addr + n);
  }

  /** The rounded length covers the length, except where 2^32 does not fit 32 bits. */
  lemma CrrlCovers(length: U32)
    ensures Crrl(length) >= length <==> length <= 0xFF00_0000
  {
    hide Low, Shr, Scale, Pow2, And, ExpLen, Crrl, Cram, Span;
    CrrlComputes(length);
    CeilReachesTop(length);
  }

  /** The rounded length is 2^32 exactly for the lengths in the last unit of the reset exponent. */
  lemma CeilReachesTop(length: U32)
    ensures CeilTo(length, ChosenExp(0, length)) == 0x1_0000_0000 <==> length > 0xFF00_0000
  {
    hide Low, Shr, Scale, Pow2, And, ExpLen, Span;
    var e := ChosenExp(0, length);
    CrrlComputes(length);
    Pow2Literals();
    FloorCeil(length, e);
    if e == RESETEXP {
      ShrTop();
      CeilReset(length);
    } else {
      ScaleTimes(511, e);
      Pow2Mono(e, 14);
    }
    LargeNeedsReset(length);
  }

  lemma LargeNeedsReset(length: U32)
    requires IsLeastExp(ChosenExp(0, length), 0, length)
    ensures length > 0xFF00_0000 ==> ChosenExp(0, length) == RESETEXP
  {
    hide Low, Shr, Scale, Pow2, And, ExpLen, ChosenExp;
    var e := ChosenExp(0, length);
    if length > 0xFF00_0000 && e <= 14 {
      Pow2Literals();
      Pow2Mono(e, 14);
      ScaleTimes(512, e);
      SpanLower(0, length, 512, e);
    }
  }

  lemma CeilReset(length: U32)
    ensures CeilTo(length, RESETEXP) == 0x1_0000_0000 <==> length > 0xFF00_0000
  {
    hide Low, Shr, Scale, Pow2;
    Pow2Literals();
    FloorCeil(length, RESETEXP);
    ScaleTimes(CeilShr(length, RESETEXP), RESETEXP);
  }
}
