/**
  The condition the IT8 encoding needs, "a non-zero exponent means at least 256 units", is kept by
  every operation that makes bounds.
 */
module It8Invariant {
  import opened Bits
  import opened CapTypes
  import opened Bounds
  import opened BoundsCircuit
  import opened Rounding
  import opened RoundDown
  import opened CodecProofs

  lemma FieldSpanOfUnits(b: nat, t: nat)
    requires 0 <= t - b <= 511
    ensures FieldSpan(t % 512, b % 512) == t - b
  {
  }

  /** Rounding at one exponent more gives at least half as many units. */
  lemma SpanHalves(addr: nat, top: nat, e: nat)
    requires addr <= top && Span(addr, top, e) >= 512
    ensures Span(addr, top, e + 1) >= 256
  {
    hide Low, Shr, Scale, Pow2;
    ShrTwice(addr, e, 1);
    ShrTwice(top, e, 1);
    LowLow(top, e, e + 1);
    LowOfHalf(top, e);
    ShrOne(Shr(addr, e));
    ShrOne(Shr(top, e));
  }

  lemma ShrOne(a: nat)
    ensures Shr(a, 1) == a / 2
  {
  }

  lemma LowOfHalf(a: nat, e: nat)
    ensures Low(a, e + 1) == 0 <==> Low(a, e) == 0 && Shr(a, e) % 2 == 0
  {
    hide Low, Shr, Scale, Pow2;
    Split(a, e);
    Split(a, e + 1);
    var u := Shr(a, e);
    ShrTwice(a, e, 1);
    ShrOne(u);
    ScaleAdd(u / 2 * 2, u % 2, e);
    ScaleTwice(u / 2, 1, e);
    ScaleByOne(u / 2);
    ScaleOne(e);
    ScaleZero(e);
  }

  lemma It8SpanLarge(addr: U32, length: U32)
    ensures
      var l := ExpLen(length);
      && (l > 0 ==> Span(addr, addr + length, l) >= 256)
      && (Span(addr, addr + length, l) >= 512 ==> Span(addr, addr + length, l + 1) >= 256)
  {
    hide Low, Shr, Scale, Pow2, ExpLen, Span;
    var l := ExpLen(length);
    LengthWindow(length);
    if l > 0 {
      ScaleTwice(256, 1, l - 1);
      ScaleByOne(256);
      SpanLower(addr, length, 256, l);
    }
    if Span(addr, addr + length, l) >= 512 {
      SpanHalves(addr, addr + length, l);
    }
  }

  /** CSetBounds under IT8. */
  lemma SetBoundsStorable(f: FullCap, addr: U32, length: U32, exact: bool)
    ensures StorableIt8(Full2RegCap(SetBounds(f, addr, PrepBoundReqIt8(f, addr, length), exact)), addr)
  {
    hide Low, Shr, Scale, Pow2, And, Shl, Span, ExpLen, CeilShr, BoundPath, Shl32, TrailingZeros;
    var l := ExpLen(length);
    SpanAtExps(addr, length, l);
    SpanAtExps(addr, length, l + 1);
    BoundPathArith(l, addr, addr + length);
    BoundPathArith(l + 1, addr, addr + length);
    It8SpanLarge(addr, length);
    It8Fields(addr, addr + length, if Span(addr, addr + length, l) >= 512 then l + 1 else l);
  }

  lemma It8Fields(addr: nat, top: nat, e: nat)
    requires 0 <= Span(addr, top, e) <= 511
    ensures FieldSpan(CeilShr(top, e) % 512, Shr(addr, e) % 512) == Span(addr, top, e)
  {
    hide Low, Shr;
    FieldSpanOfUnits(Shr(addr, e), CeilShr(top, e));
  }

  /** CSetBoundsRoundDown under IT8. */
  lemma RoundDownStorable(f: FullCap, addr: U32, length: U32)
    ensures StorableIt8(Full2RegCap(SetBoundsRoundDownIt8(f, addr, PrepBoundReqIt8(f, addr, length))), addr)
  {
    hide Low, Shr, Scale, Pow2, ExpLen, TrailingZeros;
    var el, eb := ExpLen(length), TrailingZeros(addr, 32);
    if el > eb {
      FieldSpanOfUnits(Shr(addr, eb), Shr(addr, eb) + 511);
    } else {
      TrailingZerosIsAlignment(addr, 32, el);
      ShrAligned(addr, length, el);
      It8Quotient(length);
      FieldSpanOfUnits(Shr(addr, el), Shr(addr + length, el));
    }
  }

  lemma It8Quotient(length: U32)
    ensures Shr(length, ExpLen(length)) <= 511
    ensures ExpLen(length) > 0 ==> Shr(length, ExpLen(length)) >= 256
  {
    hide Low, Shr, Scale, Pow2, ExpLen;
    var l := ExpLen(length);
    LengthWindow(length);
    Split(length, l);
    ScaleOrder(512, Shr(length, l), l);
    if l > 0 {
      ScaleTwice(256, 1, l - 1);
      ScaleByOne(256);
      FitsInFloor(256, length, l);
      ScaleOrder(256, Shr(length, l), l);
    }
  }

  /** Address moves change neither exponent nor fields, and recompute the corrections. */
  lemma SetAddressStorable(f: FullCap, newptr: U32)
    requires f.exp <= RESETEXP && (f.exp > 0 ==> FieldSpan(f.top, f.base) >= 256)
    ensures StorableIt8(Full2RegCap(SetAddress(f, newptr)), newptr)
  {
    hide Low, Shr, Scale, Pow2, And, Shl, FieldSpan;
  }
}
