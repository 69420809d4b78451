/**
  Every memory format loses nothing: decoding what was stored gives the register form back, with the
  tag and permissions cleared exactly as the load asks for.
 */
module CodecProofs {
  import opened Bits
  import opened BitFields
  import opened CapTypes
  import opened Bounds
  import opened Codecs

  /** What a load with the given clear requests makes of a stored capability. */
  function Cleared(c: RegCap, clr: ClrPerm): RegCap {
    var valid := c.valid && !clr.tag;
    c.(valid := valid, cperms := MaskClcPerms(c.cperms, clr, valid, c.otype != OTYPE_UNSEALED))
  }

  lemma ClearedNone(c: RegCap)
    ensures Cleared(c, NO_CLR) == c
  {
  }

  lemma CPermsRoundTrip(c: CPerms)
    ensures CPermsOf(CPermsBits(c)) == c
  {
    hide Odd, Halve, Join;
    var n4 := Join(c.b4, Join(c.b5, 0));
    var n2 := Join(c.b2, Join(c.b3, n4));
    JoinSplits(c.b0, Join(c.b1, n2));
    JoinSplits(c.b1, n2);
    JoinSplits(c.b2, Join(c.b3, n4));
    JoinSplits(c.b3, n4);
    JoinSplits(c.b4, Join(c.b5, 0));
    JoinSplits(c.b5, 0);
  }

  lemma ExpRoundTrip(e: U5)
    requires LegalExp(e)
    ensures ExpandExp(CompressExp(e)) == e
  {
  }

  /** Capabilities the original encoding can hold. */
  predicate Storable(c: RegCap, addr: U32) {
    LegalExp(c.exp) && CorsAt(c, addr)
  }

  /** Format 0, original encoding. */
  lemma RoundTrip0(c: RegCap, addr: U32, clr: ClrPerm)
    requires Storable(c, addr)
    ensures Mem2RegCap0(Reg2MemCap0(c), TagWord(c.valid, addr), clr) == Cleared(c, clr)
    ensures TagOf(Reg2MemCap0(c)) == c.valid
  {
    hide Slice, Pack, Pow2, CPermsBits, CPermsOf, MaskClcPerms, Mid9;
    Unpack0(c, CompressExp(c.exp));
    ExpRoundTrip(c.exp);
    CPermsRoundTrip(c.cperms);
    FlagIsTag(Reg2MemCap0(c));
  }

  // ---------------------------------------------------------------- format 1: the scattered address

  lemma {:induction false} OrComm(a: nat, b: nat)
    ensures Or(a, b) == Or(b, a)
  {
    if a > 0 && b > 0 {
      OrComm(a / 2, b / 2);
    }
  }

  lemma MidIsSlice(addr: U32, exp: U5)
    ensures Field9(addr, exp) == Mid9(addr, exp)
  {
    LowNine(Shr(addr, exp));
  }

  lemma LowNine(a: nat)
    ensures Low(a, 9) == a % 512
  {
    hide Low, Pow2, Scale, Shr;
    Split(a, 9);
    ScaleByNine(Shr(a, 9));
    Pow2Literals();
  }

  /** The three parts of an address around the nine bits at exp. */
  lemma ThreeParts(addr: U32, exp: U5)
    requires exp <= 23
    ensures addr == Scale(Shr(addr, exp + 9), exp + 9) + Scale(Mid9(addr, exp), exp) + Low(addr, exp)
    ensures 0 <= Scale(Mid9(addr, exp), exp) + Low(addr, exp) < Pow2(exp + 9)
  {
    hide Low, Pow2, Scale, Shr;
    var u := Shr(addr, exp);
    Split(addr, exp);
    ShrNine(addr, exp);
    ScaleAdd(u / 512 * 512, u % 512, exp);
    ScaleByNine(u / 512);
    ScaleTwice(u / 512, 9, exp);
    ScaleNat(u % 512, exp);
    ScaleOrder(u % 512 + 1, 512, exp);
    ScaleAdd(u % 512, 1, exp);
    ScaleOne(exp);
    ScaleOne(9);
    Pow2Literals();
    ScaleTwice(1, 9, exp);
    ScaleOne(exp + 9);
  }

  lemma MasksAre(exp: U5, a: U32)
    requires exp <= 23
    ensures And(a, Not(Mask1(exp), 32)) == Low(a, exp)
    ensures And(a, Mask2(exp)) == Scale(Shr(a, exp + 9), exp + 9)
  {
    hide Low, Pow2, Scale, Shr, And, Shl, Not;
    Pow2Literals();
    AndNotMask(a, exp, 32);
    ShlShl(Ones(32), exp, 9, 32);
    AndMask(a, exp + 9, 32);
    Split(a, exp + 9);
  }

  /** The address bits kept in the metadata word: the high part moved down onto the low part. */
  lemma RestValue(addr: U32, exp: U5)
    requires exp <= 23
    ensures AddrRest(exp, addr) == Scale(Shr(addr, exp + 9), exp) + Low(addr, exp)
  {
    hide Low, Pow2, Scale, Shr, And, Shl, Not, Or, Mask1, Mask2;
    var h, l := Shr(addr, exp + 9), Low(addr, exp);
    MasksAre(exp, addr);
    ScaleTwice(h, exp, 9);
    ScaleNat(h, exp);
    ScaleNat(h, exp + 9);
    ShrScale(Scale(h, exp), 9);
    Split(addr, exp);
    OrComm(l, Scale(h, exp));
    LowScaled(h, exp, exp);
    OrDisjoint(Scale(h, exp), l, exp);
    RestFits(addr, exp);
    LowSmall(Scale(h, exp) + l, 23);
    ShrNone(Scale(h, exp) + l);
  }

  lemma RestFits(addr: U32, exp: U5)
    requires exp <= 23
    ensures 0 <= Scale(Shr(addr, exp + 9), exp) + Low(addr, exp) < Pow2(23)
  {
    hide Low, Pow2, Scale, Shr;
    var h := Shr(addr, exp + 9);
    Split(addr, exp);
    Split(addr, exp + 9);
    ScaleNat(h, exp);
    Pow2Literals();
    ScaleOne(23 - exp);
    ScaleOne(32);
    ScaleTwice(1, 23 - exp, exp + 9);
    ScaleOrder(Pow2(23 - exp), h, exp + 9);
    ScaleOrder(h + 1, Pow2(23 - exp), exp);
    ScaleAdd(h, 1, exp);
    ScaleOne(exp);
    ScaleTwice(1, 23 - exp, exp);
    ScaleOne(23);
  }

  /** Moving the rest back up: its high part returns, its low part is masked off. */
  lemma HighPartBack(x: nat, exp: U5)
    requires exp <= 23 && x < Pow2(23)
    ensures And(Shl(x, 9, 32), Mask2(exp)) == Scale(Shr(x, exp), exp + 9)
    ensures And(x, Not(Mask1(exp), 32)) == Low(x, exp)
  {
    hide Low, Pow2, Scale, Shr, And, Not, Mask1, Mask2;
    var h, l := Shr(x, exp), Low(x, exp);
    Pow2Literals();
    Split(x, exp);
    MasksAre(exp, x);
    ScaleByNine(x);
    LowSmall(Scale(x, 9), 32);
    MasksAre(exp, 512 * x);
    ScaleNat(h, exp);
    ScaleAdd(Scale(h, exp), l, 9);
    ScaleTwice(h, exp, 9);
    ScaleByNine(l);
    ScaleNine(1, exp);
    ScaleOne(exp);
    ScaleOne(exp + 9);
    SplitUnique(512 * x, exp + 9, h, 512 * l);
  }

  /** Format 1 keeps all 32 address bits, for every exponent. */
  lemma AddrRoundTrip(addr: U32, exp: U5, msw: U33, lsw: U33)
    requires Field23(msw, 0) == AddrRest(exp, addr) && Field9(lsw, 0) == AddrMid(exp, addr)
    ensures Mem2RegAddr1(msw, lsw, exp) == addr
  {
    hide Low, Pow2, Scale, Shr, And, Not, Mask1, Mask2, Or, Shl, Slice, Field23, Field9;
    if exp >= 24 {
      AddrRoundTripReset(addr, exp, msw, lsw);
    } else {
      AddrRoundTripSmall(addr, exp, msw, lsw);
    }
  }

  lemma AddrRoundTripSmall(addr: U32, exp: U5, msw: U33, lsw: U33)
    requires exp <= 23
    requires Field23(msw, 0) == AddrRest(exp, addr) && Field9(lsw, 0) == AddrMid(exp, addr)
    ensures Mem2RegAddr1(msw, lsw, exp) == addr
  {
    hide Low, Pow2, Scale, Shr, And, Not, Mask1, Mask2, Or, Slice, Field23, Field9, AddrRest;
    var h, m, l := Shr(addr, exp + 9), Mid9(addr, exp), Low(addr, exp);
    MidIsSlice(addr, exp);
    RestValue(addr, exp);
    RestFits(addr, exp);
    ScaleNat(h, exp);
    Split(addr, exp);
    SplitUnique(AddrRest(exp, addr), exp, h, l);
    HighPartBack(AddrRest(exp, addr), exp);
    ThreeParts(addr, exp);
    Pow2Literals();
    ScaleNat(h, exp + 9);
    ScaleNat(m, exp);
    LowSmall(Scale(m, exp), 32);
    LowScaled(h, exp + 9, exp + 9);
    OrDisjoint(Scale(h, exp + 9), Scale(m, exp), exp + 9);
    LowScaled(h, exp, exp + 9);
    LowScaled(m, exp, exp);
    LowAdd(Scale(h, exp + 9), m, exp);
    OrDisjoint(Scale(h, exp + 9) + Scale(m, exp), l, exp);
  }

  lemma AddrRoundTripReset(addr: U32, exp: U5, msw: U33, lsw: U33)
    requires exp >= 24
    requires Field23(msw, 0) == AddrRest(exp, addr) && Field9(lsw, 0) == AddrMid(exp, addr)
    ensures Mem2RegAddr1(msw, lsw, exp) == addr
  {
    hide Low, Pow2, Scale, Shr, Or;
    var h, l := Shr(addr, 23), Low(addr, 23);
    Pow2Literals();
    Split(addr, 23);
    ShrNone(addr);
    ScaleOne(32);
    ScaleOne(9);
    ScaleTwice(1, 9, 23);
    ScaleOrder(512, h, 23);
    LowSmall(h, 9);
    ScaleNat(h, 23);
    LowSmall(Scale(h, 23), 32);
    LowScaled(h, 23, 23);
    OrDisjoint(Scale(h, 23), l, 23);
  }

  /** The nine bits beside the bounds serve as the comparison bits of the decoder. */
  lemma MidOfStored(addr: U32, exp: U5, lsw: U33)
    requires exp <= 24 && Field9(lsw, 0) == AddrMid(exp, addr)
    ensures exp < 24 ==> Field9(lsw, 0) == Mid9(addr, exp)
    ensures exp == 24 ==> Field8(lsw, 1) == Mid9(addr, exp)
  {
    hide Low, Pow2, Scale, Shr;
    if exp < 24 {
      MidIsSlice(addr, exp);
    } else {
      MidReset(addr, lsw);
    }
  }

  lemma MidReset(addr: U32, lsw: U33)
    requires Slice(lsw, 0, 9) == Slice(addr, 23, 9)
    ensures Slice(lsw, 1, 8) == Shr(addr, 24) % 512
  {
    hide Low, Pow2, Scale, Shr;
    ShrTwice(addr, 23, 1);
    Low98(lsw);
    Low98(Shr(addr, 23));
    ShrNone(lsw);
    ResetUnits(addr);
  }

  lemma ResetUnits(addr: U32)
    ensures Shr(addr, 24) < 256 && Low(Shr(addr, 24), 8) == Shr(addr, 24)
  {
    hide Low, Pow2, Scale, Shr;
    Split(addr, 24);
    ScaleTimes(Shr(addr, 24), 24);
    Pow2Literals();
    LowSmall(Shr(addr, 24), 8);
  }

  /** Dropping the lowest of nine bits leaves the eight above it. */
  lemma Low98(a: nat)
    ensures Low(Shr(a, 1), 8) == Low(a, 9) / 2
  {
  }

  /** Format 1, original encoding: metadata and address. */
  lemma RoundTrip1(c: RegCap, addr: U32, clr: ClrPerm)
    requires Storable(c, addr)
    ensures
      var w := Reg2Mem1(c, addr);
      && Mem2RegCap1(w.msw, w.lsw, clr) == Cleared(c, clr)
      && Mem2RegAddr1(w.msw, w.lsw, c.exp) == addr
      && TagOf(w.lsw) == c.valid && TagOf(w.msw) == c.valid
  {
    hide Slice, Pack, Pow2, CPermsBits, CPermsOf, MaskClcPerms, Mid9, AddrMid, AddrRest, Mem2RegAddr1;
    var w := Reg2Mem1(c, addr);
    Unpack1Msw(c, AddrRest(c.exp, addr));
    Unpack1Lsw(c, AddrMid(c.exp, addr), CompressExp(c.exp));
    ExpRoundTrip(c.exp);
    CPermsRoundTrip(c.cperms);
    FlagIsTag(w.msw);
    FlagIsTag(w.lsw);
    AddrRoundTrip(addr, c.exp, w.msw, w.lsw);
    MidOfStored(addr, c.exp, w.lsw);
  }

  // ---------------------------------------------------------------- IT8 bounds encoding

  /** Region size in units, from the two fields alone. */
  function FieldSpan(top: U9, base: U9): nat {
    (top - base) % 512
  }

  /** Capabilities the IT8 encoding can hold: a non-zero exponent needs at least 256 units. */
  predicate StorableIt8(c: RegCap, addr: U32) {
    c.exp <= RESETEXP && CorsAt(c, addr) && (c.exp > 0 ==> FieldSpan(c.top, c.base) >= 256)
  }

  /**
    The reconstructed ninth bit of the top is right exactly for the capabilities the encoding is
    meant for: those whose exponent is zero or whose region has at least 256 units.
   */
  lemma It8BoundsRoundTrip(c: RegCap, mid: U9)
    requires c.exp <= RESETEXP && Cors(c.topCor, c.baseCor) == UpdateTempFields(c.top, c.base, mid)
    ensures DecodeIt8(CompressExpIt8(c), c.top % 256, c.base) == It8Bounds(c.exp, c.top, c.base)
       <==> (c.exp > 0 ==> FieldSpan(c.top, c.base) >= 256)
  {
    hide UpdateTempFields, FieldSpan;
    LengthBits(c, mid);
    TopRestored(c, CompressExpIt8(c));
  }

  /** The decoder's reconstruction against the span of the fields. */
  lemma TopRestored(c: RegCap, cexp: U5)
    ensures DecodeIt8(cexp, c.top % 256, c.base).top == c.top <==> (cexp > 0 <==> FieldSpan(c.top, c.base) >= 256)
  {
  }

  /** The ten-bit length of the encoder is the span of the fields. */
  lemma LengthBits(c: RegCap, mid: U9)
    requires Cors(c.topCor, c.baseCor) == UpdateTempFields(c.top, c.base, mid)
    ensures
      var same := c.topCor == (if c.baseCor then 3 else 0);
      (c.top + (if same then 0 else 512) - c.base) % 1024 == FieldSpan(c.top, c.base)
  {
  }

  lemma It8CorsAgree(b: It8Bounds, mid: U9)
    ensures It8Cors(b, mid) == UpdateTempFields(b.top, b.base, mid)
  {
  }

  /** Format 0, IT8 encoding. */
  lemma RoundTrip0It8(c: RegCap, addr: U32, clr: ClrPerm)
    requires StorableIt8(c, addr)
    ensures Mem2RegCap0It8(Reg2MemCap0It8(c), TagWord(c.valid, addr), clr) == Cleared(c, clr)
  {
    hide Slice, Pack, Pow2, CPermsBits, CPermsOf, MaskClcPerms, Mid9, DecodeIt8, CompressExpIt8, It8Cors;
    Unpack0It8(c, CompressExpIt8(c));
    It8BoundsRoundTrip(c, Mid9(addr, c.exp));
    It8CorsAgree(It8Bounds(c.exp, c.top, c.base), Mid9(addr, c.exp));
    CPermsRoundTrip(c.cperms);
    FlagIsTag(Reg2MemCap0It8(c));
  }

  /** Format 1, IT8 encoding: metadata and address. */
  lemma RoundTrip1It8(c: RegCap, addr: U32, clr: ClrPerm)
    requires StorableIt8(c, addr)
    ensures
      var w := Reg2Mem1It8(c, addr);
      && Mem2RegCap1It8(w.msw, w.lsw, clr) == Cleared(c, clr)
      && Mem2RegAddr1(w.msw, w.lsw, c.exp) == addr
  {
    hide Slice, Pack, Pow2, CPermsBits, CPermsOf, MaskClcPerms, Mid9, AddrMid, AddrRest, Mem2RegAddr1;
    hide DecodeIt8, CompressExpIt8, It8Cors;
    var w := Reg2Mem1It8(c, addr);
    Unpack1Msw(c, AddrRest(c.exp, addr));
    Unpack1It8Lsw(c, AddrMid(c.exp, addr), CompressExpIt8(c));
    It8BoundsRoundTrip(c, Mid9(addr, c.exp));
    It8CorsAgree(It8Bounds(c.exp, c.top, c.base), Mid9(addr, c.exp));
    CPermsRoundTrip(c.cperms);
    FlagIsTag(w.msw);
    FlagIsTag(w.lsw);
    AddrRoundTrip(addr, c.exp, w.msw, w.lsw);
    MidOfStored(addr, c.exp, w.lsw);
  }
}
