/**
  The decoders lose nothing either: whatever two words memory holds, decoding them and encoding the
  result gives all 64 data bits back, in both word layouts and with both bounds encodings.
 */
module CodecInverse {
  import opened Bits
  import opened BitFields
  import opened CapTypes
  import opened Bounds
  import opened Codecs
  import opened CodecProofs

  // ---------------------------------------------------------------- words are their fields

  lemma {:induction false} LowSplit(a: nat, j: nat, k: nat)
    ensures Low(a, j + k) == Scale(Low(Shr(a, j), k), j) + Low(a, j)
    decreases j
  {
    if j > 0 {
      LowSplit(a / 2, j - 1, k);
    }
  }

  /** Fields that are consecutive slices of x pack to the slice they make up. */
  lemma {:induction false} PackSlices(x: nat, fs: seq<Field>, off: nat)
    requires forall i | 0 <= i < |fs| :: fs[i].value == Slice(x, off + Offset(fs, i), fs[i].width)
    ensures Pack(fs) == Slice(x, off, Offset(fs, |fs|))
    decreases |fs|
  {
    hide Low, Shr, Scale, Pow2;
    if |fs| == 0 {
      LowNone(Shr(x, off));
    } else {
      var rest, w := fs[1..], fs[0].width;
      forall i | 0 <= i < |rest|
        ensures rest[i].value == Slice(x, off + w + Offset(rest, i), rest[i].width)
      {
        assert rest[i] == fs[i + 1];
      }
      PackSlices(x, rest, off + w);
      LowSplit(Shr(x, off), w, Offset(rest, |rest|));
      ShrTwice(x, off, w);
      assert Offset(fs, 0) == 0;
    }
  }

  lemma LowNone(a: nat)
    ensures Low(a, 0) == 0
  {
  }

  /** A word is determined by its slices along a layout. */
  lemma WordOfSlices(x: nat, fs: seq<Field>, at: seq<nat>)
    requires Layout(fs, at) && x < Pow2(at[|fs|])
    requires forall i | 0 <= i < |fs| :: fs[i].value == Slice(x, at[i], fs[i].width)
    ensures Pack(fs) == x
  {
    hide Low, Shr, Scale, Pow2, Slice, Offset, Pack;
    forall i | 0 <= i < |fs|
      ensures fs[i].value == Slice(x, 0 + Offset(fs, i), fs[i].width)
    {
      LayoutIsOffset(fs, at, i);
    }
    PackSlices(x, fs, 0);
    LayoutIsOffset(fs, at, |fs|);
    WholeSlice(x, at[|fs|]);
  }

  lemma WholeSlice(x: nat, n: nat)
    requires x < Pow2(n)
    ensures Slice(x, 0, n) == x
  {
    hide Low, Shr, Scale, Pow2;
    ShrNone(x);
    LowSmall(x, n);
  }

  /** Slices of the data bits do not see the tag. */
  lemma SliceOfData(w: U33, t: bool, lo: nat, width: nat)
    requires lo + width <= 32
    ensures Slice(TagWord(t, DataOf(w)), lo, width) == Slice(w, lo, width)
  {
    hide Low, Shr, Scale, Pow2, Slice, TagWord;
    LowData(w);
    LowData(TagWord(t, DataOf(w)));
    TagWordParts(t, DataOf(w));
    SliceOfLow(w, lo, width);
    SliceOfLow(TagWord(t, DataOf(w)), lo, width);
  }

  lemma LowData(w: U33)
    ensures Low(w, 32) == DataOf(w)
  {
    hide Low, Shr, Scale, Pow2;
    Pow2Literals();
    ScaleOne(32);
    ScaleZero(32);
    SplitUnique(w, 32, if TagOf(w) then 1 else 0, DataOf(w));
  }

  lemma SliceOfLow(a: nat, lo: nat, width: nat)
    requires lo + width <= 32
    ensures Slice(a, lo, width) == Slice(Low(a, 32), lo, width)
  {
    hide Low, Shr, Scale, Pow2;
    SliceWithin(a, lo, width);
    SliceWithin(Low(a, 32), lo, width);
    LowLow(a, lo + width, 32);
  }

  lemma SliceWithin(a: nat, lo: nat, width: nat)
    ensures Slice(a, lo, width) == Shr(Low(a, lo + width), lo)
  {
    hide Low, Shr, Scale, Pow2;
    LowSplit(a, lo, width);
    Split(a, lo);
    SplitUnique(Low(a, lo + width), lo, Slice(a, lo, width), Low(a, lo));
  }

  lemma TagSlice(t: bool, d: U32)
    ensures Slice(TagWord(t, d), 32, 1) == B(t)
  {
    hide Slice, Pow2;
    FlagIsTag(TagWord(t, d));
    SliceBound(TagWord(t, d), 32, 1);
    Pow2Literals();
  }

  lemma FlagBit(w: U33, lo: nat)
    ensures B(Flag(w, lo)) == Slice(w, lo, 1)
  {
    hide Slice, Pow2;
    SliceBound(w, lo, 1);
    Pow2Literals();
  }

  lemma CPermsBitsBack(n: U6)
    ensures CPermsBits(CPermsOf(n)) == n
  {
    hide Odd, Halve, Join;
    var n1 := Halve(n);
    var n2 := Halve(n1);
    var n3 := Halve(n2);
    var n4 := Halve(n3);
    SplitJoins(n);
    SplitJoins(n1);
    SplitJoins(n2);
    SplitJoins(n3);
    SplitJoins(n4);
    SplitJoins(Halve(n4));
    HalfBound(n, 32);
    HalfBound(n1, 16);
    HalfBound(n2, 8);
    HalfBound(n3, 4);
    HalfBound(n4, 2);
    HalfBound(Halve(n4), 1);
  }

  lemma CompressExpBack(cexp: U4)
    ensures CompressExp(ExpandExp(cexp)) == cexp
  {
  }

  /** The load cleared no permission. */
  predicate PermsKept(valid: bool, clr: ClrPerm) {
    !valid || (!clr.sdlm && !clr.glg)
  }

  lemma PermsKeptMask(c: CPerms, clr: ClrPerm, valid: bool, isSealed: bool)
    requires PermsKept(valid, clr)
    ensures MaskClcPerms(c, clr, valid, isSealed) == c
  {
  }

  // ---------------------------------------------------------------- format 0

  lemma Reencode0(msw: U33, lsw: U33, clr: ClrPerm)
    requires PermsKept(Mem2RegCap0(msw, lsw, clr).valid, clr)
    ensures
      var c := Mem2RegCap0(msw, lsw, clr);
      Reg2MemCap0(c) == TagWord(c.valid, DataOf(msw))
  {
    hide Slice, Pack, Pow2, CPermsBits, CPermsOf, MaskClcPerms, Mid9, UpdateTempFields, TagWord, DataOf, ExpandExp;
    hide CompressExp;
    var c := Mem2RegCap0(msw, lsw, clr);
    PermsKeptMask(CPermsOf(Field6(msw, 25)), clr, c.valid, c.otype != OTYPE_UNSEALED);
    CPermsBitsBack(Field6(msw, 25));
    CompressExpBack(Field4(msw, 18));
    Word0(c, CompressExp(c.exp), msw);
  }

  lemma Word0(c: RegCap, cexp: U4, w: U33)
    requires Field9(w, 0) == c.base && Field9(w, 9) == c.top && Field4(w, 18) == cexp && Field3(w, 22) == c.otype
    requires Field6(w, 25) == CPermsBits(c.cperms) && Flag(w, 31) == c.rsvd
    ensures Pack(Fields0(c, cexp)) == TagWord(c.valid, DataOf(w))
  {
    hide Slice, Pack, Pow2, CPermsBits, DataOf;
    var fs, x := Fields0(c, cexp), TagWord(c.valid, DataOf(w));
    Pow2Literals();
    SliceOfData(w, c.valid, 0, 9);
    SliceOfData(w, c.valid, 9, 9);
    SliceOfData(w, c.valid, 18, 4);
    SliceOfData(w, c.valid, 22, 3);
    SliceOfData(w, c.valid, 25, 6);
    SliceOfData(w, c.valid, 31, 1);
    FlagBit(w, 31);
    TagSlice(c.valid, DataOf(w));
    WordOfSlices(x, fs, AT0);
  }

  // ---------------------------------------------------------------- format 1: the gathered address

  lemma AddrSum(x: nat, a9: U9, exp: U5)
    requires exp <= 23 && x < Pow2(23)
    ensures
      var hi, mid := Scale(Shr(x, exp), exp + 9), Scale(a9, exp);
      && 0 <= hi && 0 <= mid && Shl(a9, exp, 32) == mid
      && Or(Or(hi, mid), Low(x, exp)) == hi + mid + Low(x, exp)
      && hi + mid + Low(x, exp) < Pow2(32)
  {
    hide Low, Pow2, Scale, Shr, Or;
    var h, l := Shr(x, exp), Low(x, exp);
    Split(x, exp);
    ScaleNat(h, exp + 9);
    ScaleNat(a9, exp);
    MidFits(a9, exp);
    LowSmall(Scale(a9, exp), 32);
    LowScaled(h, exp + 9, exp + 9);
    OrDisjoint(Scale(h, exp + 9), Scale(a9, exp), exp + 9);
    LowScaled(h, exp, exp + 9);
    LowScaled(a9, exp, exp);
    LowAdd(Scale(h, exp + 9), a9, exp);
    OrDisjoint(Scale(h, exp + 9) + Scale(a9, exp), l, exp);
    SumFits(x, a9, exp);
  }

  lemma MidFits(a9: U9, exp: U5)
    requires exp <= 23
    ensures Scale(a9, exp) + Pow2(exp) <= Pow2(exp + 9) <= Pow2(32)
  {
    hide Pow2, Scale;
    ScaleOrder(a9 + 1, 512, exp);
    ScaleAdd(a9, 1, exp);
    ScaleOne(exp);
    ScaleOne(9);
    ScaleOne(exp + 9);
    ScaleTwice(1, 9, exp);
    Pow2Literals();
    Pow2Mono(exp + 9, 32);
  }

  lemma SumFits(x: nat, a9: U9, exp: U5)
    requires exp <= 23 && x < Pow2(23)
    ensures Scale(Shr(x, exp), exp + 9) + Scale(a9, exp) + Low(x, exp) < Pow2(32)
  {
    hide Pow2, Scale, Low, Shr;
    var h := Shr(x, exp);
    MidFits(a9, exp);
    Split(x, exp);
    ScaleOne(23 - exp);
    ScaleOne(23);
    ScaleTwice(1, 23 - exp, exp);
    ScaleOrder(Pow2(23 - exp), h, exp);
    ScaleOrder(h + 1, Pow2(23 - exp), exp + 9);
    ScaleAdd(h, 1, exp + 9);
    ScaleOne(exp + 9);
    ScaleTwice(1, 23 - exp, exp + 9);
    ScaleOne(32);
  }

  /** The address a format 1 pair gives, in three parts. */
  lemma AddrParts(msw: U33, lsw: U33, exp: U5)
    requires exp <= 23
    ensures
      var a, x := Mem2RegAddr1(msw, lsw, exp), Field23(msw, 0);
      Shr(a, exp + 9) == Shr(x, exp) && Mid9(a, exp) == Field9(lsw, 0) && Low(a, exp) == Low(x, exp)
  {
    hide Low, Pow2, Scale, Shr, And, Not, Mask1, Mask2, Or, Shl, Slice, Field23, Field9;
    var a, x, a9 := Mem2RegAddr1(msw, lsw, exp), Field23(msw, 0), Field9(lsw, 0);
    var h, l := Shr(x, exp), Low(x, exp);
    Pow2Literals();
    HighPartBack(x, exp);
    AddrSum(x, a9, exp);
    assert a == Scale(h, exp + 9) + Scale(a9, exp) + l;
    ScaleTwice(h, 9, exp);
    ScaleByNine(h);
    ScaleAdd(512 * h, a9, exp);
    Split(x, exp);
    SplitUnique(a, exp, 512 * h + a9, l);
    ShrNine(a, exp);
  }

  /** At the reset exponent the two parts are simply concatenated. */
  lemma AddrPartsReset(msw: U33, lsw: U33, exp: U5)
    requires exp >= 24
    ensures
      var a := Mem2RegAddr1(msw, lsw, exp);
      Shr(a, 23) == Field9(lsw, 0) && Low(a, 23) == Field23(msw, 0)
  {
    hide Low, Pow2, Scale, Shr, Or, Slice, Field23, Field9;
    var a, x, a9 := Mem2RegAddr1(msw, lsw, exp), Field23(msw, 0), Field9(lsw, 0);
    Pow2Literals();
    MidFits(a9, 23);
    ScaleNat(a9, 23);
    LowSmall(Scale(a9, 23), 32);
    LowScaled(a9, 23, 23);
    OrDisjoint(Scale(a9, 23), x, 23);
    SplitUnique(a, 23, a9, x);
  }

  /** Scattering the gathered address gives both parts back. */
  lemma AddrStored(msw: U33, lsw: U33, exp: U5)
    ensures
      var a := Mem2RegAddr1(msw, lsw, exp);
      AddrRest(exp, a) == Field23(msw, 0) && AddrMid(exp, a) == Field9(lsw, 0)
  {
    hide Low, Pow2, Scale, Shr, And, Not, Mask1, Mask2, Or, Shl, Mem2RegAddr1;
    var a, x := Mem2RegAddr1(msw, lsw, exp), Field23(msw, 0);
    if exp <= 23 {
      AddrParts(msw, lsw, exp);
      RestValue(a, exp);
      Split(x, exp);
      MidIsSlice(a, exp);
    } else {
      AddrPartsReset(msw, lsw, exp);
      ShrNone(a);
      Pow2Literals();
      LowSmall(Field9(lsw, 0), 9);
    }
  }

  lemma Reencode1(msw: U33, lsw: U33, clr: ClrPerm)
    requires PermsKept(Mem2RegCap1(msw, lsw, clr).valid, clr)
    ensures
      var c := Mem2RegCap1(msw, lsw, clr);
      Reg2Mem1(c, Mem2RegAddr1(msw, lsw, c.exp))
      == Words(TagWord(c.valid, DataOf(msw)), TagWord(c.valid, DataOf(lsw)))
  {
    hide Slice, Pack, Pow2, CPermsBits, CPermsOf, MaskClcPerms, UpdateTempFields, TagWord, DataOf, ExpandExp;
    hide CompressExp;
    hide Mem2RegAddr1, AddrRest, AddrMid;
    var c := Mem2RegCap1(msw, lsw, clr);
    var a := Mem2RegAddr1(msw, lsw, c.exp);
    PermsKeptMask(CPermsOf(Field6(msw, 26)), clr, c.valid, c.otype != OTYPE_UNSEALED);
    CPermsBitsBack(Field6(msw, 26));
    CompressExpBack(Field4(lsw, 27));
    AddrStored(msw, lsw, c.exp);
    WordMsw1(c, AddrRest(c.exp, a), msw);
    WordLsw1(c, AddrMid(c.exp, a), CompressExp(c.exp), lsw);
  }

  lemma WordMsw1(c: RegCap, a23: U23, w: U33)
    requires Field23(w, 0) == a23 && Field3(w, 23) == c.otype && Field6(w, 26) == CPermsBits(c.cperms)
    ensures Pack(Fields1Msw(c, a23)) == TagWord(c.valid, DataOf(w))
  {
    hide Slice, Pack, Pow2, CPermsBits, DataOf;
    Pow2Literals();
    SliceOfData(w, c.valid, 0, 23);
    SliceOfData(w, c.valid, 23, 3);
    SliceOfData(w, c.valid, 26, 6);
    TagSlice(c.valid, DataOf(w));
    WordOfSlices(TagWord(c.valid, DataOf(w)), Fields1Msw(c, a23), AT1MSW);
  }

  lemma WordLsw1(c: RegCap, a9: U9, cexp: U4, w: U33)
    requires Field9(w, 0) == a9 && Field9(w, 9) == c.top && Field9(w, 18) == c.base && Field4(w, 27) == cexp
    requires Flag(w, 31) == c.rsvd
    ensures Pack(Fields1Lsw(c, a9, cexp)) == TagWord(c.valid, DataOf(w))
  {
    hide Slice, Pack, Pow2, DataOf;
    Pow2Literals();
    SliceOfData(w, c.valid, 0, 9);
    SliceOfData(w, c.valid, 9, 9);
    SliceOfData(w, c.valid, 18, 9);
    SliceOfData(w, c.valid, 27, 4);
    SliceOfData(w, c.valid, 31, 1);
    FlagBit(w, 31);
    TagSlice(c.valid, DataOf(w));
    WordOfSlices(TagWord(c.valid, DataOf(w)), Fields1Lsw(c, a9, cexp), AT1LSW);
  }

  // ---------------------------------------------------------------- IT8 bounds encoding

  /** Encoding what was decoded gives the exponent and the eight top bits back. */
  lemma It8BoundsBack(c: RegCap, mid: U9, cexp: U5, top8: U8, base9: U9)
    requires It8Bounds(c.exp, c.top, c.base) == DecodeIt8(cexp, top8, base9)
    requires Cors(c.topCor, c.baseCor) == UpdateTempFields(c.top, c.base, mid)
    ensures CompressExpIt8(c) == cexp && c.top % 256 == top8 && c.base == base9
  {
    LengthBits(c, mid);
    DecodedSpan(cexp, top8, base9);
  }

  /** The decoder makes a region of 256 units or more exactly for a non-zero exponent field. */
  lemma DecodedSpan(cexp: U5, top8: U8, base9: U9)
    ensures
      var b := DecodeIt8(cexp, top8, base9);
      b.top % 256 == top8 && b.base == base9 && (FieldSpan(b.top, b.base) >= 256 <==> cexp > 0)
  {
  }

  lemma Reencode0It8(msw: U33, lsw: U33, clr: ClrPerm)
    requires PermsKept(Mem2RegCap0It8(msw, lsw, clr).valid, clr)
    ensures
      var c := Mem2RegCap0It8(msw, lsw, clr);
      Reg2MemCap0It8(c) == TagWord(c.valid, DataOf(msw))
  {
    hide Slice, Pack, Pow2, CPermsBits, CPermsOf, MaskClcPerms, Mid9, UpdateTempFields, TagWord, DataOf;
    hide DecodeIt8, CompressExpIt8, It8Cors;
    var c := Mem2RegCap0It8(msw, lsw, clr);
    PermsKeptMask(CPermsOf(Field6(msw, 25)), clr, c.valid, c.otype != OTYPE_UNSEALED);
    CPermsBitsBack(Field6(msw, 25));
    It8CorsAgree(It8Bounds(c.exp, c.top, c.base), Mid9(DataOf(lsw), c.exp));
    It8BoundsBack(c, Mid9(DataOf(lsw), c.exp), Field5(msw, 17), Field8(msw, 9), Field9(msw, 0));
    Word0It8(c, CompressExpIt8(c), msw);
  }

  lemma Word0It8(c: RegCap, cexp: U5, w: U33)
    requires Field9(w, 0) == c.base && Field8(w, 9) == c.top % 256 && Field5(w, 17) == cexp && Field3(w, 22) == c.otype
    requires Field6(w, 25) == CPermsBits(c.cperms) && Flag(w, 31) == c.rsvd
    ensures Pack(Fields0It8(c, cexp)) == TagWord(c.valid, DataOf(w))
  {
    hide Slice, Pack, Pow2, CPermsBits, DataOf;
    Pow2Literals();
    SliceOfData(w, c.valid, 0, 9);
    SliceOfData(w, c.valid, 9, 8);
    SliceOfData(w, c.valid, 17, 5);
    SliceOfData(w, c.valid, 22, 3);
    SliceOfData(w, c.valid, 25, 6);
    SliceOfData(w, c.valid, 31, 1);
    FlagBit(w, 31);
    TagSlice(c.valid, DataOf(w));
    WordOfSlices(TagWord(c.valid, DataOf(w)), Fields0It8(c, cexp), AT0IT8);
  }

  lemma Reencode1It8(msw: U33, lsw: U33, clr: ClrPerm)
    requires PermsKept(Mem2RegCap1It8(msw, lsw, clr).valid, clr)
    ensures
      var c := Mem2RegCap1It8(msw, lsw, clr);
      Reg2Mem1It8(c, Mem2RegAddr1(msw, lsw, c.exp))
      == Words(TagWord(c.valid, DataOf(msw)), TagWord(c.valid, DataOf(lsw)))
  {
    hide Slice, Pack, Pow2, CPermsBits, CPermsOf, MaskClcPerms, UpdateTempFields, TagWord, DataOf;
    hide DecodeIt8, CompressExpIt8, It8Cors, Mem2RegAddr1, AddrRest, AddrMid;
    var c := Mem2RegCap1It8(msw, lsw, clr);
    var a := Mem2RegAddr1(msw, lsw, c.exp);
    var mid: U9 := if c.exp >= 24 then Field8(lsw, 1) else Field9(lsw, 0);
    PermsKeptMask(CPermsOf(Field6(msw, 26)), clr, c.valid, c.otype != OTYPE_UNSEALED);
    CPermsBitsBack(Field6(msw, 26));
    It8CorsAgree(It8Bounds(c.exp, c.top, c.base), mid);
    It8BoundsBack(c, mid, Field5(lsw, 26), Field8(lsw, 18), Field9(lsw, 9));
    AddrStored(msw, lsw, c.exp);
    WordMsw1(c, AddrRest(c.exp, a), msw);
    WordLsw1It8(c, AddrMid(c.exp, a), CompressExpIt8(c), lsw);
  }

  lemma WordLsw1It8(c: RegCap, a9: U9, cexp: U5, w: U33)
    requires Field9(w, 0) == a9 && Field9(w, 9) == c.base && Field8(w, 18) == c.top % 256 && Field5(w, 26) == cexp
    requires Flag(w, 31) == c.rsvd
    ensures Pack(Fields1It8Lsw(c, a9, cexp)) == TagWord(c.valid, DataOf(w))
  {
    hide Slice, Pack, Pow2, DataOf;
    Pow2Literals();
    SliceOfData(w, c.valid, 0, 9);
    SliceOfData(w, c.valid, 9, 9);
    SliceOfData(w, c.valid, 18, 8);
    SliceOfData(w, c.valid, 26, 5);
    SliceOfData(w, c.valid, 31, 1);
    FlagBit(w, 31);
    TagSlice(c.valid, DataOf(w));
    WordOfSlices(TagWord(c.valid, DataOf(w)), Fields1It8Lsw(c, a9, cexp), AT1IT8LSW);
  }

  // ---------------------------------------------------------------- what a load always gives

  /** Whatever is decoded has a legal exponent and the corrections of its own address. */
  lemma LoadedStorable0(msw: U33, lsw: U33, clr: ClrPerm)
    ensures Storable(Mem2RegCap0(msw, lsw, clr), DataOf(lsw))
  {
    hide Slice, Pow2, MaskClcPerms, CPermsOf, UpdateTempFields, Mid9;
  }

  lemma LoadedStorable1(msw: U33, lsw: U33, clr: ClrPerm)
    ensures
      var c := Mem2RegCap1(msw, lsw, clr);
      Storable(c, Mem2RegAddr1(msw, lsw, c.exp))
  {
    hide Slice, Pow2, MaskClcPerms, CPermsOf, UpdateTempFields, Mem2RegAddr1, AddrRest;
    var c := Mem2RegCap1(msw, lsw, clr);
    AddrStored(msw, lsw, c.exp);
    MidOfStored(Mem2RegAddr1(msw, lsw, c.exp), c.exp, lsw);
  }
}
