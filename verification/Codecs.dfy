/**
  The four memory formats of a capability (two word layouts, each with the original and with the
  five-bit-exponent "IT8" bounds encoding) and their decoders, as word-level circuits.
 */
module Codecs {
  import opened Bits
  import opened BitFields
  import opened CapTypes
  import opened Bounds

  type U1 = x: int | 0 <= x < 2
  type U4 = x: int | 0 <= x < 16
  type U6 = x: int | 0 <= x < 64
  type U8 = x: int | 0 <= x < 256
  type U23 = x: int | 0 <= x < 0x80_0000

  function B(b: bool): U1 {
    if b then 1 else 0
  }

  predicate Odd(n: nat) { n % 2 == 1 }
  function Halve(n: nat): nat { n / 2 }

  /** A number as its lowest bit and the others. */
  function Join(b: bool, n: nat): nat {
    B(b) + 2 * n
  }

  lemma JoinSplits(b: bool, n: nat)
    ensures Odd(Join(b, n)) == b && Halve(Join(b, n)) == n
  {
  }

  lemma SplitJoins(n: nat)
    ensures Join(Odd(n), Halve(n)) == n
  {
  }

  lemma HalfBound(n: nat, k: nat)
    requires n < 2 * k
    ensures Halve(n) < k
  {
  }

  function CPermsBits(c: CPerms): U6 {
    var n4 := Join(c.b4, Join(c.b5, 0));
    var n2 := Join(c.b2, Join(c.b3, n4));
    Join(c.b0, Join(c.b1, n2))
  }

  function CPermsOf(n: nat): CPerms {
    var n1 := Halve(n);
    var n2 := Halve(n1);
    var n3 := Halve(n2);
    var n4 := Halve(n3);
    CPerms(Odd(Halve(n4)), Odd(n4), Odd(n3), Odd(n2), Odd(n1), Odd(n))
  }

  /** A memory word: 32 data bits and the tag. */
  function TagWord(tag: bool, data: U32): U33 {
    data + if tag then 0x1_0000_0000 else 0
  }

  predicate TagOf(w: U33) {
    w >= 0x1_0000_0000
  }

  function DataOf(w: U33): U32 {
    w % 0x1_0000_0000
  }

  lemma TagWordParts(t: bool, d: U32)
    ensures TagOf(TagWord(t, d)) == t && DataOf(TagWord(t, d)) == d
  {
  }

  /** A slice as a value of its width. */
  function Field9(w: U33, lo: nat): U9 { SliceBound(w, lo, 9); Pow2Literals(); Slice(w, lo, 9) }
  function Field8(w: U33, lo: nat): U8 { SliceBound(w, lo, 8); Pow2Literals(); Slice(w, lo, 8) }
  function Field5(w: U33, lo: nat): U5 { SliceBound(w, lo, 5); Pow2Literals(); Slice(w, lo, 5) }
  function Field4(w: U33, lo: nat): U4 { SliceBound(w, lo, 4); Pow2Literals(); Slice(w, lo, 4) }
  function Field3(w: U33, lo: nat): U3 { SliceBound(w, lo, 3); Pow2Literals(); Slice(w, lo, 3) }
  function Field6(w: U33, lo: nat): U6 { SliceBound(w, lo, 6); Pow2Literals(); Slice(w, lo, 6) }
  function Field23(w: nat, lo: nat): U23 { SliceBound(w, lo, 23); Pow2Literals(); Slice(w, lo, 23) }
  predicate Flag(w: U33, lo: nat) { Slice(w, lo, 1) == 1 }

  // ---------------------------------------------------------------- layouts

  /** Format 0 metadata word. */
  function Fields0(c: RegCap, cexp: U4): seq<Field> {
    [F(9, c.base), F(9, c.top), F(4, cexp), F(3, c.otype), F(6, CPermsBits(c.cperms)),
     F(1, B(c.rsvd)), F(1, B(c.valid))]
  }

  const AT0: seq<nat> := [0, 9, 18, 22, 25, 31, 32, 33]

  /** Format 0 metadata word, five-bit exponent, eight-bit top. */
  function Fields0It8(c: RegCap, cexp: U5): seq<Field> {
    [F(9, c.base), F(8, c.top % 256), F(5, cexp), F(3, c.otype), F(6, CPermsBits(c.cperms)),
     F(1, B(c.rsvd)), F(1, B(c.valid))]
  }

  const AT0IT8: seq<nat> := [0, 9, 17, 22, 25, 31, 32, 33]

  /** Format 1: the bounds share the lower word with nine address bits. */
  function Fields1Lsw(c: RegCap, a9: U9, cexp: U4): seq<Field> {
    [F(9, a9), F(9, c.top), F(9, c.base), F(4, cexp), F(1, B(c.rsvd)), F(1, B(c.valid))]
  }

  const AT1LSW: seq<nat> := [0, 9, 18, 27, 31, 32, 33]

  function Fields1It8Lsw(c: RegCap, a9: U9, cexp: U5): seq<Field> {
    [F(9, a9), F(9, c.base), F(8, c.top % 256), F(5, cexp), F(1, B(c.rsvd)), F(1, B(c.valid))]
  }

  const AT1IT8LSW: seq<nat> := [0, 9, 18, 26, 31, 32, 33]

  function Fields1Msw(c: RegCap, a23: U23): seq<Field> {
    [F(23, a23), F(3, c.otype), F(6, CPermsBits(c.cperms)), F(1, B(c.valid))]
  }

  const AT1MSW: seq<nat> := [0, 23, 26, 32, 33]

  /** Every field of a format 0 word reads back. */
  lemma Unpack0(c: RegCap, cexp: U4)
    ensures
      var w := Pack(Fields0(c, cexp));
      && w < 0x2_0000_0000
      && Slice(w, 0, 9) == c.base && Slice(w, 9, 9) == c.top && Slice(w, 18, 4) == cexp
      && Slice(w, 22, 3) == c.otype && Slice(w, 25, 6) == CPermsBits(c.cperms)
      && Slice(w, 31, 1) == B(c.rsvd) && Slice(w, 32, 1) == B(c.valid)
  {
    hide Pow2, Slice, Pack, CPermsBits;
    Pow2Literals();
    var fs := Fields0(c, cexp);
    SlicesOf(fs, AT0);
    var r := seq(7, i requires 0 <= i < 7 => Slice(Pack(fs), AT0[i], fs[i].width) == fs[i].value);
    assert r[0] && r[1] && r[2] && r[3] && r[4] && r[5] && r[6];
  }

  lemma Unpack0It8(c: RegCap, cexp: U5)
    ensures
      var w := Pack(Fields0It8(c, cexp));
      && w < 0x2_0000_0000
      && Slice(w, 0, 9) == c.base && Slice(w, 9, 8) == c.top % 256 && Slice(w, 17, 5) == cexp
      && Slice(w, 22, 3) == c.otype && Slice(w, 25, 6) == CPermsBits(c.cperms)
      && Slice(w, 31, 1) == B(c.rsvd) && Slice(w, 32, 1) == B(c.valid)
  {
    hide Pow2, Slice, Pack, CPermsBits;
    Pow2Literals();
    var fs := Fields0It8(c, cexp);
    SlicesOf(fs, AT0IT8);
    var r := seq(7, i requires 0 <= i < 7 => Slice(Pack(fs), AT0IT8[i], fs[i].width) == fs[i].value);
    assert r[0] && r[1] && r[2] && r[3] && r[4] && r[5] && r[6];
  }

  lemma Unpack1Lsw(c: RegCap, a9: U9, cexp: U4)
    ensures
      var w := Pack(Fields1Lsw(c, a9, cexp));
      && w < 0x2_0000_0000
      && Slice(w, 0, 9) == a9 && Slice(w, 9, 9) == c.top && Slice(w, 18, 9) == c.base
      && Slice(w, 27, 4) == cexp && Slice(w, 31, 1) == B(c.rsvd) && Slice(w, 32, 1) == B(c.valid)
  {
    hide Pow2, Slice, Pack;
    Pow2Literals();
    var fs := Fields1Lsw(c, a9, cexp);
    SlicesOf(fs, AT1LSW);
    var r := seq(6, i requires 0 <= i < 6 => Slice(Pack(fs), AT1LSW[i], fs[i].width) == fs[i].value);
    assert r[0] && r[1] && r[2] && r[3] && r[4] && r[5];
  }

  lemma Unpack1It8Lsw(c: RegCap, a9: U9, cexp: U5)
    ensures
      var w := Pack(Fields1It8Lsw(c, a9, cexp));
      && w < 0x2_0000_0000
      && Slice(w, 0, 9) == a9 && Slice(w, 9, 9) == c.base && Slice(w, 18, 8) == c.top % 256
      && Slice(w, 26, 5) == cexp && Slice(w, 31, 1) == B(c.rsvd) && Slice(w, 32, 1) == B(c.valid)
  {
    hide Pow2, Slice, Pack;
    Pow2Literals();
    var fs := Fields1It8Lsw(c, a9, cexp);
    SlicesOf(fs, AT1IT8LSW);
    var r := seq(6, i requires 0 <= i < 6 => Slice(Pack(fs), AT1IT8LSW[i], fs[i].width) == fs[i].value);
    assert r[0] && r[1] && r[2] && r[3] && r[4] && r[5];
  }

  lemma Unpack1Msw(c: RegCap, a23: U23)
    ensures
      var w := Pack(Fields1Msw(c, a23));
      && w < 0x2_0000_0000
      && Slice(w, 0, 23) == a23 && Slice(w, 23, 3) == c.otype
      && Slice(w, 26, 6) == CPermsBits(c.cperms) && Slice(w, 32, 1) == B(c.valid)
  {
    hide Pow2, Slice, Pack, CPermsBits;
    Pow2Literals();
    var fs := Fields1Msw(c, a23);
    SlicesOf(fs, AT1MSW);
    var r := seq(4, i requires 0 <= i < 4 => Slice(Pack(fs), AT1MSW[i], fs[i].width) == fs[i].value);
    assert r[0] && r[1] && r[2] && r[3];
  }

  /** The tag is bit 32 of the word. */
  lemma FlagIsTag(w: U33)
    ensures Flag(w, 32) <==> TagOf(w)
  {
    hide Shr, Low, Scale, Pow2;
    Pow2Literals();
    if TagOf(w) {
      ScaleOne(32);
      SplitUnique(w, 32, 1, w - 0x1_0000_0000);
    } else {
      LowSmall(w, 32);
    }
    LowOne(Shr(w, 32));
  }

  lemma LowOne(a: nat)
    ensures Low(a, 1) == a % 2
  {
  }

  // ---------------------------------------------------------------- register to memory

  function CompressExp(e: U5): U4 {
    if e == RESETEXP then RESETCEXP else e % 16
  }

  /** reg2memcap_fmt0. */
  function Reg2MemCap0(c: RegCap): U33 {
    Unpack0(c, CompressExp(c.exp));
    Pack(Fields0(c, CompressExp(c.exp)))
  }

  /** The IT8 exponent: inverted unless the exponent is zero and the region is below 256 units. */
  function CompressExpIt8(c: RegCap): U5 {
    var same := c.topCor == (if c.baseCor then 3 else 0);
    var top10 := c.top + if same then 0 else 512;
    var len10 := (top10 - c.base) % 1024;
    var ltop := len10 >= 256;
    var denorm := c.exp == 0 && !ltop;
    if denorm then c.exp else 31 - c.exp
  }

  /** reg2memcap_it8_fmt0. */
  function Reg2MemCap0It8(c: RegCap): U33 {
    Unpack0It8(c, CompressExpIt8(c));
    Pack(Fields0It8(c, CompressExpIt8(c)))
  }

  /** The address bits format 1 keeps beside the bounds, and the others. */
  function AddrMid(exp: U5, addr: U32): U9 {
    if exp >= 24 then Field9(addr, 23) else Field9(addr, exp)
  }

  /** `({w{1'b1}} << exp)` and the same mask nine bits further up, on 32 bits. */
  function Mask1(exp: U5): (m: nat)
    ensures m < Pow2(32)
  {
    HighMask(exp, 32);
    Shl(Ones(32), exp, 32)
  }

  function Mask2(exp: U5): nat {
    Shl(Mask1(exp), 9, 32)
  }

  function AddrRest(exp: U5, addr: U32): U23 {
    if exp >= 24 then Field23(addr, 0)
    else Field23(Or(And(addr, Not(Mask1(exp), 32)), Shr(And(addr, Mask2(exp)), 9)), 0)
  }

  datatype Words = Words(msw: U33, lsw: U33)

  function Msw1(c: RegCap, a23: U23): U33 {
    Unpack1Msw(c, a23);
    Pack(Fields1Msw(c, a23))
  }

  function Lsw1(c: RegCap, a9: U9, cexp: U4): U33 {
    Unpack1Lsw(c, a9, cexp);
    Pack(Fields1Lsw(c, a9, cexp))
  }

  function Lsw1It8(c: RegCap, a9: U9, cexp: U5): U33 {
    Unpack1It8Lsw(c, a9, cexp);
    Pack(Fields1It8Lsw(c, a9, cexp))
  }

  /** reg2mem_fmt1. */
  function Reg2Mem1(c: RegCap, addr: U32): Words {
    Words(Msw1(c, AddrRest(c.exp, addr)), Lsw1(c, AddrMid(c.exp, addr), CompressExp(c.exp)))
  }

  /** reg2mem_it8_fmt1. */
  function Reg2Mem1It8(c: RegCap, addr: U32): Words {
    Words(Msw1(c, AddrRest(c.exp, addr)), Lsw1It8(c, AddrMid(c.exp, addr), CompressExpIt8(c)))
  }

  // ---------------------------------------------------------------- memory to register

  function ExpandExp(cexp: U4): U5 {
    if cexp == RESETCEXP then RESETEXP else cexp
  }

  /** Assemble a loaded capability: tag, permission clearing and corrections. */
  function Loaded(tag: bool, exp: U5, top: U9, base: U9, otype: U3, cperms: CPerms, rsvd: bool,
                  mid: U9, clr: ClrPerm): RegCap
  {
    var valid := tag && !clr.tag;
    var cors := UpdateTempFields(top, base, mid);
    RegCap(valid, cors.topCor, cors.baseCor, exp, top, base, otype,
           MaskClcPerms(cperms, clr, valid, otype != OTYPE_UNSEALED), rsvd)
  }

  /** mem2regcap_fmt0. */
  function Mem2RegCap0(msw: U33, addr33: U33, clr: ClrPerm): RegCap {
    var exp := ExpandExp(Field4(msw, 18));
    Loaded(TagOf(msw) && TagOf(addr33), exp, Field9(msw, 9), Field9(msw, 0), Field3(msw, 22),
           CPermsOf(Field6(msw, 25)), Flag(msw, 31), Mid9(DataOf(addr33), exp), clr)
  }

  datatype It8Bounds = It8Bounds(exp: U5, top: U9, base: U9)

  /** The IT8 bounds decoder: the ninth top bit is reconstructed from the carry. */
  function DecodeIt8(cexp: U5, top8: U8, base9: U9): It8Bounds {
    var denorm := cexp == 0;
    var btop := base9 >= 256;
    var base8 := base9 % 256;
    var tcin := top8 < base8;
    var ltop := !denorm;
    var ttop := (ltop != tcin) != btop;
    It8Bounds(if denorm then cexp else 31 - cexp, top8 + if ttop then 256 else 0, base9)
  }

  /** The corrections as the IT8 decoders compute them, from the halves of the fields. */
  function It8Cors(b: It8Bounds, mid: U9): Cors {
    var btop, ttop := b.base >= 256, b.top >= 256;
    var tcin := b.top % 256 < b.base % 256;
    var topHi := if btop != ttop then !ttop else tcin;
    var addrHi := mid < b.base;
    Cors(if topHi == addrHi then 0 else if topHi && !addrHi then 1 else 3, addrHi)
  }

  function LoadedIt8(tag: bool, b: It8Bounds, otype: U3, cperms: CPerms, rsvd: bool, mid: U9, clr: ClrPerm): RegCap {
    var valid := tag && !clr.tag;
    var cors := It8Cors(b, mid);
    RegCap(valid, cors.topCor, cors.baseCor, b.exp, b.top, b.base, otype,
           MaskClcPerms(cperms, clr, valid, otype != OTYPE_UNSEALED), rsvd)
  }

  /** mem2regcap_it8_fmt0. */
  function Mem2RegCap0It8(msw: U33, addr33: U33, clr: ClrPerm): RegCap {
    var b := DecodeIt8(Field5(msw, 17), Field8(msw, 9), Field9(msw, 0));
    LoadedIt8(TagOf(msw) && TagOf(addr33), b, Field3(msw, 22), CPermsOf(Field6(msw, 25)), Flag(msw, 31),
              Mid9(DataOf(addr33), b.exp), clr)
  }

  /** mem2regcap_fmt1. */
  function Mem2RegCap1(msw: U33, lsw: U33, clr: ClrPerm): RegCap {
    var cexp := Field4(lsw, 27);
    var mid: U9 := if cexp == RESETCEXP then Field8(lsw, 1) else Field9(lsw, 0);
    Loaded(TagOf(msw) && TagOf(lsw), ExpandExp(cexp), Field9(lsw, 9), Field9(lsw, 18), Field3(msw, 23),
           CPermsOf(Field6(msw, 26)), Flag(lsw, 31), mid, clr)
  }

  /** mem2regcap_it8_fmt1. */
  function Mem2RegCap1It8(msw: U33, lsw: U33, clr: ClrPerm): RegCap {
    var b := DecodeIt8(Field5(lsw, 26), Field8(lsw, 18), Field9(lsw, 9));
    var mid: U9 := if b.exp >= 24 then Field8(lsw, 1) else Field9(lsw, 0);
    LoadedIt8(TagOf(msw) && TagOf(lsw), b, Field3(msw, 23), CPermsOf(Field6(msw, 26)), Flag(lsw, 31), mid, clr)
  }

  /** The part of a format 1 address below its nine bits beside the bounds, and the part above them. */
  function AddrLow(msw: U33, exp: U5): nat {
    And(Field23(msw, 0), Not(Mask1(exp), 32))
  }

  function AddrHigh(msw: U33, exp: U5): nat {
    And(Shl(Field23(msw, 0), 9, 32), Mask2(exp))
  }

  /** mem2regaddr_fmt1, the 32 address bits (the tag bit is that of lsw). */
  function Mem2RegAddr1(msw: U33, lsw: U33, exp: U5): U32 {
    if exp >= 24 then
      Or(Shl(Field9(lsw, 0), 23, 32), Field23(msw, 0)) % 0x1_0000_0000
    else
      Or(Or(AddrHigh(msw, exp), Shl(Field9(lsw, 0), exp, 32)), AddrLow(msw, exp)) % 0x1_0000_0000
  }
}
