/**
  Where everything is in a stored capability: the bits of its words in every memory format, and the
  two words in memory.
 */
module Layouts {
  import opened CapTypes
  import opened Codecs
  import opened BitFields
  import opened TaggedMemory
  import opened ExStage
  import opened Core
  import opened LoadStore
  import opened Bounds
  import opened CodecProofs
  import opened CodecInverse
  import Bits

  // ---------------------------------------------------------------- words as sums of fields

  lemma PackCons(f: Field, rest: seq<Field>)
    ensures Pack([f] + rest) == Bits.Scale(Pack(rest), f.width) + f.value
  {
    hide Bits.Scale;
    assert ([f] + rest)[1..] == rest;
  }

  lemma ScaleLiterals(n: nat)
    ensures Bits.Scale(n, 1) == 2 * n && Bits.Scale(n, 3) == 8 * n && Bits.Scale(n, 4) == 0x10 * n
    ensures Bits.Scale(n, 5) == 0x20 * n && Bits.Scale(n, 6) == 0x40 * n && Bits.Scale(n, 8) == 0x100 * n
    ensures Bits.Scale(n, 9) == 0x200 * n && Bits.Scale(n, 23) == 0x80_0000 * n
  {
  }

  /** A field of one of the widths in use, put below the others. */
  lemma PackField(f: Field, rest: seq<Field>)
    ensures
      Pack([f] + rest)
      == f.value + match f.width
                   case 1 => 2 * Pack(rest)
                   case 3 => 8 * Pack(rest)
                   case 4 => 0x10 * Pack(rest)
                   case 5 => 0x20 * Pack(rest)
                   case 6 => 0x40 * Pack(rest)
                   case 8 => 0x100 * Pack(rest)
                   case 9 => 0x200 * Pack(rest)
                   case 23 => 0x80_0000 * Pack(rest)
                   case w => Bits.Scale(Pack(rest), w)
  {
    hide Pack, Bits.Scale;
    PackCons(f, rest);
    ScaleLiterals(Pack(rest));
  }

  lemma PermissionBits(c: CPerms)
    ensures CPermsBits(c) == B(c.b0) + 2 * B(c.b1) + 4 * B(c.b2) + 8 * B(c.b3) + 0x10 * B(c.b4) + 0x20 * B(c.b5)
  {
  }

  /** Fields above the exponent in a metadata word of format 0. */
  lemma UpperFields(c: RegCap)
    ensures
      Pack([F(3, c.otype), F(6, CPermsBits(c.cperms)), F(1, B(c.rsvd)), F(1, B(c.valid))])
      == c.otype + 8 * CPermsBits(c.cperms) + 0x200 * B(c.rsvd) + 0x400 * B(c.valid)
  {
    hide Pack, Bits.Scale, CPermsBits, B;
    var f3, f6, r, v := F(3, c.otype), F(6, CPermsBits(c.cperms)), F(1, B(c.rsvd)), F(1, B(c.valid));
    assert [f3, f6, r, v] == [f3] + [f6, r, v] && [f6, r, v] == [f6] + [r, v];
    PackField(f3, [f6, r, v]);
    PackField(f6, [r, v]);
    TagAndReserved(r.value, v.value);
  }

  lemma TagAndReserved(r: nat, v: nat)
    ensures Pack([F(1, r), F(1, v)]) == r + 2 * v
  {
    hide Pack, Bits.Scale;
    assert [F(1, r), F(1, v)] == [F(1, r)] + [F(1, v)] && [F(1, v)] == [F(1, v)] + [];
    PackField(F(1, r), [F(1, v)]);
    PackField(F(1, v), []);
    PackNone();
  }

  lemma PackNone()
    ensures Pack([]) == 0
  {
  }

  /** The metadata word of format 0, without its tag bit. */
  lemma WordLayout0(c: RegCap)
    ensures
      Reg2MemCap0(c)
      == c.base + 0x200 * c.top + 0x4_0000 * CompressExp(c.exp) + 0x40_0000 * c.otype
         + 0x200_0000 * CPermsBits(c.cperms) + 0x8000_0000 * B(c.rsvd) + 0x1_0000_0000 * B(c.valid)
  {
    hide Pack, CPermsBits, B, CompressExp;
    var upper := [F(3, c.otype), F(6, CPermsBits(c.cperms)), F(1, B(c.rsvd)), F(1, B(c.valid))];
    var b, t, e := F(9, c.base), F(9, c.top), F(4, CompressExp(c.exp));
    assert Fields0(c, CompressExp(c.exp)) == [b] + ([t] + ([e] + upper));
    PackField(b, [t] + ([e] + upper));
    PackField(t, [e] + upper);
    PackField(e, upper);
    UpperFields(c);
  }

  lemma WordLayout0It8(c: RegCap)
    ensures
      Reg2MemCap0It8(c)
      == c.base + 0x200 * (c.top % 0x100) + 0x2_0000 * CompressExpIt8(c) + 0x40_0000 * c.otype
         + 0x200_0000 * CPermsBits(c.cperms) + 0x8000_0000 * B(c.rsvd) + 0x1_0000_0000 * B(c.valid)
  {
    hide Pack, CPermsBits, B, CompressExpIt8;
    var upper := [F(3, c.otype), F(6, CPermsBits(c.cperms)), F(1, B(c.rsvd)), F(1, B(c.valid))];
    var b, t, e := F(9, c.base), F(8, c.top % 256), F(5, CompressExpIt8(c));
    assert Fields0It8(c, CompressExpIt8(c)) == [b] + ([t] + ([e] + upper));
    PackField(b, [t] + ([e] + upper));
    PackField(t, [e] + upper);
    PackField(e, upper);
    UpperFields(c);
  }

  // ---------------------------------------------------------------- format 1

  lemma PairLsw(a9: U9, hi: U9, lo: U9, e: U4, r: U1, v: U1)
    ensures
      Pack([F(9, a9), F(9, lo), F(9, hi), F(4, e), F(1, r), F(1, v)])
      == a9 + 0x200 * lo + 0x4_0000 * hi + 0x800_0000 * e + 0x8000_0000 * r + 0x1_0000_0000 * v
  {
    hide Pack;
    var a, l, h, x, t := F(9, a9), F(9, lo), F(9, hi), F(4, e), [F(1, r), F(1, v)];
    assert [a, l, h, x, F(1, r), F(1, v)] == [a] + ([l] + ([h] + ([x] + t)));
    PackField(a, [l] + ([h] + ([x] + t)));
    PackField(l, [h] + ([x] + t));
    PackField(h, [x] + t);
    PackField(x, t);
    TagAndReserved(r, v);
  }

  lemma PairLswIt8(a9: U9, b: U9, t8: U8, e: U5, r: U1, v: U1)
    ensures
      Pack([F(9, a9), F(9, b), F(8, t8), F(5, e), F(1, r), F(1, v)])
      == a9 + 0x200 * b + 0x4_0000 * t8 + 0x400_0000 * e + 0x8000_0000 * r + 0x1_0000_0000 * v
  {
    hide Pack;
    var a, l, h, x, t := F(9, a9), F(9, b), F(8, t8), F(5, e), [F(1, r), F(1, v)];
    assert [a, l, h, x, F(1, r), F(1, v)] == [a] + ([l] + ([h] + ([x] + t)));
    PackField(a, [l] + ([h] + ([x] + t)));
    PackField(l, [h] + ([x] + t));
    PackField(h, [x] + t);
    PackField(x, t);
    TagAndReserved(r, v);
  }

  lemma MetadataMsw(c: RegCap, a23: U23)
    ensures
      Msw1(c, a23)
      == a23 + 0x80_0000 * c.otype + 0x400_0000 * CPermsBits(c.cperms) + 0x1_0000_0000 * B(c.valid)
  {
    hide Pack, CPermsBits, B;
    var a, o, p, v := F(23, a23), F(3, c.otype), F(6, CPermsBits(c.cperms)), F(1, B(c.valid));
    assert Fields1Msw(c, a23) == [a] + ([o] + ([p] + ([v] + [])));
    PackField(a, [o] + ([p] + ([v] + [])));
    PackField(o, [p] + ([v] + []));
    PackField(p, [v] + []);
    PackField(v, []);
    PackNone();
  }

  /** The nine address bits kept beside the bounds start at the exponent, at bit 23 at the most. */
  function MidFrom(exp: U5): U5 { if exp < 23 then exp else 23 }

  lemma AddressParts(exp: U5, addr: U32)
    ensures AddrMid(exp, addr) == Mid9(addr, MidFrom(exp))
    ensures
      AddrRest(exp, addr)
      == Bits.Scale(Bits.Shr(addr, MidFrom(exp) + 9), MidFrom(exp)) + Bits.Low(addr, MidFrom(exp))
  {
    hide Bits.Scale, Bits.Shr, Bits.Low, AddrRest, Mid9, Field9;
    MidIsSlice(addr, MidFrom(exp));
    if exp <= 23 {
      RestValue(addr, exp);
    } else {
      HighRest(exp, addr);
    }
  }

  lemma HighRest(exp: U5, addr: U32)
    requires exp >= 24
    ensures AddrRest(exp, addr) == Bits.Low(addr, 23) && Bits.Scale(Bits.Shr(addr, 32), 23) == 0
  {
    hide Bits.Low, Bits.Shr, Bits.Scale;
    ShrNone(addr);
    Bits.Pow2Literals();
    Bits.ScaleZero(23);
    Bits.ScaleZero(32);
    Bits.SplitUnique(addr, 32, 0, addr);
  }

  /**
    Both words of format 1. With m = min(exp, 23), the lower holds address bits m to m + 8 and the
    bounds, the upper the other address bits, in order, and type and permissions; both hold the tag.
   */
  lemma WordLayout1(c: RegCap, addr: U32)
    ensures
      var m, ws := MidFrom(c.exp), Reg2Mem1(c, addr);
      && ws.lsw
         == Mid9(addr, m) + 0x200 * c.top + 0x4_0000 * c.base + 0x800_0000 * CompressExp(c.exp)
            + 0x8000_0000 * B(c.rsvd) + 0x1_0000_0000 * B(c.valid)
      && ws.msw
         == Bits.Scale(Bits.Shr(addr, m + 9), m) + Bits.Low(addr, m) + 0x80_0000 * c.otype
            + 0x400_0000 * CPermsBits(c.cperms) + 0x1_0000_0000 * B(c.valid)
  {
    hide Pack, CPermsBits, B, CompressExp, AddrRest, AddrMid, Mid9, Msw1, Bits.Scale, Bits.Shr, Bits.Low, MidFrom;
    AddressParts(c.exp, addr);
    MetadataMsw(c, AddrRest(c.exp, addr));
    PairLsw(AddrMid(c.exp, addr), c.base, c.top, CompressExp(c.exp), B(c.rsvd), B(c.valid));
  }

  lemma WordLayout1It8(c: RegCap, addr: U32)
    ensures
      var m, ws := MidFrom(c.exp), Reg2Mem1It8(c, addr);
      && ws.lsw
         == Mid9(addr, m) + 0x200 * c.base + 0x4_0000 * (c.top % 0x100) + 0x400_0000 * CompressExpIt8(c)
            + 0x8000_0000 * B(c.rsvd) + 0x1_0000_0000 * B(c.valid)
      && ws.msw
         == Bits.Scale(Bits.Shr(addr, m + 9), m) + Bits.Low(addr, m) + 0x80_0000 * c.otype
            + 0x400_0000 * CPermsBits(c.cperms) + 0x1_0000_0000 * B(c.valid)
  {
    hide Pack, CPermsBits, B, CompressExpIt8, AddrRest, AddrMid, Mid9, Msw1, Bits.Scale, Bits.Shr, Bits.Low, MidFrom;
    AddressParts(c.exp, addr);
    MetadataMsw(c, AddrRest(c.exp, addr));
    PairLswIt8(AddrMid(c.exp, addr), c.base, c.top % 256, CompressExpIt8(c), B(c.rsvd), B(c.valid));
  }

  // ---------------------------------------------------------------- the two words in memory

  /**
    A capability store that is issued leaves the lower word at the address and the upper one behind it,
    each with its own tag: format 0 has the address below and the metadata above.
   */
  lemma StoredWordsAt(cfg: Config, s: State, ev: Event)
    requires ev.Exec? && ev.op.CStoreCap? && StoreAllowed(cfg, s, ev)
    ensures
      var m, w := Step(cfg, s, ev).mem, Target(s, ev) / 4;
      var v := Arrives(Reg(s, ev.rs2), PermsIn(Reg(s, ev.rs1)));
      if cfg.memFmt1
      then WordAt(m, w) == Reg2Mem1(v.cap, v.data).lsw && WordAt(m, w + 1) == Reg2Mem1(v.cap, v.data).msw
      else WordAt(m, w) == TagWord(v.cap.valid, v.data) && WordAt(m, w + 1) == Reg2MemCap0(v.cap)
  {
    hide LsAddr, LsuErr, StoreAllowed, PermsIn, Target, StoredCap, Reg, WordAt, WriteWord;
    hide Reg2Mem1, Reg2MemCap0;
    var i := Operands(cfg, s, ev);
    var w, ws := Target(s, ev) / 4, StoredWords(cfg, RegVal(StoredCap(i), i.b.data));
    TargetIs(cfg, s, ev);
    StoreIssued(cfg, s, ev);
    ArrivingIs(cfg, s, ev);
    ReadBack(s.mem, w, ws.lsw);
    ReadBack(WriteWord(s.mem, w, ws.lsw), w + 1, ws.msw);
    OtherWord(WriteWord(s.mem, w, ws.lsw), w + 1, ws.msw, w);
  }

  // ---------------------------------------------------------------- tags in memory

  lemma NothingCleared(c: CPerms, valid: bool, isSealed: bool)
    ensures MaskClcPerms(c, NO_CLR, valid, isSealed) == c
  {
  }

  /** The tags of the two words decide the tag of the granule, and nothing else. */
  lemma Retagged0(msw: U33, lsw: U33, t: bool, u: bool)
    ensures
      var c := Mem2RegCap0(msw, lsw, NO_CLR);
      Mem2RegCap0(TagWord(t, DataOf(msw)), TagWord(u, DataOf(lsw)), NO_CLR) == c.(valid := t && u)
  {
    hide Slice, MaskClcPerms, CPermsOf, UpdateTempFields, Mid9, TagWord, TagOf, DataOf;
    TagWordParts(t, DataOf(msw));
    TagWordParts(u, DataOf(lsw));
    SliceOfData(msw, t, 18, 4);
    SliceOfData(msw, t, 9, 9);
    SliceOfData(msw, t, 0, 9);
    SliceOfData(msw, t, 22, 3);
    SliceOfData(msw, t, 25, 6);
    SliceOfData(msw, t, 31, 1);
    var c := CPermsOf(Field6(msw, 25));
    NothingCleared(c, t && u, Field3(msw, 22) != OTYPE_UNSEALED);
    NothingCleared(c, TagOf(msw) && TagOf(lsw), Field3(msw, 22) != OTYPE_UNSEALED);
  }

  lemma Retagged1(msw: U33, lsw: U33, t: bool, u: bool)
    ensures
      var c := Mem2RegCap1(msw, lsw, NO_CLR);
      Mem2RegCap1(TagWord(t, DataOf(msw)), TagWord(u, DataOf(lsw)), NO_CLR) == c.(valid := t && u)
  {
    hide Slice, MaskClcPerms, CPermsOf, UpdateTempFields, TagWord, TagOf, DataOf;
    TagWordParts(t, DataOf(msw));
    TagWordParts(u, DataOf(lsw));
    SliceOfData(lsw, u, 27, 4);
    SliceOfData(lsw, u, 1, 8);
    SliceOfData(lsw, u, 0, 9);
    SliceOfData(lsw, u, 9, 9);
    SliceOfData(lsw, u, 18, 9);
    SliceOfData(lsw, u, 31, 1);
    SliceOfData(msw, t, 23, 3);
    SliceOfData(msw, t, 26, 6);
    var c := CPermsOf(Field6(msw, 26));
    NothingCleared(c, t && u, Field3(msw, 23) != OTYPE_UNSEALED);
    NothingCleared(c, TagOf(msw) && TagOf(lsw), Field3(msw, 23) != OTYPE_UNSEALED);
  }

  lemma RetaggedAddr1(msw: U33, lsw: U33, t: bool, u: bool, exp: U5)
    ensures Mem2RegAddr1(TagWord(t, DataOf(msw)), TagWord(u, DataOf(lsw)), exp) == Mem2RegAddr1(msw, lsw, exp)
  {
    hide Slice, Bits.And, Bits.Shl, Bits.Or, Bits.Not, TagWord, TagOf, DataOf;
    SliceOfData(lsw, u, 0, 9);
    SliceOfData(msw, t, 0, 23);
  }

  lemma SameBytes(m: Mem, w: int)
    ensures forall x :: ByteAt(ClearTag(m, w), x) == ByteAt(m, x)
  {
  }

  lemma WordUntagged(m: Mem, w: int, x: int)
    ensures WordAt(ClearTag(m, w), x) == TagWord(x != w && TagOf(WordAt(m, x)), DataOf(WordAt(m, x)))
  {
    SameBytes(m, w);
    hide TagWord, TagOf, DataOf, ByteAt;
    TagWordParts(x in m.tags,
                 ByteAt(m, 4 * x) + 0x100 * ByteAt(m, 4 * x + 1)
                 + 0x1_0000 * ByteAt(m, 4 * x + 2) + 0x100_0000 * ByteAt(m, 4 * x + 3));
  }

  /** Revoking a word takes the tag of its granule and nothing else: no data, and no other granule. */
  lemma RevokeStep(cfg: Config, s: State, ev: Event, g: int)
    requires ev.RevokeWord?
    ensures
      var s' := Step(cfg, s, ev);
      var v := LoadCap(cfg, s.mem, 2 * g, NO_CLR);
      && s' == s.(mem := s'.mem) && s'.mem.bytes == s.mem.bytes
      && LoadCap(cfg, s'.mem, 2 * g, NO_CLR)
         == v.(cap := v.cap.(valid := v.cap.valid && ev.w != 2 * g && ev.w != 2 * g + 1))
  {
    hide WordAt, Mem2RegCap0, Mem2RegCap1, Mem2RegAddr1, TagOf, DataOf, TagWord;
    var msw, lsw := WordAt(s.mem, 2 * g + 1), WordAt(s.mem, 2 * g);
    var t, u := ev.w != 2 * g + 1 && TagOf(msw), ev.w != 2 * g && TagOf(lsw);
    WordUntagged(s.mem, ev.w, 2 * g);
    WordUntagged(s.mem, ev.w, 2 * g + 1);
    BothTagged(msw, lsw);
    Retagged0(msw, lsw, t, u);
    Retagged1(msw, lsw, t, u);
    RetaggedAddr1(msw, lsw, t, u, Mem2RegCap1(msw, lsw, NO_CLR).exp);
    TagWordParts(u, DataOf(lsw));
  }

  lemma BothTagged(msw: U33, lsw: U33)
    ensures Mem2RegCap0(msw, lsw, NO_CLR).valid == Mem2RegCap1(msw, lsw, NO_CLR).valid == (TagOf(msw) && TagOf(lsw))
  {
  }
}
