/**
  What the machine's loads and stores do, step by step: exactly when an access is issued, what a
  capability load takes away, what a capability store leaves in memory, and that an integer load
  returns what an integer store of the same size put there.
 */
module LoadStore {
  import opened CapTypes
  import opened Bounds
  import opened Codecs
  import opened CodecProofs
  import opened ExStage
  import opened TaggedMemory
  import opened Core
  import opened Monotone
  import Bits

  /** A twelve-bit immediate as a signed number. */
  function Signed12(imm: U12): int { if imm < 2048 then imm else imm - 4096 }

  lemma SignedSum(imm: U12, a: U32)
    ensures Wrap32(Sext12(imm) + a) == (a + Signed12(imm)) % 0x1_0000_0000
  {
  }

  /** The address a capability access goes to. */
  function Target(s: State, ev: Event): U32
    requires ev.Exec?
  {
    (Reg(s, ev.rs1).data + Signed12(ev.imm12)) % 0x1_0000_0000
  }

  /** v lets n bytes at addr be accessed, as far as tag, seal and bounds go. */
  predicate Reaches(v: RegVal, addr: U32, n: nat) {
    v.cap.valid && v.cap.otype == 0 && Base32(v.cap, v.data) <= addr && addr + n <= Top33(v.cap, v.data)
  }

  function PermsIn(v: RegVal): Perms { ExpandPerms(v.cap.cperms) }

  // ---------------------------------------------------------------- capability loads

  predicate LoadAllowed(s: State, ev: Event)
    requires ev.Exec?
  {
    var v := Reg(s, ev.rs1);
    Reaches(v, Target(s, ev), 8) && PermsIn(v).ld && Target(s, ev) % 8 == 0
  }

  /** What loading m through an authority with permissions p gives. */
  predicate LoadedThrough(r: RegVal, m: RegVal, p: Perms) {
    var q, x := PermsIn(m), PermsIn(r);
    && r.data == m.data && r.cap == m.cap.(valid := r.cap.valid, cperms := r.cap.cperms)
    && (r.cap.valid <==> m.cap.valid && p.mc)
    && (!r.cap.valid ==> x == q)
    && (r.cap.valid && m.cap.otype != 0 ==> x == q.(gl := q.gl && p.lg))
    && (r.cap.valid && m.cap.otype == 0 ==>
          x == q.(gl := q.gl && p.lg, lg := q.lg && p.lg, sd := q.sd && p.lm, lm := q.lm && p.lm,
                  sl := q.sl && p.lm, mc := q.mc && (q.ld || p.lm)))
  }

  lemma TargetIs(cfg: Config, s: State, ev: Event)
    requires ev.Exec? && (ev.op.CLoadCap? || ev.op.CStoreCap?)
    ensures LsAddr(Operands(cfg, s, ev)) == Target(s, ev)
  {
    hide Reg;
  }

  /** Eight aligned bytes: the comparison of aligned addresses is containment. */
  lemma AlignedReach(f: FullCap, addr: U32)
    requires addr % 8 == 0
    ensures CapAccessVio(f, addr) <==> addr < f.base32 || addr + 8 > f.top33
  {
  }

  lemma LoadIssued(cfg: Config, s: State, ev: Event)
    requires ev.Exec? && ev.op.CLoadCap?
    ensures LsuErr(Operands(cfg, s, ev)) <==> !LoadAllowed(s, ev)
  {
    hide LsAddr, Target, Base32, Top33, ExpandPerms, Reg, CapAccessVio;
    TargetIs(cfg, s, ev);
    if Target(s, ev) % 8 == 0 {
      AlignedReach(FullA(Operands(cfg, s, ev)), Target(s, ev));
    }
  }

  /** Clearing on the twelve permissions and encoding again: which permissions go. */
  lemma ClearedPerms(c: CPerms, lg: bool, lm: bool)
    ensures
      var q := ExpandPerms(c);
      var x := ExpandPerms(MaskClcPerms(c, ClrPerm(false, !lm, !lg), true, false));
      x == q.(gl := q.gl && lg, lg := q.lg && lg, sd := q.sd && lm, lm := q.lm && lm,
              sl := q.sl && lm, mc := q.mc && (q.ld || lm))
  {
    if c.b4 {
      if c.b3 {} else if c.b2 {} else {}
    } else if c.b3 {} else {}
  }

  lemma ClearedSealed(c: CPerms, lg: bool, lm: bool)
    ensures
      var q := ExpandPerms(c);
      ExpandPerms(MaskClcPerms(c, ClrPerm(false, !lm, !lg), true, true)) == q.(gl := q.gl && lg)
  {
    hide ExpandPerms, MaskClcPerms;
    SealedKeepsBits(c, ClrPerm(false, !lm, !lg));
    ExpandGl(c, c.b5 && lg);
    PermTable(c);
  }

  lemma SealedKeepsBits(c: CPerms, clr: ClrPerm)
    ensures MaskClcPerms(c, clr, true, true) == c.(b5 := c.b5 && !clr.glg)
  {
    if c.b4 {
      if c.b3 {} else if c.b2 {} else {}
    } else if c.b3 {} else {}
  }

  lemma ClearedThrough(m: RegVal, p: Perms)
    ensures LoadedThrough(RegVal(Cleared(m.cap, ClrPerm(!p.mc, !p.lm, !p.lg)), m.data), m, p)
  {
    hide ExpandPerms, MaskClcPerms, PermsLe;
    var c, clr := m.cap.cperms, ClrPerm(!p.mc, !p.lm, !p.lg);
    if !m.cap.valid || !p.mc {
      UntaggedKeepsPerms(c, clr, m.cap.otype != 0);
    } else {
      assert clr == ClrPerm(false, !p.lm, !p.lg);
      if m.cap.otype == 0 {
        ClearedUnsealed(m, p);
      } else {
        ClearedSealed(c, p.lg, p.lm);
      }
    }
  }

  lemma ClearedUnsealed(m: RegVal, p: Perms)
    requires m.cap.valid && m.cap.otype == 0 && p.mc
    ensures LoadedThrough(RegVal(Cleared(m.cap, ClrPerm(false, !p.lm, !p.lg)), m.data), m, p)
  {
    hide ExpandPerms, MaskClcPerms;
    ClearedPerms(m.cap.cperms, p.lg, p.lm);
  }

  lemma UntaggedKeepsPerms(c: CPerms, clr: ClrPerm, isSealed: bool)
    ensures MaskClcPerms(c, clr, false, isSealed) == c
  {
  }

  /**
    A capability load is issued exactly when the authority reaches the aligned granule and has LD;
    otherwise nothing changes. What arrives is the granule, less what the authority lacks MC, LG or LM for.
   */
  lemma CapLoad(cfg: Config, s: State, ev: Event)
    requires ev.Exec? && ev.op.CLoadCap?
    ensures !LoadAllowed(s, ev) ==> Step(cfg, s, ev) == s
    ensures
      LoadAllowed(s, ev) ==>
        var s', m := Step(cfg, s, ev), LoadCap(cfg, s.mem, Target(s, ev) / 4, NO_CLR);
        && (ev.rd != 0 ==> LoadedThrough(Reg(s', ev.rd), m, PermsIn(Reg(s, ev.rs1))))
        && s' == SetReg(s, ev.rd, Reg(s', ev.rd))
  {
    hide LsAddr, LsuErr, LoadCap, LoadAllowed, LoadedThrough, Target, ExpandPerms, Base32, Top33;
    var i := Operands(cfg, s, ev);
    TargetIs(cfg, s, ev);
    LoadIssued(cfg, s, ev);
    LoadClears(cfg, s.mem, Target(s, ev) / 4, LoadClr(i));
    ClearedThrough(LoadCap(cfg, s.mem, Target(s, ev) / 4, NO_CLR), PermsIn(Reg(s, ev.rs1)));
  }

  // ---------------------------------------------------------------- capability stores

  predicate StoreAllowed(cfg: Config, s: State, ev: Event)
    requires ev.Exec?
  {
    var v, b := Reg(s, ev.rs1), Reg(s, ev.rs2);
    && Reaches(v, Target(s, ev), 8) && PermsIn(v).sd && Target(s, ev) % 8 == 0
    && (b.cap.valid ==> PermsIn(v).mc)
    && (cfg.tclrFault && b.cap.valid ==> PermsIn(v).sl || PermsIn(b).gl)
  }

  lemma StoreIssued(cfg: Config, s: State, ev: Event)
    requires ev.Exec? && ev.op.CStoreCap?
    ensures LsuErr(Operands(cfg, s, ev)) <==> !StoreAllowed(cfg, s, ev)
  {
    hide LsAddr, Target, Base32, Top33, ExpandPerms, Reg, CapAccessVio;
    TargetIs(cfg, s, ev);
    if Target(s, ev) % 8 == 0 {
      AlignedReach(FullA(Operands(cfg, s, ev)), Target(s, ev));
    }
  }

  /** What a store through an authority with permissions p leaves to be loaded. */
  function Arrives(b: RegVal, p: Perms): RegVal {
    b.(cap := b.cap.(valid := b.cap.valid && (p.sl || PermsIn(b).gl)))
  }

  lemma ArrivingIs(cfg: Config, s: State, ev: Event)
    requires ev.Exec? && ev.op.CStoreCap?
    ensures
      var i := Operands(cfg, s, ev);
      RegVal(StoredCap(i), i.b.data) == Arrives(Reg(s, ev.rs2), PermsIn(Reg(s, ev.rs1)))
  {
    hide Base32, Top33, ExpandPerms, LsAddr;
  }

  /**
    A capability store is issued exactly when the authority reaches the aligned granule and has SD, and
    MC for a tagged value; otherwise nothing changes. The value is then in the granule, untagged if it
    is local and the authority lacks SL, and no other granule or register changes.
   */
  lemma CapStore(cfg: Config, s: State, ev: Event, g: int)
    requires ev.Exec? && ev.op.CStoreCap?
    ensures !StoreAllowed(cfg, s, ev) ==> Step(cfg, s, ev) == s
    ensures
      StoreAllowed(cfg, s, ev) ==>
        var s', b := Step(cfg, s, ev), Reg(s, ev.rs2);
        var v, r := Arrives(b, PermsIn(Reg(s, ev.rs1))), LoadCap(cfg, s'.mem, Target(s, ev) / 4, NO_CLR);
        && s' == s.(mem := s'.mem)
        && (r.cap.valid <==> v.cap.valid) && (r == v <==> Storable(b.cap, b.data))
        && (g != Target(s, ev) / 8 ==>
              LoadCap(cfg, s'.mem, 2 * g, NO_CLR) == LoadCap(cfg, s.mem, 2 * g, NO_CLR))
  {
    hide LsAddr, LsuErr, LoadCap, StoreAllowed, PermsIn, Target, StoreCap, StoredCap, ExpandPerms, Base32, Top33;
    hide Storable, Reg;
    var i := Operands(cfg, s, ev);
    var v := RegVal(StoredCap(i), i.b.data);
    TargetIs(cfg, s, ev);
    StoreIssued(cfg, s, ev);
    ArrivingIs(cfg, s, ev);
    StoreThenLoad(cfg, s.mem, Target(s, ev) / 4, v);
    TagIgnored(i.b.cap, v.cap, i.b.data);
    if StoreAllowed(cfg, s, ev) {
      AlignedAddr(i);
      if g != Target(s, ev) / 8 {
        OtherGranule(cfg, s.mem, Target(s, ev) / 8, v, g);
      }
    }
  }

  lemma TagIgnored(c: RegCap, d: RegCap, addr: U32)
    requires d == c.(valid := d.valid)
    ensures Storable(c, addr) <==> Storable(d, addr)
  {
    hide UpdateTempFields, Mid9;
  }

  // ---------------------------------------------------------------- integer accesses

  predicate IntAllowed(s: State, rs1: U5, addr: U32, z: Size, isStore: bool) {
    var v := Reg(s, rs1);
    Reaches(v, addr, SizeBytes(z)) && if isStore then PermsIn(v).sd else PermsIn(v).ld
  }

  /** The check of the first byte against top - size, on 33 bits, is containment of the whole access. */
  lemma IntIssued(s: State, rs1: U5, addr: U32, z: Size, isStore: bool)
    ensures Rv32Err(RegFull(s, rs1), addr, z, isStore) <==> !IntAllowed(s, rs1, addr, z, isStore)
  {
    hide Base32, Top33, ExpandPerms, Reg;
  }

  /** Byte k of a word, the lowest first. */
  function ByteOf(value: U32, k: nat): U8
    requires k < 4
  {
    if k == 0 then value % 0x100
    else if k == 1 then value / 0x100 % 0x100
    else if k == 2 then value / 0x1_0000 % 0x100
    else value / 0x100_0000
  }

  /** Byte x once the low bytes of value are at addr. */
  function ByteAfter(m: Mem, addr: U32, z: Size, value: U32, x: int): U8 {
    if addr <= x < addr + SizeBytes(z) then ByteOf(value, x - addr) else ByteAt(m, x)
  }

  predicate Touches(addr: U32, n: nat, w: int) { addr < 4 * w + 4 && 4 * w < addr + n }

  /**
    An integer store is issued exactly when its bytes are in bounds and SD is there; otherwise nothing
    changes. It writes its bytes, the lowest first, and untags exactly the words it touches.
   */
  lemma IntStore(cfg: Config, s: State, ev: Event, x: int, w: int)
    requires ev.StoreInt?
    ensures
      var s' := Step(cfg, s, ev);
      if !IntAllowed(s, ev.rs1, ev.addr, ev.size, true) then s' == s
      else
        && s' == s.(mem := s'.mem)
        && ByteAt(s'.mem, x) == ByteAfter(s.mem, ev.addr, ev.size, ev.value, x)
        && (w in s'.mem.tags <==> w in s.mem.tags && !Touches(ev.addr, SizeBytes(ev.size), w))
  {
    hide Rv32Err, IntAllowed, StoreBytes, ByteAfter, ByteAt, Touches, SizeBytes, RegFull;
    IntIssued(s, ev.rs1, ev.addr, ev.size, true);
    StoredBytes(s.mem, ev.addr, ev.size, ev.value, x);
    StoredTags(s.mem, ev.addr, ev.size, ev.value, w);
  }

  lemma StoredBytes(m: Mem, addr: U32, z: Size, value: U32, x: int)
    ensures ByteAt(StoreBytes(m, addr, SizeBytes(z), value), x) == ByteAfter(m, addr, z, value, x)
  {
    if addr <= x < addr + SizeBytes(z) {
      hide DataByte, ByteOf;
      SameByteOf(value, x - addr);
    }
  }

  lemma SameByteOf(value: U32, k: nat)
    requires k < 4
    ensures DataByte(value, k) == ByteOf(value, k)
  {
  }

  lemma StoredTags(m: Mem, addr: U32, z: Size, value: U32, w: int)
    ensures w in StoreBytes(m, addr, SizeBytes(z), value).tags <==> w in m.tags && !Touches(addr, SizeBytes(z), w)
  {
    hide DataByte;
    FirstAndLast(addr, SizeBytes(z), w);
  }

  lemma FirstAndLast(addr: nat, n: nat, w: int)
    requires 1 <= n <= 4
    ensures w == addr / 4 || w == (addr + n - 1) / 4 <==> addr < 4 * w + 4 && 4 * w < addr + n
  {
  }

  /** The value an integer load of this size makes of a word's low bytes. */
  function Extended(value: U32, z: Size, signed: bool): U32 {
    match z
    case Word => value
    case Half =>
      var h := value % 0x1_0000;
      if signed && h >= 0x8000 then h + 0xFFFF_0000 else h
    case Byte =>
      var b := value % 0x100;
      if signed && b >= 0x80 then b + 0xFFFF_FF00 else b
  }

  /** An integer load is issued exactly when its bytes are in bounds and LD is there, and is never tagged. */
  lemma IntLoad(cfg: Config, s: State, ev: Event)
    requires ev.LoadInt?
    ensures !IntAllowed(s, ev.rs1, ev.addr, ev.size, false) ==> Step(cfg, s, ev) == s
    ensures
      IntAllowed(s, ev.rs1, ev.addr, ev.size, false) ==>
        Step(cfg, s, ev) == SetReg(s, ev.rd, RegVal(NULL_REG_CAP, LoadBits(s.mem, ev.addr, ev.size, ev.signed)))
  {
    hide Rv32Err, IntAllowed, LoadBits;
    IntIssued(s, ev.rs1, ev.addr, ev.size, false);
  }

  /** What an integer store put there, an integer load of the same size returns, sign-extended if asked. */
  lemma IntStoreThenLoad(cfg: Config, s: State, st: Event, ld: Event)
    requires st.StoreInt? && ld.LoadInt? && ld.addr == st.addr && ld.size == st.size && ld.rd != 0
    requires IntAllowed(s, st.rs1, st.addr, st.size, true) && IntAllowed(s, ld.rs1, ld.addr, ld.size, false)
    ensures
      Reg(Step(cfg, Step(cfg, s, st), ld), ld.rd)
      == RegVal(NULL_REG_CAP, Extended(st.value, st.size, ld.signed))
  {
    hide LoadBits, Extended, Step, SetReg, Base32, Top33, ExpandPerms, Reaches, ByteAt, ByteOf;
    var s1 := Step(cfg, s, st);
    IntStore(cfg, s, st, 0, 0);
    IntLoad(cfg, s1, ld);
    assert Reg(s1, ld.rs1) == Reg(s, ld.rs1);
    forall x | st.addr <= x < st.addr + SizeBytes(st.size)
      ensures ByteAt(s1.mem, x) == ByteOf(st.value, x - st.addr)
    {
      IntStore(cfg, s, st, x, 0);
    }
    BytesToBits(s1.mem, st.addr, st.size, ld.signed, st.value);
    SetThenGet(s1, ld.rd, RegVal(NULL_REG_CAP, LoadBits(s1.mem, ld.addr, ld.size, ld.signed)));
  }

  lemma SetThenGet(s: State, r: U5, v: RegVal)
    requires r != 0
    ensures Reg(SetReg(s, r, v), r) == v
  {
  }

  lemma BytesToBits(m: Mem, addr: U32, z: Size, signed: bool, value: U32)
    requires forall x | addr <= x < addr + SizeBytes(z) :: ByteAt(m, x) == ByteOf(value, x - addr)
    ensures LoadBits(m, addr, z, signed) == Extended(value, z, signed)
  {
    hide ByteAt, ByteOf;
    assert ByteAt(m, addr) == ByteOf(value, 0);
    LowByteOf(value);
    match z
    case Byte =>
    case Half =>
      assert ByteAt(m, addr + 1) == ByteOf(value, 1);
      TwoBytes(value);
    case Word =>
      assert ByteAt(m, addr + 1) == ByteOf(value, 1);
      assert ByteAt(m, addr + 2) == ByteOf(value, 2);
      assert ByteAt(m, addr + 3) == ByteOf(value, 3);
      FourBytes(value);
  }

  lemma LowByteOf(value: U32)
    ensures ByteOf(value, 0) == value % 0x100
  {
  }

  lemma TwoBytes(value: U32)
    ensures ByteOf(value, 0) + 0x100 * ByteOf(value, 1) == value % 0x1_0000
  {
    var q, r := value / 0x100, value % 0x100;
    assert value == 0x1_0000 * (q / 0x100) + (r + 0x100 * (q % 0x100));
    Bits.QuotientRemainder(value, 0x1_0000, q / 0x100, r + 0x100 * (q % 0x100));
  }

  lemma FourBytes(value: U32)
    ensures ByteOf(value, 0) + 0x100 * ByteOf(value, 1) + 0x1_0000 * ByteOf(value, 2) + 0x100_0000 * ByteOf(value, 3)
         == value
  {
    hide DataByte, ByteOf;
    SplitBytes(value);
    SameByteOf(value, 0);
    SameByteOf(value, 1);
    SameByteOf(value, 2);
    SameByteOf(value, 3);
  }
}
