/**
  Confinement over whole runs: every memory access that passes the checks lies inside the bounds of a
  capability that was tagged initially and carries the matching permission, without wrapping, and
  memory changes nowhere else.
 */
module Confinement {
  import opened CapTypes
  import opened Bounds
  import opened Codecs
  import opened ExStage
  import opened TaggedMemory
  import opened Core
  import opened Monotone
  import Bits

  datatype Access = NoAccess | Access(addr: U32, size: nat, isStore: bool)

  /** The access an event issues to memory, if any. */
  function AccessOf(cfg: Config, s: State, ev: Event): Access {
    match ev
    case Exec(op, _, _, _, _, _, _, _, _, _) =>
      var i := Operands(cfg, s, ev);
      if (op.CLoadCap? || op.CStoreCap?) && !LsuErr(i) then Access(LsAddr(i), 8, op.CStoreCap?) else NoAccess
    case LoadInt(rs1, addr, z, _, _) =>
      if Rv32Err(RegFull(s, rs1), addr, z, false) then NoAccess else Access(addr, SizeBytes(z), false)
    case StoreInt(rs1, addr, z, _) =>
      if Rv32Err(RegFull(s, rs1), addr, z, true) then NoAccess else Access(addr, SizeBytes(z), true)
    case _ => NoAccess
  }

  /** The bytes of the access are inside a, which permits it. */
  predicate Covers(a: Auth, x: Access)
    requires x.Access?
  {
    && a.base <= x.addr && x.addr + x.size <= a.top <= 0x1_0000_0000
    && (if x.isStore then a.perms.sd else a.perms.ld)
  }

  /** The authority of an access: register rs1. */
  function AuthReg(ev: Event): U5
    requires ev.Exec? || ev.LoadInt? || ev.StoreInt?
  {
    ev.rs1
  }

  lemma Rv32Covered(f: FullCap, addr: U32, z: Size, isStore: bool)
    requires !Rv32Err(f, addr, z, isStore)
    ensures f.valid && f.base32 <= addr && addr + SizeBytes(z) <= f.top33
    ensures if isStore then f.perms.sd else f.perms.ld
  {
  }

  lemma CapCovered(i: ExIn)
    requires (i.op.CLoadCap? || i.op.CStoreCap?) && !LsuErr(i)
    ensures
      var f := FullA(i);
      && f.valid && f.base32 <= LsAddr(i) && LsAddr(i) + 8 <= f.top33
      && (if i.op.CStoreCap? then f.perms.sd else f.perms.ld)
  {
    hide Reg2FullCap, LsAddr;
  }

  /** One step: an issued access is covered by the tagged capability in its address register. */
  lemma StepConfined(cfg: Config, s: State, ev: Event)
    requires Good(cfg, s) && AccessOf(cfg, s, ev).Access?
    ensures ev.Exec? || ev.LoadInt? || ev.StoreInt?
    ensures Tagged(cfg, s, InReg(AuthReg(ev)))
    ensures Covers(AuthAt(cfg, s, InReg(AuthReg(ev))), AccessOf(cfg, s, ev))
  {
    hide Rv32Err, LsuErr, LsAddr, GetBound33, ExpandPerms, FieldsOf, InWindow, LoadCap, Good, Bits.Scale, Bits.Low;
    if ev.Exec? {
      CapCovered(Operands(cfg, s, ev));
    } else {
      Rv32Covered(RegFull(s, ev.rs1), ev.addr, ev.size, ev.StoreInt?);
    }
    GoodEverywhere(cfg, s, InReg(AuthReg(ev)));
  }

  /** The authorities of the start that could cover x. */
  ghost predicate CoveredInitially(cfg: Config, s: State, x: Access)
    requires x.Access?
  {
    exists src: Loc :: Tagged(cfg, s, src) && Covers(AuthAt(cfg, s, src), x)
  }

  /**
    Confinement: in any run, the access of any step touches only bytes inside the bounds of some
    initially tagged capability with load (or store) permission, below 2^32.
   */
  lemma RunConfined(cfg: Config, s: State, evs: seq<Event>, k: nat)
    requires Good(cfg, s) && k < |evs| && forall j | 0 <= j < |evs| :: InScope(evs[j])
    requires AccessOf(cfg, Run(cfg, s, evs[..k]), evs[k]).Access?
    ensures CoveredInitially(cfg, s, AccessOf(cfg, Run(cfg, s, evs[..k]), evs[k]))
  {
    hide AuthAt, Tagged, AccessOf, Good, Run;
    var mid := Run(cfg, s, evs[..k]);
    RunMonotone(cfg, s, evs[..k]);
    StepConfined(cfg, mid, evs[k]);
    var l := InReg(AuthReg(evs[k]));
    var src: Loc :| Tagged(cfg, s, src) && AuthLe(AuthAt(cfg, mid, l), AuthAt(cfg, s, src));
    TopBound(cfg, s, src);
    assert Covers(AuthAt(cfg, s, src), AccessOf(cfg, mid, evs[k]));
  }

  lemma TopBound(cfg: Config, s: State, l: Loc)
    requires Good(cfg, s) && Tagged(cfg, s, l)
    ensures AuthAt(cfg, s, l).top <= 0x1_0000_0000
  {
    hide GetBound33, ExpandPerms, FieldsOf, InWindow, LoadCap, Good, Bits.Scale, Bits.Low;
    GoodEverywhere(cfg, s, l);
  }

  // ---------------------------------------------------------------- what changes in memory

  predicate Inside(x: Access, a: int) {
    x.Access? && x.isStore && x.addr <= a < x.addr + x.size
  }

  /** A step changes only the bytes of its own store. */
  lemma StepWritesInside(cfg: Config, s: State, ev: Event, a: int)
    requires ByteAt(Step(cfg, s, ev).mem, a) != ByteAt(s.mem, a)
    ensures Inside(AccessOf(cfg, s, ev), a)
  {
    hide Rv32Err, LsuErr, LsAddr, Reg2FullCap, MainEx, StoredWords, StoredCap, ByteAt, Operands;
    hide StoreBytes, StoreCap, LoadCap, Pcc2Mepcc, LoadBits;
    if ev.Exec? && ev.op.CStoreCap? && !LsuErr(Operands(cfg, s, ev)) {
      var i := Operands(cfg, s, ev);
      StoreExecIs(cfg, s, ev);
      AlignedStore(cfg, s, ev);
      if !(LsAddr(i) <= a < LsAddr(i) + 8) {
        StoreCapFrame(cfg, s.mem, LsAddr(i) / 4, RegVal(StoredCap(i), i.b.data), a);
      }
    } else if ev.StoreInt? && !Rv32Err(RegFull(s, ev.rs1), ev.addr, ev.size, true) {
      if !(ev.addr <= a < ev.addr + SizeBytes(ev.size)) {
        StoreFrame(s.mem, ev.addr, SizeBytes(ev.size), ev.value, a);
      }
    } else {
      OtherKeepBytes(cfg, s, ev, a);
    }
  }

  lemma StoreExecIs(cfg: Config, s: State, ev: Event)
    requires ev.Exec? && ev.op.CStoreCap? && !LsuErr(Operands(cfg, s, ev))
    ensures
      var i := Operands(cfg, s, ev);
      && i.op == ev.op
      && Step(cfg, s, ev).mem == StoreCap(cfg, s.mem, LsAddr(i) / 4, RegVal(StoredCap(i), i.b.data))
  {
    hide LsuErr, LsAddr, StoredCap, StoreCap;
  }

  lemma AlignedStore(cfg: Config, s: State, ev: Event)
    requires ev.Exec? && ev.op.CStoreCap? && !LsuErr(Operands(cfg, s, ev))
    ensures LsAddr(Operands(cfg, s, ev)) % 8 == 0
  {
    hide LsuErr, LsAddr;
    AlignedAddr(Operands(cfg, s, ev));
  }

  lemma StoreCapFrame(cfg: Config, m: Mem, w: int, v: RegVal, a: int)
    requires !(4 * w <= a < 4 * w + 8)
    ensures ByteAt(StoreCap(cfg, m, w, v), a) == ByteAt(m, a)
  {
    hide StoredWords, ByteAt, StoreBytes;
    var ws := StoredWords(cfg, v);
    StoreFrame(m, 4 * w, 4, DataOf(ws.lsw), a);
    StoreFrame(WriteWord(m, w, ws.lsw), 4 * (w + 1), 4, DataOf(ws.msw), a);
    WriteWordBytes(m, w, ws.lsw, a);
    WriteWordBytes(WriteWord(m, w, ws.lsw), w + 1, ws.msw, a);
  }

  lemma WriteWordBytes(m: Mem, w: int, v: U33, a: int)
    ensures ByteAt(WriteWord(m, w, v), a) == ByteAt(StoreBytes(m, 4 * w, 4, DataOf(v)), a)
  {
    hide StoreBytes;
  }

  lemma OtherKeepBytes(cfg: Config, s: State, ev: Event, a: int)
    requires !(ev.Exec? && ev.op.CStoreCap? && !LsuErr(Operands(cfg, s, ev)))
    requires !(ev.StoreInt? && !Rv32Err(RegFull(s, ev.rs1), ev.addr, ev.size, true))
    ensures ByteAt(Step(cfg, s, ev).mem, a) == ByteAt(s.mem, a)
  {
    hide Rv32Err, LsuErr, LsAddr, Reg2FullCap, MainEx, LoadCap, Pcc2Mepcc, LoadBits, StoreBytes, StoreCap;
  }

  /** Over a run: a byte that changed lies inside an initially tagged capability with store permission. */
  lemma {:induction false} RunWritesConfined(cfg: Config, s: State, evs: seq<Event>, a: int)
    requires Good(cfg, s) && forall j | 0 <= j < |evs| :: InScope(evs[j])
    requires ByteAt(Run(cfg, s, evs).mem, a) != ByteAt(s.mem, a)
    ensures exists src: Loc :: Tagged(cfg, s, src)
              && AuthAt(cfg, s, src).base <= a < AuthAt(cfg, s, src).top <= 0x1_0000_0000
              && AuthAt(cfg, s, src).perms.sd
    decreases |evs|
  {
    hide AuthAt, Tagged, AccessOf, Good, Step, ByteAt;
    if |evs| > 0 {
      var k := |evs| - 1;
      var mid := Run(cfg, s, evs[..k]);
      if ByteAt(mid.mem, a) != ByteAt(s.mem, a) {
        RunWritesConfined(cfg, s, evs[..k], a);
      } else {
        StepWritesInside(cfg, mid, evs[k], a);
        RunConfined(cfg, s, evs, k);
      }
    }
  }

  // ---------------------------------------------------------------- what a load depends on

  /** The two memories agree on the bytes of the access and on the tags of its words. */
  predicate AgreeOn(m: Mem, m': Mem, x: Access)
    requires x.Access?
  {
    && (forall a | x.addr <= a < x.addr + x.size :: ByteAt(m, a) == ByteAt(m', a))
    && (x.addr / 4 in m.tags <==> x.addr / 4 in m'.tags)
    && (x.addr / 4 + 1 in m.tags <==> x.addr / 4 + 1 in m'.tags)
  }

  lemma LoadCapReads(cfg: Config, s: State, ev: Event, m': Mem)
    requires ev.Exec? && ev.op.CLoadCap?
    requires AccessOf(cfg, s, ev).Access? ==> AgreeOn(s.mem, m', AccessOf(cfg, s, ev))
    ensures Step(cfg, s.(mem := m'), ev).regs == Step(cfg, s, ev).regs
  {
    hide LsuErr, LsAddr, LoadCap, LoadClr, ByteAt;
    var i := Operands(cfg, s, ev);
    if !LsuErr(i) {
      AlignedAddr(i);
      var w := LsAddr(i) / 4;
      SameWord(s.mem, m', w);
      SameWord(s.mem, m', w + 1);
      SameLoadClr(cfg, s.mem, m', w, LoadClr(i));
    }
  }

  lemma LoadIntReads(cfg: Config, s: State, ev: Event, m': Mem)
    requires ev.LoadInt?
    requires AccessOf(cfg, s, ev).Access? ==> AgreeOn(s.mem, m', AccessOf(cfg, s, ev))
    ensures Step(cfg, s.(mem := m'), ev).regs == Step(cfg, s, ev).regs
  {
    hide Rv32Err, Reg2FullCap, LoadBits, ByteAt;
    if !Rv32Err(RegFull(s, ev.rs1), ev.addr, ev.size, false) {
      SameBits(s.mem, m', ev.addr, ev.size, ev.signed);
    }
  }

  lemma ExecReads(cfg: Config, s: State, ev: Event, m': Mem)
    requires ev.Exec? && !ev.op.CLoadCap?
    ensures Step(cfg, s.(mem := m'), ev).regs == Step(cfg, s, ev).regs
  {
    hide LsuErr, LsAddr, MainEx, StoreCap, StoredCap, Commit;
    var i := Operands(cfg, s, ev);
    if ev.op.CStoreCap? {
    } else {
      CommitReads(s, i, MainEx(i), m');
    }
  }

  lemma CommitReads(s: State, i: ExIn, o: ExOut, m': Mem)
    ensures Commit(s.(mem := m'), i, o).regs == Commit(s, i, o).regs
  {
    hide SetScr;
    ScrKeepsRegs(s, i.cs2, o.csrW);
    ScrKeepsRegs(s.(mem := m'), i.cs2, o.csrW);
  }

  lemma ScrKeepsRegs(s: State, n: U5, v: RegVal)
    ensures SetScr(s, n, v).regs == s.regs
  {
  }

  lemma OtherReads(cfg: Config, s: State, ev: Event, m': Mem)
    requires !ev.Exec? && !ev.LoadInt?
    ensures Step(cfg, s.(mem := m'), ev).regs == Step(cfg, s, ev).regs
  {
    hide Rv32Err, Reg2FullCap, Pcc2Mepcc, StoreBytes, ClearTag;
  }

  /** An access reads nothing but its own bytes: the register file afterwards depends on no other memory. */
  lemma LoadsReadInside(cfg: Config, s: State, ev: Event, m': Mem)
    requires AccessOf(cfg, s, ev).Access? ==> AgreeOn(s.mem, m', AccessOf(cfg, s, ev))
    ensures Step(cfg, s.(mem := m'), ev).regs == Step(cfg, s, ev).regs
  {
    hide AccessOf, Step;
    if ev.LoadInt? {
      LoadIntReads(cfg, s, ev, m');
    } else if !ev.Exec? {
      OtherReads(cfg, s, ev, m');
    } else if ev.op.CLoadCap? {
      LoadCapReads(cfg, s, ev, m');
    } else {
      ExecReads(cfg, s, ev, m');
    }
  }

  lemma SameBits(m: Mem, m': Mem, addr: U32, z: Size, signed: bool)
    requires forall a: int | addr <= a < addr + SizeBytes(z) :: ByteAt(m, a) == ByteAt(m', a)
    ensures LoadBits(m, addr, z, signed) == LoadBits(m', addr, z, signed)
  {
    hide ByteAt;
  }

  lemma SameLoadClr(cfg: Config, m: Mem, m': Mem, w: int, clr: ClrPerm)
    requires WordAt(m, w) == WordAt(m', w) && WordAt(m, w + 1) == WordAt(m', w + 1)
    ensures LoadCap(cfg, m, w, clr) == LoadCap(cfg, m', w, clr)
  {
    hide Mem2RegCap0, Mem2RegCap1, Mem2RegAddr1, WordAt;
  }
}
