/**
  The capability machine: registers, PCC, special capability registers and tagged memory, and one
  transition per instruction or environment event. Accesses to ZTOPC belong to the stack zeroiser
  and are not steps of this machine.
 */
module Core {
  import opened CapTypes
  import opened Bounds
  import opened Codecs
  import opened ExStage
  import opened TaggedMemory

  type RegFile = r: seq<RegVal> | |r| == 32 witness seq(32, i => NULL_VAL)

  /** Fixed choices: the memory format and whether tag-clearing results fault. */
  datatype Config = Config(memFmt1: bool, tclrFault: bool)

  datatype State = State(regs: RegFile, pcc: PccCap, mtcc: RegVal, mtdc: RegVal, mscratchc: RegVal,
                         mepcc: RegVal, mie: bool, mem: Mem)

  datatype Event =
    | Exec(op: Op, rs1: U5, rs2: U5, rd: U5, imm12: U12, imm20: U20, imm21: U21, cs2: U5, pcId: U32, compressed: bool)
    | IntResult(rd: U5, value: U32)
    | LoadInt(rs1: U5, addr: U32, size: Size, signed: bool, rd: U5)
    | StoreInt(rs1: U5, addr: U32, size: Size, value: U32)
    | Trap(epc: U32, clrtag: bool)
    | Mret(mieBack: bool)
    | MepccRestore(value: U32)
    | WriteMie(mieNew: bool)
    | RevokeReg(r: U5)
    | RevokeWord(w: int)

  /** Everything but accesses to ZTOPC. */
  predicate InScope(ev: Event) {
    !(ev.Exec? && ev.op.CCsrRw? && ev.cs2 == SCR_ZTOPC)
  }

  function Reg(s: State, r: U5): RegVal {
    if r == 0 then NULL_VAL else s.regs[r]
  }

  function SetReg(s: State, r: U5, v: RegVal): State {
    if r == 0 then s else s.(regs := s.regs[r := v])
  }

  function Scr(s: State, n: U5): RegVal {
    if n == SCR_MTCC then s.mtcc
    else if n == SCR_MTDC then s.mtdc
    else if n == SCR_MSCRATCHC then s.mscratchc
    else if n == SCR_MEPCC then s.mepcc
    else NULL_VAL
  }

  function SetScr(s: State, n: U5, v: RegVal): State {
    if n == SCR_MTCC then s.(mtcc := v)
    else if n == SCR_MTDC then s.(mtdc := v)
    else if n == SCR_MSCRATCHC then s.(mscratchc := v)
    else if n == SCR_MEPCC then s.(mepcc := v)
    else s
  }

  function Operands(cfg: Config, s: State, ev: Event): ExIn
    requires ev.Exec?
  {
    ExIn(ev.op, Reg(s, ev.rs1), Reg(s, ev.rs2), ev.rs1, ev.rd, s.pcc, ev.pcId, ev.compressed, ev.imm12,
         ev.imm20, ev.imm21, ev.cs2, Scr(s, ev.cs2), s.mie, cfg.tclrFault, cfg.memFmt1)
  }

  // ---------------------------------------------------------------- capability memory path

  /** The register form of the granule whose lower word is w. */
  function LoadCap(cfg: Config, m: Mem, w: int, clr: ClrPerm): RegVal {
    var msw, lsw := WordAt(m, w + 1), WordAt(m, w);
    if cfg.memFmt1 then
      var c := Mem2RegCap1(msw, lsw, clr);
      RegVal(c, Mem2RegAddr1(msw, lsw, c.exp))
    else
      RegVal(Mem2RegCap0(msw, lsw, clr), DataOf(lsw))
  }

  function StoredWords(cfg: Config, v: RegVal): Words {
    if cfg.memFmt1 then Reg2Mem1(v.cap, v.data)
    else Words(Reg2MemCap0(v.cap), TagWord(v.cap.valid, v.data))
  }

  function StoreCap(cfg: Config, m: Mem, w: int, v: RegVal): Mem {
    var ws := StoredWords(cfg, v);
    WriteWord(WriteWord(m, w, ws.lsw), w + 1, ws.msw)
  }

  // ---------------------------------------------------------------- integer memory path

  function LoadBits(m: Mem, addr: U32, z: Size, signed: bool): U32 {
    match z
    case Byte =>
      var b := ByteAt(m, addr);
      if signed && b >= 0x80 then b + 0xFFFF_FF00 else b
    case Half =>
      var h := ByteAt(m, addr) + 0x100 * ByteAt(m, addr + 1);
      if signed && h >= 0x8000 then h + 0xFFFF_0000 else h
    case Word =>
      ByteAt(m, addr) + 0x100 * ByteAt(m, addr + 1) + 0x1_0000 * ByteAt(m, addr + 2) + 0x100_0000 * ByteAt(m, addr + 3)
  }

  // ---------------------------------------------------------------- steps

  function StepLoadCap(cfg: Config, s: State, i: ExIn): State {
    if LsuErr(i) then s else SetReg(s, i.waddr, LoadCap(cfg, s.mem, LsAddr(i) / 4, LoadClr(i)))
  }

  function StepStoreCap(cfg: Config, s: State, i: ExIn): State {
    if LsuErr(i) then s
    else s.(mem := StoreCap(cfg, s.mem, LsAddr(i) / 4, RegVal(StoredCap(i), i.b.data)))
  }

  function Commit(s: State, i: ExIn, o: ExOut): State {
    var s1 := if o.csrWe then SetScr(s, i.cs2, o.csrW) else s;
    var s2 := if o.branch then s1.(pcc := o.pcc) else s1;
    var s3 := if o.we then SetReg(s2, i.waddr, o.res) else s2;
    s3.(mie := if o.setMie then true else if o.clrMie then false else s.mie)
  }

  function StepExec(cfg: Config, s: State, i: ExIn): State {
    if i.op.CLoadCap? then StepLoadCap(cfg, s, i)
    else if i.op.CStoreCap? then StepStoreCap(cfg, s, i)
    else Commit(s, i, MainEx(i))
  }

  function RegFull(s: State, r: U5): FullCap {
    Reg2FullCap(Reg(s, r).cap, Reg(s, r).data)
  }

  function Step(cfg: Config, s: State, ev: Event): State {
    match ev
    case Exec(_, _, _, _, _, _, _, _, _, _) => StepExec(cfg, s, Operands(cfg, s, ev))
    case IntResult(rd, value) => SetReg(s, rd, RegVal(NULL_REG_CAP, value))
    case LoadInt(rs1, addr, z, signed, rd) =>
      if Rv32Err(RegFull(s, rs1), addr, z, false) then s
      else SetReg(s, rd, RegVal(NULL_REG_CAP, LoadBits(s.mem, addr, z, signed)))
    case StoreInt(rs1, addr, z, value) =>
      if Rv32Err(RegFull(s, rs1), addr, z, true) then s
      else s.(mem := StoreBytes(s.mem, addr, SizeBytes(z), value))
    case Trap(epc, clrtag) =>
      s.(mepcc := RegVal(Pcc2Mepcc(s.pcc, epc, clrtag), epc),
         pcc := Full2PccCap(Reg2FullCap(s.mtcc.cap, s.mtcc.data)), mie := false)
    case Mret(mieBack) =>
      s.(pcc := Full2PccCap(Reg2FullCap(s.mepcc.cap, s.mepcc.data)), mie := mieBack)
    case MepccRestore(value) => s.(mepcc := RegVal(NULL_REG_CAP, value))
    case WriteMie(mieNew) => s.(mie := mieNew)
    case RevokeReg(r) =>
      var v := Reg(s, r);
      SetReg(s, r, v.(cap := v.cap.(valid := false)))
    case RevokeWord(w) => s.(mem := ClearTag(s.mem, w))
  }

  function Run(cfg: Config, s: State, evs: seq<Event>): State
    decreases |evs|
  {
    if |evs| == 0 then s else Step(cfg, Run(cfg, s, evs[..|evs| - 1]), evs[|evs| - 1])
  }

  // ---------------------------------------------------------------- where capabilities live

  datatype Loc = InReg(r: U5) | InPcc | InScr(n: U5) | InMem(g: int)

  /** The capability at a location other than the PCC; granule g occupies words 2g and 2g + 1. */
  function ValAt(cfg: Config, s: State, l: Loc): RegVal
    requires !l.InPcc?
  {
    match l
    case InReg(r) => Reg(s, r)
    case InScr(n) => Scr(s, n)
    case InMem(g) => LoadCap(cfg, s.mem, 2 * g, NO_CLR)
  }

  predicate Tagged(cfg: Config, s: State, l: Loc) {
    if l.InPcc? then s.pcc.valid else ValAt(cfg, s, l).cap.valid
  }

  /** What a capability gives: a range of addresses and permissions on them. */
  datatype Auth = Auth(base: int, top: int, perms: Perms)

  function AuthOfVal(v: RegVal): Auth {
    Auth(Base32(v.cap, v.data), Top33(v.cap, v.data), ExpandPerms(v.cap.cperms))
  }

  function AuthOfPcc(p: PccCap): Auth {
    Auth(p.base32, p.top33, p.perms)
  }

  function AuthAt(cfg: Config, s: State, l: Loc): Auth {
    if l.InPcc? then AuthOfPcc(s.pcc) else AuthOfVal(ValAt(cfg, s, l))
  }

  predicate AuthLe(a: Auth, b: Auth) {
    b.base <= a.base && a.top <= b.top && PermsLe(a.perms, b.perms)
  }

  /** The invariant of tagged capabilities; PCC, MTCC and MEPCC are never tagged and sealed. */
  predicate GoodAt(cfg: Config, s: State, l: Loc) {
    Tagged(cfg, s, l) ==>
      if l.InPcc? then PccWellFormed(s.pcc) && s.pcc.otype == 0
      else
        var v := ValAt(cfg, s, l);
        && WellFormed(v.cap, v.data)
        && ((l == InScr(SCR_MTCC) || l == InScr(SCR_MEPCC)) ==> v.cap.otype == 0)
  }

  ghost predicate Good(cfg: Config, s: State) {
    forall l: Loc :: GoodAt(cfg, s, l)
  }
}
