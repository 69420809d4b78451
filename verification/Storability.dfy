/**
  Every value the machine can hold, tagged or not, is one the memory formats can hold: in any state
  reachable from reset its exponent is legal and its corrections are those of its own address. So what
  a program stores it loads back unchanged, and what it copies through registers is copied exactly.
 */
module Storability {
  import opened CapTypes
  import opened Bounds
  import opened BoundsCircuit
  import opened Rounding
  import opened Codecs
  import opened CodecProofs
  import opened CodecInverse
  import opened ExStage
  import opened TaggedMemory
  import opened Core
  import opened Monotone
  import opened ResetState
  import BitFields
  import Bits

  predicate StorableVal(v: RegVal) {
    Storable(v.cap, v.data)
  }

  predicate StorableIn(i: ExIn) {
    StorableVal(i.a) && StorableVal(i.b) && StorableVal(i.csr) && LegalExp(i.pcc.exp)
  }

  // ---------------------------------------------------------------- results of instructions

  lemma IntStorable(n: U32)
    ensures Storable(NULL_REG_CAP, n)
  {
    hide Mid9;
  }

  /** Tag, seal and permission changes are not seen by the encodings. */
  lemma RelabelStorable(c: RegCap, d: RegCap, addr: U32)
    requires Storable(c, addr) && d == c.(valid := d.valid, otype := d.otype, cperms := d.cperms)
    ensures Storable(d, addr)
  {
    hide Mid9, UpdateTempFields;
  }

  /** An address move recomputes the corrections. */
  lemma MovedStorable(f: FullCap, newptr: U32)
    requires LegalExp(f.exp)
    ensures Storable(Full2RegCap(SetAddress(f, newptr)), newptr)
  {
    hide Bits.And, Bits.Shl, Mid9, UpdateTempFields;
  }

  /** A base field equal to the address bits beside it needs no correction. */
  lemma AtBaseStorable(c: RegCap, addr: U32)
    requires LegalExp(c.exp) && c.base == Mid9(addr, c.exp)
    requires !c.baseCor && c.topCor == (if c.top >= c.base then 0 else 1)
    ensures Storable(c, addr)
  {
    hide Mid9;
  }

  lemma BoundsStorable(i: ExIn)
    ensures StorableVal(BoundsOut(i).res)
  {
    hide SetBounds, SetBoundsRoundDown, PrepBoundReq, BoundsLength, Storable;
    var f, addr, len := FullA(i), i.a.data, BoundsLength(i);
    var t := if i.op.CSetBoundsRndn? then SetBoundsRoundDown(f, addr, PrepBoundReq(f, addr, len))
             else SetBounds(f, addr, PrepBoundReq(f, addr, len), i.op.CSetBoundsEx?);
    if i.op.CSetBoundsRndn? {
      RoundedDownStorable(f, addr, len);
    } else {
      SetStorable(f, addr, len, i.op.CSetBoundsEx?);
    }
    RelabelStorable(Full2RegCap(t), BoundsOut(i).res.cap, addr);
  }

  lemma SetStorable(f: FullCap, addr: U32, length: U32, exact: bool)
    ensures Storable(Full2RegCap(SetBounds(f, addr, PrepBoundReq(f, addr, length), exact)), addr)
  {
    hide SetBounds, PrepBoundReq, Bits.Low, Bits.Shr, Span, ChosenExp, CeilShr, Shl32, Storable;
    SetBoundsComputes(f, addr, length, exact);
    ChoiceIsLeast(addr, length);
    AtBaseStorable(Full2RegCap(SetBounds(f, addr, PrepBoundReq(f, addr, length), exact)), addr);
  }

  lemma RoundedDownStorable(f: FullCap, addr: U32, length: U32)
    ensures Storable(Full2RegCap(SetBoundsRoundDown(f, addr, PrepBoundReq(f, addr, length))), addr)
  {
    hide Bits.Shr, ExpLen, TrailingZeros, Storable;
    AtBaseStorable(Full2RegCap(SetBoundsRoundDown(f, addr, PrepBoundReq(f, addr, length))), addr);
  }

  lemma LegalizedStorable(i: ExIn, aligned: U32)
    requires StorableIn(i)
    ensures StorableVal(Legalized(i, aligned))
  {
    hide SetAddress, Storable, Base32, Top33, ExpandPerms;
    var r := Full2RegCap(SetAddress(FullA(i), aligned));
    LegalSource(i);
    MovedStorable(FullA(i), aligned);
    RelabelStorable(r, Legalized(i, aligned).cap, aligned);
  }

  lemma LegalSource(i: ExIn)
    requires StorableIn(i)
    ensures LegalExp(FullA(i).exp) && LegalExp(Pcc2FullCap(i.pcc).exp)
  {
    hide Base32, Top33, ExpandPerms, CorsAt;
  }

  lemma AddrStorable(i: ExIn)
    requires StorableIn(i)
    ensures StorableVal(AddrOut(i).res)
  {
    hide SetAddress, Storable, Reg2FullCap, Pcc2FullCap, AddrResult;
    var src := if i.op.CAuipcc? then Pcc2FullCap(i.pcc) else FullA(i);
    LegalSource(i);
    MovedStorable(src, AddrResult(i));
    RelabelStorable(Full2RegCap(SetAddress(src, AddrResult(i))), AddrOut(i).res.cap, AddrResult(i));
  }

  lemma LinkStorable(i: ExIn)
    requires StorableIn(i)
    ensures StorableVal(RegVal(LinkCap(i), PcIdNext(i)))
  {
    hide SetAddress, Storable, PcIdNext, Pcc2FullCap, Reg2FullCap;
    LegalSource(i);
    MovedStorable(Pcc2FullCap(i.pcc), PcIdNext(i));
    RelabelStorable(Full2RegCap(SetAddress(Pcc2FullCap(i.pcc), PcIdNext(i))), LinkCap(i), PcIdNext(i));
  }

  lemma RelabelsStorable(i: ExIn)
    requires StorableIn(i)
    ensures StorableVal(SealOut(i).res) && StorableVal(UnsealOut(i).res) && StorableVal(AndPermOut(i).res)
  {
    hide Storable, Base32, Top33, ExpandPerms, CompressPerms, PermsOf, AddrBoundVio, PermVio;
    RelabelStorable(i.a.cap, SealOut(i).res.cap, i.a.data);
    RelabelStorable(i.a.cap, UnsealOut(i).res.cap, i.a.data);
    RelabelStorable(i.a.cap, AndPermOut(i).res.cap, i.a.data);
  }

  /** CSETHIGH decodes two arbitrary registers. */
  lemma SetHighStorable(i: ExIn)
    ensures Storable(Mem2RegCap0(i.b.data, i.a.data, NO_CLR), i.a.data)
  {
    hide Mem2RegCap0, Storable;
    LoadedStorable0(i.b.data, i.a.data, NO_CLR);
  }

  lemma ResultStorable(i: ExIn)
    requires StorableIn(i)
    ensures StorableVal(MainEx(i).res)
  {
    hide Storable, SealOut, UnsealOut, AndPermOut, AddrOut, BoundsOut, Legalized, LinkCap, Mem2RegCap0, PermVio;
    hide Reg2FullCap, HighWord, RrlRam, SubsetResult, EqualResult, PermsBits, CapLen, DecodeOtype, Wrap32, PcIdNext;
    IntStorable(MainEx(i).res.data);
    match i.op {
      case CSeal => RelabelsStorable(i);
      case CUnseal => RelabelsStorable(i);
      case CAndPerm => RelabelsStorable(i);
      case CSetHigh => SetHighStorable(i);
      case CSetAddr => AddrStorable(i);
      case CIncAddr => AddrStorable(i);
      case CIncAddrImm => AddrStorable(i);
      case CAuicgp => AddrStorable(i);
      case CAuipcc => AddrStorable(i);
      case CSetBounds => BoundsStorable(i);
      case CSetBoundsImm => BoundsStorable(i);
      case CSetBoundsEx => BoundsStorable(i);
      case CSetBoundsRndn => BoundsStorable(i);
      case CClearTag => RelabelStorable(i.a.cap, i.a.cap.(valid := false), i.a.data);
      case CJalr => LinkStorable(i);
      case CJal => LinkStorable(i);
      case _ =>
    }
  }

  lemma CsrWriteStorable(i: ExIn)
    requires StorableIn(i) && i.op.CCsrRw?
    ensures StorableVal(CsrOut(i).csrW)
  {
    hide Storable, Legalized, PermVio, Align2, Align4;
    LegalizedStorable(i, Align4(i.a.data));
    LegalizedStorable(i, Align2(i.a.data));
  }

  lemma JumpPccLegal(i: ExIn)
    requires StorableIn(i) && i.op.CJalr? && JumpOut(i).branch
    ensures LegalExp(JumpOut(i).pcc.exp)
  {
    hide PermVio, LinkCap, PcIdNext, AddrResult, LegalExp;
    LegalSource(i);
  }

  // ---------------------------------------------------------------- one step

  predicate StorableAt(cfg: Config, s: State, l: Loc) {
    if l.InPcc? then LegalExp(s.pcc.exp) else StorableVal(ValAt(cfg, s, l))
  }

  ghost predicate AllStorable(cfg: Config, s: State) {
    forall l: Loc :: StorableAt(cfg, s, l)
  }

  lemma StorableEverywhere(cfg: Config, s: State, l: Loc)
    requires AllStorable(cfg, s)
    ensures StorableAt(cfg, s, l)
  {
  }

  lemma MemStorable(cfg: Config, s: State, g: int)
    ensures StorableAt(cfg, s, InMem(g))
  {
    hide LoadCap, Storable;
    LoadStorable(cfg, s.mem, 2 * g, NO_CLR);
  }

  lemma StorableOperands(cfg: Config, s: State, ev: Event)
    requires AllStorable(cfg, s) && ev.Exec?
    ensures StorableIn(Operands(cfg, s, ev))
  {
    hide Storable, LoadCap, AllStorable, LegalExp;
    StorableEverywhere(cfg, s, InReg(ev.rs1));
    StorableEverywhere(cfg, s, InReg(ev.rs2));
    StorableEverywhere(cfg, s, InScr(ev.cs2));
    StorableEverywhere(cfg, s, InPcc);
  }

  lemma CommitStorable(cfg: Config, s: State, ev: Event, l: Loc)
    requires AllStorable(cfg, s) && ev.Exec? && !ev.op.CLoadCap? && !ev.op.CStoreCap?
    ensures StorableAt(cfg, Step(cfg, s, ev), l)
  {
    hide Storable, LoadCap, MainEx, Operands, Step, Commit, ValAt, AllStorable, LegalExp, CsrOut, JumpOut;
    var i := Operands(cfg, s, ev);
    var o := MainEx(i);
    StepIsCommit(cfg, s, ev);
    CommitAt(cfg, s, i, o, l);
    StorableOperands(cfg, s, ev);
    StorableEverywhere(cfg, s, l);
    OnlyCsrWrites(i);
    if l == InReg(ev.rd) && ev.rd != 0 && o.we {
      ResultStorable(i);
    } else if l == InScr(ev.cs2) && o.csrWe && SCR_MTCC <= ev.cs2 {
      CsrOutIs(i);
      CsrWriteStorable(i);
    } else if l == InPcc && o.branch {
      JumpOutIs(i);
      JumpPccLegal(i);
    }
  }

  lemma LoadStepStorable(cfg: Config, s: State, ev: Event, l: Loc)
    requires AllStorable(cfg, s) && ev.Exec? && ev.op.CLoadCap?
    ensures StorableAt(cfg, Step(cfg, s, ev), l)
  {
    hide Storable, LoadCap, AllStorable, LegalExp, LsuErr, LsAddr, LoadClr;
    var i := Operands(cfg, s, ev);
    StorableEverywhere(cfg, s, l);
    LoadStorable(cfg, s.mem, LsAddr(i) / 4, LoadClr(i));
  }

  lemma StoreStepStorable(cfg: Config, s: State, ev: Event, l: Loc)
    requires AllStorable(cfg, s) && ev.Exec? && ev.op.CStoreCap? && !l.InMem?
    ensures StorableAt(cfg, Step(cfg, s, ev), l)
  {
    hide Storable, LoadCap, AllStorable, LegalExp, LsuErr, LsAddr, StoredCap, StoreCap;
    StorableEverywhere(cfg, s, l);
  }

  lemma TrapStorable(cfg: Config, s: State, ev: Event, l: Loc)
    requires AllStorable(cfg, s) && (ev.Trap? || ev.Mret?)
    ensures StorableAt(cfg, Step(cfg, s, ev), l)
  {
    hide Storable, LoadCap, AllStorable, Pcc2Mepcc, Base32, Top33, ExpandPerms;
    StorableEverywhere(cfg, s, l);
    StorableEverywhere(cfg, s, InPcc);
    StorableEverywhere(cfg, s, InScr(if ev.Trap? then SCR_MTCC else SCR_MEPCC));
    if l == InPcc {
      ScrLegal(s, if ev.Trap? then SCR_MTCC else SCR_MEPCC);
    } else if ev.Trap? && l == InScr(SCR_MEPCC) {
      MepccStorable(s.pcc, ev.epc, ev.clrtag);
    }
  }

  lemma ScrLegal(s: State, n: U5)
    requires StorableVal(Scr(s, n))
    ensures LegalExp(Full2PccCap(Reg2FullCap(Scr(s, n).cap, Scr(s, n).data)).exp)
  {
    hide CorsAt, Base32, Top33, ExpandPerms;
  }

  lemma MepccStorable(p: PccCap, epc: U32, clrtag: bool)
    requires LegalExp(p.exp)
    ensures Storable(Pcc2Mepcc(p, epc, clrtag), epc)
  {
    hide SetAddress, Storable;
    var r := Full2RegCap(SetAddress(Pcc2FullCap(p), epc));
    MovedStorable(Pcc2FullCap(p), epc);
    RelabelStorable(r, Pcc2Mepcc(p, epc, clrtag), epc);
  }

  /** Integer writes, revocations and interrupt-enable changes. */
  lemma OtherStorable(cfg: Config, s: State, ev: Event, l: Loc)
    requires AllStorable(cfg, s) && !ev.Exec? && !ev.Trap? && !ev.Mret? && !l.InMem?
    ensures StorableAt(cfg, Step(cfg, s, ev), l)
  {
    hide Storable, LoadCap, AllStorable, LegalExp, StoreBytes, ClearTag, Rv32Err, LoadBits, RegFull;
    StorableEverywhere(cfg, s, l);
    match ev {
      case IntResult(_, value) => IntStorable(value);
      case LoadInt(_, addr, z, signed, _) => IntStorable(LoadBits(s.mem, addr, z, signed));
      case MepccRestore(value) => IntStorable(value);
      case RevokeReg(r) =>
        StorableEverywhere(cfg, s, InReg(r));
        RelabelStorable(Reg(s, r).cap, Reg(s, r).cap.(valid := false), Reg(s, r).data);
      case _ =>
    }
  }

  /** Whatever happens, every value stays one the encodings can hold. */
  lemma StepStorable(cfg: Config, s: State, ev: Event)
    requires AllStorable(cfg, s)
    ensures AllStorable(cfg, Step(cfg, s, ev))
  {
    hide StorableAt, Step;
    forall l: Loc
      ensures StorableAt(cfg, Step(cfg, s, ev), l)
    {
      if l.InMem? {
        MemStorable(cfg, Step(cfg, s, ev), l.g);
      } else if ev.Trap? || ev.Mret? {
        TrapStorable(cfg, s, ev, l);
      } else if !ev.Exec? {
        OtherStorable(cfg, s, ev, l);
      } else if ev.op.CLoadCap? {
        LoadStepStorable(cfg, s, ev, l);
      } else if ev.op.CStoreCap? {
        StoreStepStorable(cfg, s, ev, l);
      } else {
        CommitStorable(cfg, s, ev, l);
      }
    }
  }

  // ---------------------------------------------------------------- whole runs

  lemma ResetStorable(cfg: Config, mtvec: U32, mepc: U32, bytes: map<int, U8>)
    ensures AllStorable(cfg, Out(mtvec, mepc, bytes))
  {
    hide Storable, LoadCap;
    var s := Out(mtvec, mepc, bytes);
    forall l: Loc
      ensures StorableAt(cfg, s, l)
    {
      match l
      case InReg(r) => IntStorable(0);
      case InPcc =>
      case InScr(n) =>
        IntStorable(0);
        RootStorable(Scr(s, n).cap.cperms, Scr(s, n).data);
      case InMem(g) => MemStorable(cfg, s, g);
    }
  }

  lemma RootStorable(p: CPerms, addr: U32)
    ensures Storable(RootCap(p), addr)
  {
    hide GetBound33, FieldsOf, InWindow, BoundsOk;
    RootDecodes(p, addr);
    WellFormedStorable(RegVal(RootCap(p), addr));
  }

  /** In every state reachable from reset, every register, special register and memory granule. */
  lemma {:induction false} RunStorable(cfg: Config, mtvec: U32, mepc: U32, bytes: map<int, U8>, evs: seq<Event>)
    ensures AllStorable(cfg, Run(cfg, Out(mtvec, mepc, bytes), evs))
    decreases |evs|
  {
    hide AllStorable, Step, Out;
    if |evs| == 0 {
      ResetStorable(cfg, mtvec, mepc, bytes);
    } else {
      RunStorable(cfg, mtvec, mepc, bytes, evs[..|evs| - 1]);
      StepStorable(cfg, Run(cfg, Out(mtvec, mepc, bytes), evs[..|evs| - 1]), evs[|evs| - 1]);
    }
  }

  /**
    Every value of every state reachable from reset, tagged or not, comes back from memory as it was,
    and the exponent of the PCC is legal.
   */
  lemma ReachableSurvivesMemory(cfg: Config, mtvec: U32, mepc: U32, bytes: map<int, U8>, evs: seq<Event>,
                                l: Loc, m: Mem, w: int)
    ensures
      var s := Run(cfg, Out(mtvec, mepc, bytes), evs);
      && LegalExp(s.pcc.exp)
      && (!l.InPcc? ==> LoadCap(cfg, StoreCap(cfg, m, w, ValAt(cfg, s, l)), w, NO_CLR) == ValAt(cfg, s, l))
  {
    hide AllStorable, Run, Out, ValAt, LoadCap, StoreCap, Storable, LegalExp;
    var s := Run(cfg, Out(mtvec, mepc, bytes), evs);
    RunStorable(cfg, mtvec, mepc, bytes, evs);
    StorableEverywhere(cfg, s, InPcc);
    if !l.InPcc? {
      StorableEverywhere(cfg, s, l);
      StoreThenLoad(cfg, m, w, ValAt(cfg, s, l));
    }
  }

  // ---------------------------------------------------------------- copying memory

  /**
    Copying a granule through a register, whatever its two words hold, copies all 64 data bits, unless
    a tagged load takes permissions away; the copy is tagged exactly when the loaded value was.
   */
  lemma CopyKeepsData(cfg: Config, m: Mem, w: int, clr: ClrPerm, w': int)
    requires PermsKept(LoadCap(cfg, m, w, clr).cap.valid, clr)
    ensures
      var v := LoadCap(cfg, m, w, clr);
      var m' := StoreCap(cfg, m, w', v);
      && WordAt(m', w') == TagWord(v.cap.valid, DataOf(WordAt(m, w)))
      && WordAt(m', w' + 1) == TagWord(v.cap.valid, DataOf(WordAt(m, w + 1)))
  {
    hide Mem2RegCap0, Mem2RegCap1, Mem2RegAddr1, Reg2MemCap0, Reg2Mem1, TagWord, DataOf, WordAt, WriteWord, PermsKept;
    hide StoreCap;
    var v := LoadCap(cfg, m, w, clr);
    var msw, lsw := WordAt(m, w + 1), WordAt(m, w);
    WordsBack(cfg, m, w', v);
    if cfg.memFmt1 {
      Reencode1(msw, lsw, clr);
    } else {
      Reencode0(msw, lsw, clr);
    }
  }

  /** In format 0, CSETHIGH undoes CGETHIGH, tag aside, on exactly the values the encoding can hold. */
  lemma SetHighOfGetHigh(i: ExIn)
    requires i.op.CSetHigh? && !i.memFmt1 && i.b.data == HighWord(i)
    ensures MainEx(i).res == i.a.(cap := i.a.cap.(valid := false)) <==> StorableVal(i.a)
  {
    hide Mem2RegCap0, Reg2MemCap0, Storable, MainEx;
    var c := i.a.cap;
    SetHighResult(i);
    HighIgnoresTag(c);
    SetHighStorable(i);
    if Storable(c, i.a.data) {
      HighDecodes(c, i.a.data);
    }
    if Storable(c.(valid := false), i.a.data) {
      RelabelStorable(c.(valid := false), c, i.a.data);
    }
  }

  lemma SetHighResult(i: ExIn)
    requires i.op.CSetHigh?
    ensures MainEx(i).res == RegVal(Mem2RegCap0(i.b.data, i.a.data, NO_CLR), i.a.data)
  {
    hide Mem2RegCap0;
  }

  lemma HighDecodes(c: RegCap, addr: U32)
    requires Storable(c, addr)
    ensures Mem2RegCap0(Reg2MemCap0(c.(valid := false)), addr, NO_CLR) == c.(valid := false)
  {
    hide Mem2RegCap0, Reg2MemCap0, Storable;
    var u := c.(valid := false);
    RelabelStorable(c, u, addr);
    RoundTrip0(u, addr, NO_CLR);
    ClearedNone(u);
  }

  lemma HighIgnoresTag(c: RegCap)
    ensures Reg2MemCap0(c.(valid := false)) == DataOf(Reg2MemCap0(c))
  {
    hide BitFields.Slice, BitFields.Pack, CPermsBits, CompressExp;
    Unpack0(c, CompressExp(c.exp));
    Word0(c.(valid := false), CompressExp(c.exp), Reg2MemCap0(c));
  }
}
