/** The machine out of reset: three roots of authority, and nothing else tagged. */
module ResetState {
  import opened Bits
  import opened CapTypes
  import opened Bounds
  import opened ExStage
  import opened TaggedMemory
  import opened Codecs
  import opened Core
  import opened Monotone

  const CPERMS_TX := CPerms(true, false, true, true, true, true)
  const CPERMS_TM := CPerms(true, true, true, true, true, true)
  const CPERMS_TS := CPerms(true, false, false, true, true, true)

  /** 13'h1eb: GL, LG, LM, LD, MC, SR and EX. */
  const PCC_RESET_PERMS := Perms(true, true, false, true, false, true, true, true, true, false, false, false)

  const PCC_RESET_CAP := PccCap(true, RESETEXP, 0x1_0000_0000, 0, OTYPE_UNSEALED, PCC_RESET_PERMS, CPERMS_TX, false)

  /** MTVEC_RESET_CAP, MTDC_RESET_CAP, MEPC_RESET_CAP and MSCRATCHC_RESET_CAP differ in permissions only. */
  function RootCap(p: CPerms): RegCap {
    RegCap(true, 0, false, RESETEXP, 0x100, 0, OTYPE_UNSEALED, p, false)
  }

  /** Registers hold NULL; trap vector, exception address and memory contents are arbitrary, no word is tagged. */
  function Out(mtvec: U32, mepc: U32, bytes: map<int, U8>): State {
    State(seq(32, r => NULL_VAL), PCC_RESET_CAP,
          RegVal(RootCap(CPERMS_TX), mtvec), RegVal(RootCap(CPERMS_TM), 0), RegVal(RootCap(CPERMS_TS), 0),
          RegVal(RootCap(CPERMS_TX), mepc), false, Mem(bytes, {}))
  }

  /** A root capability covers all of memory at every address. */
  lemma RootDecodes(p: CPerms, addr: U32)
    ensures WellFormed(RootCap(p), addr)
    ensures Base32(RootCap(p), addr) == 0 && Top33(RootCap(p), addr) == 0x1_0000_0000
  {
    hide Low, Shr, Scale, Pow2, And, Or, GetBound33;
    UnitOfReset();
    Decode(RootCap(p), addr, 0, 0x1_0000_0000);
  }

  lemma UnitOfReset()
    ensures Shr(0, RESETEXP) == 0 && Shr(0x1_0000_0000, RESETEXP) == 0x100
    ensures Low(0, RESETEXP) == 0 && Low(0x1_0000_0000, RESETEXP) == 0
    ensures Scale(511, RESETEXP) >= 0x1_0000_0000
  {
    hide Low, Shr, Scale, Pow2;
    Pow2Literals();
    ScaleTimes(0x100, RESETEXP);
    ScaleTimes(0, RESETEXP);
    ScaleTimes(511, RESETEXP);
    SplitUnique(0x1_0000_0000, RESETEXP, 0x100, 0);
    SplitUnique(0, RESETEXP, 0, 0);
  }

  lemma MemoryUntagged(cfg: Config, m: Mem, w: int)
    requires m.tags == {}
    ensures !LoadCap(cfg, m, w, NO_CLR).cap.valid
  {
    hide Mem2RegCap0, Mem2RegCap1, Mem2RegAddr1, TagWord;
    WordUntagged(m, w);
    WordUntagged(m, w + 1);
    TagsDecide(WordAt(m, w + 1), WordAt(m, w), NO_CLR);
  }

  lemma WordUntagged(m: Mem, w: int)
    requires m.tags == {}
    ensures !TagOf(WordAt(m, w))
  {
    hide TagWord;
    TagWordParts(false, ByteAt(m, 4 * w) + 0x100 * ByteAt(m, 4 * w + 1)
                 + 0x1_0000 * ByteAt(m, 4 * w + 2) + 0x100_0000 * ByteAt(m, 4 * w + 3));
  }

  /** All tagged capabilities of the reset state are well-formed. */
  lemma ResetGood(cfg: Config, mtvec: U32, mepc: U32, bytes: map<int, U8>)
    ensures Good(cfg, Out(mtvec, mepc, bytes))
  {
    hide WellFormed, LoadCap, Base32, Top33, ExpandPerms;
    var s := Out(mtvec, mepc, bytes);
    forall l: Loc
      ensures GoodAt(cfg, s, l)
    {
      match l
      case InReg(r) =>
      case InPcc =>
        PccGood();
      case InScr(n) =>
        RootDecodes(Scr(s, n).cap.cperms, Scr(s, n).data);
      case InMem(g) =>
        MemoryUntagged(cfg, s.mem, 2 * g);
    }
  }

  lemma PccGood()
    ensures PccWellFormed(PCC_RESET_CAP)
  {
    hide Low, Shr, Scale, Pow2;
    UnitOfReset();
  }

  /** The three roots. */
  function RootAuth(p: CPerms): Auth { Auth(0, 0x1_0000_0000, ExpandPerms(p)) }

  /** Execution: GL, LG, LM, LD, MC, SR, EX. Memory: GL, LG, SD, LM, SL, LD, MC. Sealing: GL, US, SE, U0. */
  const EXECUTION := Perms(true, true, false, true, false, true, true, true, true, false, false, false)
  const MEMORY := Perms(true, true, true, true, true, true, true, false, false, false, false, false)
  const SEALING := Perms(true, false, false, false, false, false, false, false, false, true, true, true)

  /** An unsealed tagged capability for all of memory with permissions p. */
  predicate IsRoot(v: RegVal, p: Perms) {
    v.cap.valid && v.cap.otype == 0 && AuthOfVal(v) == Auth(0, 0x1_0000_0000, p)
  }

  /** Where software finds the roots: PCC and registers 28 and 31 execution, 29 memory, 30 sealing; no other tag. */
  lemma RootsByNumber(cfg: Config, mtvec: U32, mepc: U32, bytes: map<int, U8>, r: U5, g: int)
    ensures
      var s := Out(mtvec, mepc, bytes);
      && s.pcc.valid && s.pcc.otype == 0 && AuthOfPcc(s.pcc) == Auth(0, 0x1_0000_0000, EXECUTION)
      && IsRoot(Scr(s, 28), EXECUTION) && Scr(s, 28).data == mtvec
      && IsRoot(Scr(s, 31), EXECUTION) && Scr(s, 31).data == mepc
      && IsRoot(Scr(s, 29), MEMORY) && IsRoot(Scr(s, 30), SEALING)
      && Reg(s, r) == NULL_VAL && !LoadCap(cfg, s.mem, 2 * g, NO_CLR).cap.valid && !s.mie
  {
    hide WellFormed, LoadCap, Base32, Top33;
    RootDecodes(CPERMS_TX, mtvec);
    RootDecodes(CPERMS_TX, mepc);
    RootDecodes(CPERMS_TM, 0);
    RootDecodes(CPERMS_TS, 0);
    MemoryUntagged(cfg, Out(mtvec, mepc, bytes).mem, 2 * g);
  }

  lemma TaggedAtReset(cfg: Config, mtvec: U32, mepc: U32, bytes: map<int, U8>, l: Loc)
    requires Tagged(cfg, Out(mtvec, mepc, bytes), l)
    ensures AuthAt(cfg, Out(mtvec, mepc, bytes), l) in {RootAuth(CPERMS_TX), RootAuth(CPERMS_TM), RootAuth(CPERMS_TS)}
  {
    hide WellFormed, LoadCap, Base32, Top33;
    var s := Out(mtvec, mepc, bytes);
    match l
    case InReg(r) =>
    case InPcc =>
    case InScr(n) =>
      RootDecodes(Scr(s, n).cap.cperms, Scr(s, n).data);
    case InMem(g) =>
      MemoryUntagged(cfg, s.mem, 2 * g);
  }

  /**
    Whatever runs after reset, every tagged capability is contained in one of the execution, memory
    and sealing roots: in particular none ever has store together with execute permission.
   */
  lemma AuthorityFromRoots(cfg: Config, mtvec: U32, mepc: U32, bytes: map<int, U8>, evs: seq<Event>, l: Loc)
    requires forall k | 0 <= k < |evs| :: InScope(evs[k])
    requires Tagged(cfg, Run(cfg, Out(mtvec, mepc, bytes), evs), l)
    ensures
      var a := AuthAt(cfg, Run(cfg, Out(mtvec, mepc, bytes), evs), l);
      && (AuthLe(a, RootAuth(CPERMS_TX)) || AuthLe(a, RootAuth(CPERMS_TM)) || AuthLe(a, RootAuth(CPERMS_TS)))
      && !(a.perms.sd && a.perms.ex) && !(a.perms.se && (a.perms.ld || a.perms.sd || a.perms.ex))
  {
    hide Tagged, AuthAt, Run, Out, Good;
    var s := Out(mtvec, mepc, bytes);
    ResetGood(cfg, mtvec, mepc, bytes);
    RunMonotone(cfg, s, evs);
    var src: Loc :| Tagged(cfg, s, src) && AuthLe(AuthAt(cfg, Run(cfg, s, evs), l), AuthAt(cfg, s, src));
    TaggedAtReset(cfg, mtvec, mepc, bytes, src);
  }
}
