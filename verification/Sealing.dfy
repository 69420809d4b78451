/**
  Sealed capabilities are immutable: a tagged sealed capability is a copy of one that existed before,
  unless it was just made by CSEAL or as the link of a jump.
 */
module Sealing {
  import opened CapTypes
  import opened Bounds
  import opened BoundsCircuit
  import opened Codecs
  import opened CodecProofs
  import opened ExStage
  import opened TaggedMemory
  import opened Core
  import opened Authority
  import opened Monotone
  import opened Rounding
  import Bits

  predicate TaggedSealed(v: RegVal) {
    v.cap.valid && v.cap.otype != OTYPE_UNSEALED
  }

  /** Same address, bounds, object type and permissions; only GL may have been lost. */
  predicate SealedCopy(v: RegVal, w: RegVal) {
    && TaggedSealed(w)
    && v.data == w.data && v.cap.otype == w.cap.otype
    && Base32(v.cap, v.data) == Base32(w.cap, w.data) && Top33(v.cap, v.data) == Top33(w.cap, w.data)
    && (var p, q := ExpandPerms(v.cap.cperms), ExpandPerms(w.cap.cperms);
        p == q.(gl := p.gl) && (p.gl ==> q.gl))
  }

  predicate CopiesIfSealed(v: RegVal, w: RegVal) {
    TaggedSealed(v) ==> SealedCopy(v, w)
  }

  /** The event makes a sealed capability, by CSEAL or as a jump link, and writes it to l. */
  predicate Makes(cfg: Config, s: State, ev: Event, l: Loc) {
    && ev.Exec? && (ev.op.CSeal? || ev.op.CJal? || ev.op.CJalr?) && l == InReg(ev.rd)
    && MainEx(Operands(cfg, s, ev)).we
  }

  // ---------------------------------------------------------------- instruction results

  /** The expanded permissions of an encodable set minus GL are encodable. */
  lemma DropGlEncodable(c: CPerms, g: bool)
    ensures ExpandPerms(CompressPerms(ExpandPerms(c).(gl := g))) == ExpandPerms(c).(gl := g)
  {
    assert ExpandPerms(c).(gl := g) == ExpandPerms(c.(b5 := g));
    CompressExpand(c.(b5 := g));
  }

  lemma CopyOf(v: RegVal, c: RegCap)
    requires c == v.cap.(valid := c.valid, cperms := c.cperms) && (c.valid ==> v.cap.valid)
    requires
      var p, q := ExpandPerms(c.cperms), ExpandPerms(v.cap.cperms);
      TaggedSealed(RegVal(c, v.data)) ==> p == q.(gl := p.gl) && (p.gl ==> q.gl)
    ensures CopiesIfSealed(RegVal(c, v.data), v)
  {
    hide GetBound33, ExpandPerms;
  }

  lemma CopyItself(v: RegVal)
    ensures CopiesIfSealed(v, v)
  {
    hide GetBound33, ExpandPerms;
  }

  lemma AlmostFullMask(p: Perms, mask: Perms)
    requires mask.(gl := true) == ALL_PERMS
    ensures PermsAnd(p, mask) == p.(gl := p.gl && mask.gl)
  {
  }

  lemma AndPermCopies(i: ExIn)
    ensures CopiesIfSealed(AndPermOut(i).res, i.a)
  {
    hide GetBound33, CompressPerms, ExpandPerms, PermsOf, Top33, Base32, PermsAnd;
    var p, mask := ExpandPerms(i.a.cap.cperms), PermsOf(i.b.data);
    if AndPermOut(i).res.cap.valid && i.a.cap.otype != 0 {
      AlmostFullMask(p, mask);
      DropGlEncodable(i.a.cap.cperms, p.gl && mask.gl);
    }
    CopyOf(i.a, AndPermOut(i).res.cap);
  }

  lemma BoundsUnsealed(i: ExIn)
    requires GoodIn(i)
    ensures !TaggedSealed(BoundsOut(i).res)
  {
    hide GetBound33, ExpandPerms, Encodes, SetBounds, SetBoundsRoundDown, PrepBoundReq, BoundsLength, FromA;
    BoundsFromA(i);
    SetBoundsKeepsRest(FullA(i), i.a.data, PrepBoundReq(FullA(i), i.a.data, BoundsLength(i)), i.op.CSetBoundsEx?);
    RoundDownOtype(FullA(i), i.a.data, PrepBoundReq(FullA(i), i.a.data, BoundsLength(i)));
  }

  lemma RoundDownOtype(f: FullCap, addr: U32, req: BoundReq)
    ensures SetBoundsRoundDown(f, addr, req).otype == f.otype
  {
    hide Bits.Shr;
  }

  /** The value a sealed result is copied from. */
  function CopySrc(i: ExIn): RegVal {
    if i.op.CCsrRw? then i.csr else i.a
  }

  lemma ResultCopies(i: ExIn)
    requires GoodIn(i) && !i.op.CSeal? && !i.op.CJal? && !i.op.CJalr?
    ensures CopiesIfSealed(MainEx(i).res, CopySrc(i))
  {
    hide SealedCopy, WellFormed, UnsealOut, AndPermOut, AddrOut, BoundsOut, Legalized, LinkCap;
    hide SealOut, JumpOut, FromA, FromPcc;
    hide Mem2RegCap0, PermVio, Reg2FullCap, HighWord, RrlRam, SubsetResult, EqualResult;
    match i.op {
      case CUnseal => UnsealUnsealed(i);
      case CAndPerm => AndPermCopies(i);
      case CSetHigh => TagsDecide(i.b.data, i.a.data, NO_CLR);
      case CSetAddr => AddrFromSource(i);
      case CIncAddr => AddrFromSource(i);
      case CIncAddrImm => AddrFromSource(i);
      case CAuicgp => AddrFromSource(i);
      case CAuipcc => AddrFromSource(i);
      case CSetBounds => BoundsUnsealed(i);
      case CSetBoundsImm => BoundsUnsealed(i);
      case CSetBoundsEx => BoundsUnsealed(i);
      case CSetBoundsRndn => BoundsUnsealed(i);
      case CMoveCap => CopyItself(i.a);
      case CCsrRw => CopyItself(i.csr);
      case _ =>
    }
  }

  /**
    CSEAL and CUNSEAL undo each other: whatever an authority with both permissions seals, it unseals
    to the capability it was, GL aside if the authority is not global.
   */
  lemma SealThenUnseal(i: ExIn)
    requires i.op.CSeal? && SealOut(i).res.cap.valid && FullB(i).perms.us
    ensures
      var r := UnsealOut(i.(op := CUnseal, a := SealOut(i).res)).res;
      && TaggedSealed(SealOut(i).res)
      && r.data == i.a.data && r.cap == i.a.cap.(cperms := r.cap.cperms)
      && ExpandPerms(r.cap.cperms)
         == ExpandPerms(i.a.cap.cperms).(gl := ExpandPerms(i.a.cap.cperms).gl && FullB(i).perms.gl)
  {
    hide GetBound33, ExpandPerms, CompressPerms, AddrBoundVio, PermVio;
    SealChecks(i);
    UnsealChecks(i);
    DropGlEncodable(i.a.cap.cperms, ExpandPerms(i.a.cap.cperms).gl && FullB(i).perms.gl);
  }

  /** What a successful CSEAL has checked. */
  predicate Sealable(i: ExIn) {
    && i.a.cap.valid && !IsSealed(FullA(i)) && i.b.cap.valid && !IsSealed(FullB(i))
    && FullB(i).base32 <= i.b.data < FullB(i).top33 && !BadSealType(i)
  }

  lemma SealChecks(i: ExIn)
    requires i.op.CSeal? && SealOut(i).res.cap.valid
    ensures Sealable(i)
  {
    hide Base32, Top33, ExpandPerms;
  }

  lemma UnsealChecks(i: ExIn)
    requires i.op.CSeal? && Sealable(i) && FullB(i).perms.us
    ensures
      var j := i.(op := CUnseal, a := SealOut(i).res);
      !AddrBoundVio(j) && !PermVio(j) && IsSealed(FullA(j))
  {
    hide Base32, Top33, ExpandPerms;
  }

  lemma UnsealUnsealed(i: ExIn)
    ensures !TaggedSealed(UnsealOut(i).res)
  {
    hide Reg2FullCap, AddrBoundVio, PermVio, CompressPerms;
  }

  lemma CsrWriteCopies(i: ExIn)
    requires GoodIn(i)
    ensures CopiesIfSealed(CsrOut(i).csrW, i.a)
  {
    hide SealedCopy, WellFormed, Legalized, FromA, PermVio;
    CsrWriteFromA(i);
    LegalizedFromA(i, Align4(i.a.data));
    LegalizedFromA(i, Align2(i.a.data));
    CopyItself(i.a);
  }

  lemma ClearedCopies(v: RegVal, clr: ClrPerm)
    ensures CopiesIfSealed(RegVal(Cleared(v.cap, clr), v.data), v)
  {
    hide GetBound33, ExpandPerms, MaskClcPerms;
    MaskNarrows(v.cap.cperms, clr, v.cap.valid && !clr.tag, v.cap.otype != OTYPE_UNSEALED);
    CopyOf(v, Cleared(v.cap, clr));
  }

  lemma StoredCopies(i: ExIn)
    ensures CopiesIfSealed(RegVal(StoredCap(i), i.b.data), i.b)
  {
    hide GetBound33, ExpandPerms, StoreLocalVio;
    CopyOf(i.b, StoredCap(i));
  }

  // ---------------------------------------------------------------- one step

  /** A sealed capability at l after the event is made by it, or copies one at src. */
  predicate SealedFrom(cfg: Config, s: State, s': State, l: Loc, src: Loc)
    requires !l.InPcc?
  {
    TaggedSealed(ValAt(cfg, s', l)) ==> !src.InPcc? && SealedCopy(ValAt(cfg, s', l), ValAt(cfg, s, src))
  }

  lemma SameIsSealedFrom(cfg: Config, s: State, s': State, l: Loc)
    requires !l.InPcc? && (ValAt(cfg, s', l).cap.valid ==> ValAt(cfg, s', l) == ValAt(cfg, s, l))
    ensures SealedFrom(cfg, s, s', l, l)
  {
    hide ValAt, SealedCopy;
    CopyItself(ValAt(cfg, s, l));
  }

  lemma CommitSealed(cfg: Config, s: State, ev: Event, l: Loc)
    requires Good(cfg, s) && ev.Exec? && !ev.op.CLoadCap? && !ev.op.CStoreCap? && !l.InPcc? && !Makes(cfg, s, ev, l)
    ensures SealedStep(cfg, s, ev, l)
  {
    hide SealedCopy, LoadCap, MainEx, Operands, Step, Commit, ValAt, Good, GoodAt, CopySrc;
    var i := Operands(cfg, s, ev);
    var o := MainEx(i);
    StepIsCommit(cfg, s, ev);
    CommitAt(cfg, s, i, o, l);
    GoodOperands(cfg, s, ev);
    OperandsAre(cfg, s, ev);
    if l == InReg(ev.rd) && ev.rd != 0 && o.we {
      ResultCopies(i);
      SealedStepBy(cfg, s, ev, l, if ev.op.CCsrRw? then InScr(ev.cs2) else InReg(ev.rs1));
    } else if l == InScr(ev.cs2) && o.csrWe && SCR_MTCC <= ev.cs2 {
      OnlyCsrWrites(i);
      CsrOutIs(i);
      CsrWriteCopies(i);
      SealedStepBy(cfg, s, ev, l, InReg(ev.rs1));
    } else {
      SameIsSealedFrom(cfg, s, Step(cfg, s, ev), l);
      SealedStepBy(cfg, s, ev, l, l);
    }
  }

  lemma OperandsAre(cfg: Config, s: State, ev: Event)
    requires ev.Exec?
    ensures
      var i := Operands(cfg, s, ev);
      && i.op == ev.op && CopySrc(i) == ValAt(cfg, s, if ev.op.CCsrRw? then InScr(ev.cs2) else InReg(ev.rs1))
      && i.a == ValAt(cfg, s, InReg(ev.rs1)) && i.b == ValAt(cfg, s, InReg(ev.rs2))
  {
    hide LoadCap;
  }

  /** Some location explains a sealed capability at l. */
  ghost predicate SealedStep(cfg: Config, s: State, ev: Event, l: Loc)
    requires !l.InPcc?
  {
    exists src: Loc :: SealedFrom(cfg, s, Step(cfg, s, ev), l, src)
  }

  lemma SealedStepBy(cfg: Config, s: State, ev: Event, l: Loc, src: Loc)
    requires !l.InPcc? && SealedFrom(cfg, s, Step(cfg, s, ev), l, src)
    ensures SealedStep(cfg, s, ev, l)
  {
  }

  lemma KeptSealed(cfg: Config, s: State, ev: Event, l: Loc)
    requires !l.InPcc?
    requires ValAt(cfg, Step(cfg, s, ev), l).cap.valid ==> ValAt(cfg, Step(cfg, s, ev), l) == ValAt(cfg, s, l)
    ensures SealedStep(cfg, s, ev, l)
  {
    hide ValAt, Step, SealedFrom;
    SameIsSealedFrom(cfg, s, Step(cfg, s, ev), l);
    SealedStepBy(cfg, s, ev, l, l);
  }

  lemma LoadSealed(cfg: Config, s: State, ev: Event, l: Loc)
    requires ev.Exec? && ev.op.CLoadCap? && !l.InPcc?
    ensures SealedStep(cfg, s, ev, l)
  {
    hide SealedCopy, LoadCap, LsuErr, LsAddr, LoadClr, SealedStep;
    var i := Operands(cfg, s, ev);
    if l == InReg(ev.rd) && ev.rd != 0 && !LsuErr(i) {
      var g := LsAddr(i) / 8;
      AlignedAddr(i);
      LoadClears(cfg, s.mem, 2 * g, LoadClr(i));
      ClearedCopies(LoadCap(cfg, s.mem, 2 * g, NO_CLR), LoadClr(i));
      SealedStepBy(cfg, s, ev, l, InMem(g));
    } else {
      KeptSealed(cfg, s, ev, l);
    }
  }

  lemma StoreSealed(cfg: Config, s: State, ev: Event, l: Loc)
    requires Good(cfg, s) && ev.Exec? && ev.op.CStoreCap? && !l.InPcc?
    ensures SealedStep(cfg, s, ev, l)
  {
    hide SealedCopy, LoadCap, LsuErr, LsAddr, StoreCap, StoredCap, SealedStep, Good, GoodAt;
    var i := Operands(cfg, s, ev);
    if l.InMem? && !LsuErr(i) {
      AlignedAddr(i);
      if l.g == LsAddr(i) / 8 {
        GranuleSealed(cfg, s, ev);
      } else {
        OtherGranule(cfg, s.mem, LsAddr(i) / 8, RegVal(StoredCap(i), i.b.data), l.g);
        KeptSealed(cfg, s, ev, l);
      }
    } else {
      KeptSealed(cfg, s, ev, l);
    }
  }

  /** The granule a capability store writes. */
  lemma GranuleSealed(cfg: Config, s: State, ev: Event)
    requires Good(cfg, s) && ev.Exec? && ev.op.CStoreCap? && !LsuErr(Operands(cfg, s, ev))
    ensures SealedStep(cfg, s, ev, InMem(LsAddr(Operands(cfg, s, ev)) / 8))
  {
    hide SealedCopy, LoadCap, LsuErr, LsAddr, StoreCap, StoredCap, SealedStep, Good, GoodAt;
    hide GoodVal, From, Storable, AuthAt, Tagged;
    var i := Operands(cfg, s, ev);
    var g, v := LsAddr(i) / 8, RegVal(StoredCap(i), i.b.data);
    AlignedAddr(i);
    GoodEverywhere(cfg, s, InReg(ev.rs2));
    StoredFromB(cfg, s, ev);
    WellFormedStorable(v);
    StoreThenLoad(cfg, s.mem, 2 * g, v);
    StoredCopies(i);
    SealedStepBy(cfg, s, ev, InMem(g), InReg(ev.rs2));
  }

  /** A trap writes MEPCC. */
  lemma TrapSealed(cfg: Config, s: State, ev: Event, l: Loc)
    requires Good(cfg, s) && ev.Trap? && !l.InPcc?
    ensures SealedStep(cfg, s, ev, l)
  {
    hide SealedCopy, LoadCap, SealedStep, Good, GoodAt, Pcc2Mepcc, Reg2FullCap;
    if l == InScr(SCR_MEPCC) {
      GoodEverywhere(cfg, s, InPcc);
      GoodPccAt(cfg, s);
      MepccFromPcc(s.pcc, ev.epc, ev.clrtag);
      SealedStepBy(cfg, s, ev, l, l);
    } else {
      KeptSealed(cfg, s, ev, l);
    }
  }

  /** Other events that are not instructions of the stage only remove or keep. */
  lemma OtherSealed(cfg: Config, s: State, ev: Event, l: Loc)
    requires !ev.Exec? && !ev.Trap? && !l.InPcc?
    ensures SealedStep(cfg, s, ev, l)
  {
    hide SealedCopy, LoadCap, SealedStep, StoreBytes, Rv32Err, LoadBits, ClearTag, Reg2FullCap;
    if ev.StoreInt? && l.InMem? {
      DataStoreKeeps(cfg, s.mem, ev.addr, ev.size, ev.value, l.g);
      KeptSealed(cfg, s, ev, l);
    } else if ev.RevokeWord? && l.InMem? {
      RevokeKeeps(cfg, s.mem, ev.w, l.g);
      KeptSealed(cfg, s, ev, l);
    } else {
      KeptSealed(cfg, s, ev, l);
    }
  }

  lemma GoodPccAt(cfg: Config, s: State)
    requires GoodAt(cfg, s, InPcc)
    ensures GoodPcc(s.pcc)
  {
    hide PccWellFormed;
  }

  lemma DataStoreKeeps(cfg: Config, m: Mem, addr: U32, z: Size, value: U32, g: int)
    ensures
      var m' := StoreBytes(m, addr, SizeBytes(z), value);
      var v := LoadCap(cfg, m', 2 * g, NO_CLR);
      v.cap.valid ==> v == LoadCap(cfg, m, 2 * g, NO_CLR)
  {
    hide LoadCap, StoreBytes;
    var m' := StoreBytes(m, addr, SizeBytes(z), value);
    if LoadCap(cfg, m', 2 * g, NO_CLR).cap.valid {
      BothTags(cfg, m', 2 * g);
      TagSurvives(m, addr, SizeBytes(z), value, 2 * g);
      TagSurvives(m, addr, SizeBytes(z), value, 2 * g + 1);
      SameLoad(cfg, m, m', 2 * g);
    }
  }

  lemma RevokeKeeps(cfg: Config, m: Mem, w: int, g: int)
    ensures
      var v := LoadCap(cfg, ClearTag(m, w), 2 * g, NO_CLR);
      v.cap.valid ==> v == LoadCap(cfg, m, 2 * g, NO_CLR)
  {
    hide LoadCap;
    var m' := ClearTag(m, w);
    if LoadCap(cfg, m', 2 * g, NO_CLR).cap.valid {
      BothTags(cfg, m', 2 * g);
      SameWord(m, m', 2 * g);
      SameWord(m, m', 2 * g + 1);
      SameLoad(cfg, m, m', 2 * g);
    }
  }

  /** One step: a sealed capability that the step did not make is a copy of an earlier one. */
  lemma StepSealed(cfg: Config, s: State, ev: Event, l: Loc)
    requires Good(cfg, s) && !l.InPcc? && !Makes(cfg, s, ev, l)
    ensures SealedStep(cfg, s, ev, l)
  {
    hide SealedStep, Good;
    if ev.Exec? {
      if ev.op.CLoadCap? {
        LoadSealed(cfg, s, ev, l);
      } else if ev.op.CStoreCap? {
        StoreSealed(cfg, s, ev, l);
      } else {
        CommitSealed(cfg, s, ev, l);
      }
    } else if ev.Trap? {
      TrapSealed(cfg, s, ev, l);
    } else {
      OtherSealed(cfg, s, ev, l);
    }
  }

  // ---------------------------------------------------------------- whole runs

  /** v copies a capability that was sealed at the start. */
  ghost predicate SealedInitially(cfg: Config, s: State, v: RegVal) {
    exists src: Loc :: !src.InPcc? && SealedCopy(v, ValAt(cfg, s, src))
  }

  /** v copies what step k of the run sealed. */
  ghost predicate SealedByStep(cfg: Config, s: State, evs: seq<Event>, v: RegVal) {
    exists k, l: Loc :: 0 <= k < |evs| && !l.InPcc? && Makes(cfg, Run(cfg, s, evs[..k]), evs[k], l)
      && SealedCopy(v, ValAt(cfg, Run(cfg, s, evs[..k + 1]), l))
  }

  lemma SealedCopyTrans(u: RegVal, v: RegVal, w: RegVal)
    requires SealedCopy(u, v) && SealedCopy(v, w)
    ensures SealedCopy(u, w)
  {
    hide GetBound33, ExpandPerms;
  }

  lemma SealedCopyRefl(v: RegVal)
    requires TaggedSealed(v)
    ensures SealedCopy(v, v)
  {
    hide GetBound33, ExpandPerms;
  }

  /** Copies made before the last event are still explained after it. */
  lemma ExplainLonger(cfg: Config, s: State, evs: seq<Event>, u: RegVal, v: RegVal)
    requires |evs| > 0 && SealedCopy(u, v)
    requires SealedInitially(cfg, s, v) || SealedByStep(cfg, s, evs[..|evs| - 1], v)
    ensures SealedInitially(cfg, s, u) || SealedByStep(cfg, s, evs, u)
  {
    hide SealedCopy, ValAt, Run, Makes;
    if SealedInitially(cfg, s, v) {
      var src: Loc :| !src.InPcc? && SealedCopy(v, ValAt(cfg, s, src));
      SealedCopyTrans(u, v, ValAt(cfg, s, src));
    } else {
      var init := evs[..|evs| - 1];
      var k, l: Loc :| 0 <= k < |init| && !l.InPcc? && Makes(cfg, Run(cfg, s, init[..k]), init[k], l)
        && SealedCopy(v, ValAt(cfg, Run(cfg, s, init[..k + 1]), l));
      assert init[..k + 1] == evs[..k + 1] && init[..k] == evs[..k];
      SealedCopyTrans(u, v, ValAt(cfg, Run(cfg, s, evs[..k + 1]), l));
      assert Makes(cfg, Run(cfg, s, evs[..k]), evs[k], l);
    }
  }

  /**
    Sealed capabilities are immutable over runs: at the end of any run a tagged sealed capability has
    the address, bounds, object type and permissions (GL aside) of one that was sealed initially, or of
    one that some step of the run made by CSEAL or as a jump link.
   */
  lemma {:induction false} RunSealed(cfg: Config, s: State, evs: seq<Event>, l: Loc)
    requires Good(cfg, s) && !l.InPcc? && forall j | 0 <= j < |evs| :: InScope(evs[j])
    requires TaggedSealed(ValAt(cfg, Run(cfg, s, evs), l))
    ensures
      var v := ValAt(cfg, Run(cfg, s, evs), l);
      SealedInitially(cfg, s, v) || SealedByStep(cfg, s, evs, v)
    decreases |evs|
  {
    hide SealedCopy, ValAt, Step, Good, TaggedSealed, Makes;
    var v := ValAt(cfg, Run(cfg, s, evs), l);
    SealedCopyRefl(v);
    if |evs| > 0 {
      var k := |evs| - 1;
      var mid := Run(cfg, s, evs[..k]);
      if Makes(cfg, mid, evs[k], l) {
        assert evs[..k + 1] == evs;
      } else {
        RunMonotone(cfg, s, evs[..k]);
        StepSealed(cfg, mid, evs[k], l);
        var src: Loc :| SealedFrom(cfg, mid, Step(cfg, mid, evs[k]), l, src);
        CopyOfSealed(v, ValAt(cfg, mid, src));
        RunSealed(cfg, s, evs[..k], src);
        ExplainLonger(cfg, s, evs, v, ValAt(cfg, mid, src));
      }
    }
  }

  lemma CopyOfSealed(u: RegVal, v: RegVal)
    requires SealedCopy(u, v)
    ensures TaggedSealed(v)
  {
  }

  /** No step leaves a tagged sealed capability in the PCC. */
  lemma PccNeverSealed(cfg: Config, s: State, evs: seq<Event>)
    requires Good(cfg, s) && forall j | 0 <= j < |evs| :: InScope(evs[j])
    ensures Run(cfg, s, evs).pcc.valid ==> Run(cfg, s, evs).pcc.otype == OTYPE_UNSEALED
  {
    hide PccWellFormed, Run, Good;
    RunMonotone(cfg, s, evs);
    GoodEverywhere(cfg, Run(cfg, s, evs), InPcc);
  }
}
