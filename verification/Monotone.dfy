/**
  Monotonicity over whole runs: after any sequence of steps every tagged capability in registers,
  PCC, special registers and memory is well-formed and gives no more than one tagged at the start.
 */
module Monotone {
  import opened CapTypes
  import opened Bounds
  import opened BoundsCircuit
  import opened Codecs
  import opened CodecProofs
  import opened CodecInverse
  import opened ExStage
  import opened TaggedMemory
  import opened Core
  import opened Authority
  import opened Address
  import Bits
  import BitFields

  // ---------------------------------------------------------------- the memory path

  /** Whatever memory holds, a loaded value has a legal exponent and the corrections of its own address. */
  lemma LoadStorable(cfg: Config, m: Mem, w: int, clr: ClrPerm)
    ensures Storable(LoadCap(cfg, m, w, clr).cap, LoadCap(cfg, m, w, clr).data)
  {
    hide Mem2RegCap0, Mem2RegCap1, Mem2RegAddr1, DataOf, WordAt, Storable;
    LoadedStorable0(WordAt(m, w + 1), WordAt(m, w), clr);
    LoadedStorable1(WordAt(m, w + 1), WordAt(m, w), clr);
  }

  /**
    A stored value, tagged or not, comes back with its tag, and it comes back unchanged exactly when its
    exponent is legal and its corrections are those of its address.
   */
  lemma StoreThenLoad(cfg: Config, m: Mem, w: int, v: RegVal)
    ensures
      var r := LoadCap(cfg, StoreCap(cfg, m, w, v), w, NO_CLR);
      (r.cap.valid <==> v.cap.valid) && (r == v <==> Storable(v.cap, v.data))
  {
    hide Mem2RegCap0, Mem2RegCap1, Mem2RegAddr1, Reg2MemCap0, Reg2Mem1, TagWord, DataOf;
    hide WriteWord, WordAt, Storable;
    LoadStorable(cfg, StoreCap(cfg, m, w, v), w, NO_CLR);
    WordsBack(cfg, m, w, v);
    TagsOfStored(cfg, v);
    var ws := StoredWords(cfg, v);
    TagsDecide(ws.msw, ws.lsw, NO_CLR);
    if Storable(v.cap, v.data) {
      ClearedNone(v.cap);
      if cfg.memFmt1 {
        RoundTrip1(v.cap, v.data, NO_CLR);
      } else {
        RoundTrip0(v.cap, v.data, NO_CLR);
        TagWordParts(v.cap.valid, v.data);
      }
    }
  }

  lemma WordsBack(cfg: Config, m: Mem, w: int, v: RegVal)
    ensures
      var m', ws := StoreCap(cfg, m, w, v), StoredWords(cfg, v);
      WordAt(m', w) == ws.lsw && WordAt(m', w + 1) == ws.msw
  {
    hide WriteWord, WordAt, StoredWords;
    var ws := StoredWords(cfg, v);
    var m1 := WriteWord(m, w, ws.lsw);
    ReadBack(m, w, ws.lsw);
    ReadBack(m1, w + 1, ws.msw);
    OtherWord(m1, w + 1, ws.msw, w);
  }

  /** A loaded capability is tagged exactly when both words are, unless the load clears it. */
  lemma TagsDecide(msw: U33, lsw: U33, clr: ClrPerm)
    ensures Mem2RegCap0(msw, lsw, clr).valid == (TagOf(msw) && TagOf(lsw) && !clr.tag)
    ensures Mem2RegCap1(msw, lsw, clr).valid == (TagOf(msw) && TagOf(lsw) && !clr.tag)
  {
    hide MaskClcPerms, Mid9, Field9, Field4, Field3, Field6, Field8, Flag, CPermsOf, UpdateTempFields;
  }

  lemma WellFormedStorable(v: RegVal)
    requires GoodVal(v)
    ensures v.cap.valid ==> Storable(v.cap, v.data)
  {
    hide GetBound33, FieldsOf, InWindow;
  }

  lemma TagsOfStored(cfg: Config, v: RegVal)
    ensures TagOf(StoredWords(cfg, v).msw) == v.cap.valid && TagOf(StoredWords(cfg, v).lsw) == v.cap.valid
  {
    hide BitFields.Slice, BitFields.Pack, AddrRest, AddrMid, CPermsBits;
    var c := v.cap;
    Unpack0(c, CompressExp(c.exp));
    Unpack1Msw(c, AddrRest(c.exp, v.data));
    Unpack1Lsw(c, AddrMid(c.exp, v.data), CompressExp(c.exp));
    FlagIsTag(StoredWords(cfg, v).msw);
    FlagIsTag(StoredWords(cfg, v).lsw);
  }

  /** Clear requests act on the plain register form. */
  lemma LoadClears(cfg: Config, m: Mem, w: int, clr: ClrPerm)
    ensures
      var r, p := LoadCap(cfg, m, w, clr), LoadCap(cfg, m, w, NO_CLR);
      r.cap == Cleared(p.cap, clr) && r.data == p.data
  {
    hide Mem2RegAddr1, Mid9, Field9, Field4, Field3, Field6, Field8, Flag, CPermsOf, WordAt, MaskClcPerms;
    var msw, lsw := WordAt(m, w + 1), WordAt(m, w);
    MaskNone(CPermsOf(Field6(msw, 25)), Field3(msw, 22) != 0);
    MaskNone(CPermsOf(Field6(msw, 26)), Field3(msw, 23) != 0);
  }

  lemma MaskNone(c: CPerms, isSealed: bool)
    ensures forall v: bool :: MaskClcPerms(c, NO_CLR, v, isSealed) == c
  {
  }

  lemma ClearedLe(v: RegVal, clr: ClrPerm)
    requires GoodVal(v)
    ensures From(RegVal(Cleared(v.cap, clr), v.data), AuthOfVal(v), v.cap.valid)
  {
    hide GetBound33, ExpandPerms, MaskClcPerms, BoundsOk, FieldsOf, InWindow;
    var valid := v.cap.valid && !clr.tag;
    MaskNarrows(v.cap.cperms, clr, valid, v.cap.otype != OTYPE_UNSEALED);
  }

  // ---------------------------------------------------------------- one step

  lemma GoodOperands(cfg: Config, s: State, ev: Event)
    requires Good(cfg, s) && ev.Exec?
    ensures GoodIn(Operands(cfg, s, ev))
  {
    hide WellFormed, PccWellFormed, LoadCap;
    assert GoodAt(cfg, s, InReg(ev.rs1)) && GoodAt(cfg, s, InReg(ev.rs2)) && GoodAt(cfg, s, InPcc);
    assert GoodAt(cfg, s, InScr(ev.cs2));
  }

  /** Location l of s' is good and, if tagged, gives no more than tagged location src of s. */
  predicate Inherits(cfg: Config, s: State, s': State, l: Loc, src: Loc) {
    Tagged(cfg, s', l) ==>
      GoodAt(cfg, s', l) && Tagged(cfg, s, src) && AuthLe(AuthAt(cfg, s', l), AuthAt(cfg, s, src))
  }

  lemma Unchanged(cfg: Config, s: State, s': State, l: Loc)
    requires GoodAt(cfg, s, l)
    requires if l.InPcc? then s'.pcc == s.pcc else ValAt(cfg, s', l) == ValAt(cfg, s, l)
    ensures Inherits(cfg, s, s', l, l)
  {
    hide WellFormed, PccWellFormed, LoadCap, AuthOfVal;
  }

  /** A register write from a value that comes from a tagged source. */
  lemma Written(cfg: Config, s: State, s': State, l: Loc, v: RegVal, src: Loc)
    requires !l.InPcc? && ValAt(cfg, s', l) == v
    requires From(v, AuthAt(cfg, s, src), Tagged(cfg, s, src))
    requires (l == InScr(SCR_MTCC) || l == InScr(SCR_MEPCC)) && v.cap.valid ==> v.cap.otype == 0
    ensures Inherits(cfg, s, s', l, src)
  {
    hide WellFormed, LoadCap, AuthOfVal;
  }

  // ---------------------------------------------------------------- instructions that write registers

  /** The location whose capability a result is derived from. */
  function ResultSrc(ev: Event): Loc
    requires ev.Exec?
  {
    match ev.op
    case CAuipcc => InPcc
    case CJal => InPcc
    case CJalr => InPcc
    case CCsrRw => InScr(ev.cs2)
    case _ => InReg(ev.rs1)
  }

  predicate ResultInherits(cfg: Config, s: State, ev: Event)
    requires ev.Exec?
  {
    var src := ResultSrc(ev);
    From(MainEx(Operands(cfg, s, ev)).res, AuthAt(cfg, s, src), Tagged(cfg, s, src))
  }

  lemma ResultFrom(cfg: Config, s: State, ev: Event)
    requires Good(cfg, s) && ev.Exec?
    ensures ResultInherits(cfg, s, ev)
  {
    hide AuthOfVal, AuthLe, WellFormed, SealOut, UnsealOut, AndPermOut, AddrOut, BoundsOut, Legalized, LinkCap;
    hide Mem2RegCap0, Bits.Pow2, PermVio, AddrBoundVio, LoadCap, Reg2FullCap, HighWord, RrlRam, SubsetResult;
    hide EqualResult;
    GoodOperands(cfg, s, ev);
    var i := Operands(cfg, s, ev);
    match ev.op {
      case CSeal => SealFromA(i);
      case CUnseal => UnsealFromA(i);
      case CAndPerm => AndPermFromA(i);
      case CSetHigh => TagsDecide(i.b.data, i.a.data, NO_CLR);
      case CSetAddr => AddrFromSource(i);
      case CIncAddr => AddrFromSource(i);
      case CIncAddrImm => AddrFromSource(i);
      case CAuicgp => AddrFromSource(i);
      case CAuipcc => AddrFromSource(i);
      case CSetBounds => BoundsFromA(i);
      case CSetBoundsImm => BoundsFromA(i);
      case CSetBoundsEx => BoundsFromA(i);
      case CSetBoundsRndn => BoundsFromA(i);
      case CMoveCap => FromItself(i.a);
      case CCsrRw => FromItself(i.csr);
      case CJalr => LinkFromPcc(i);
      case CJal => LinkFromPcc(i);
      case _ =>
    }
  }

  lemma FromItself(v: RegVal)
    requires GoodVal(v)
    ensures From(v, AuthOfVal(v), v.cap.valid)
  {
    hide WellFormed, GetBound33;
  }

  /** The source of what location l holds after the event. */
  function Source(cfg: Config, s: State, ev: Event, l: Loc): Loc {
    match ev
    case Exec(op, rs1, rs2, rd, _, _, _, cs2, _, _) =>
      var i := Operands(cfg, s, ev);
      if op.CLoadCap? then if l == InReg(rd) then InMem(LsAddr(i) / 8) else l
      else if op.CStoreCap? then if l == InMem(LsAddr(i) / 8) then InReg(rs2) else l
      else if l == InReg(rd) then ResultSrc(ev)
      else if l == InScr(cs2) || l == InPcc then InReg(rs1)
      else l
    case Trap(_, _) => if l == InScr(SCR_MEPCC) then InPcc else if l == InPcc then InScr(SCR_MTCC) else l
    case Mret(_) => if l == InPcc then InScr(SCR_MEPCC) else l
    case _ => l
  }

  /** Either l was rewritten from its source, or it is as before. */
  predicate Kept(cfg: Config, s: State, ev: Event, l: Loc) {
    var s' := Step(cfg, s, ev);
    Inherits(cfg, s, s', l, l) || Inherits(cfg, s, s', l, Source(cfg, s, ev, l))
  }

  /** What location l holds once the result o is committed. */
  function CommittedVal(cfg: Config, s: State, i: ExIn, o: ExOut, l: Loc): RegVal
    requires !l.InPcc?
  {
    if l == InReg(i.waddr) && i.waddr != 0 && o.we then o.res
    else if l == InScr(i.cs2) && o.csrWe && SCR_MTCC <= i.cs2 then o.csrW
    else ValAt(cfg, s, l)
  }

  lemma CommitAt(cfg: Config, s: State, i: ExIn, o: ExOut, l: Loc)
    ensures !l.InPcc? ==> ValAt(cfg, Commit(s, i, o), l) == CommittedVal(cfg, s, i, o, l)
    ensures Commit(s, i, o).pcc == if o.branch then o.pcc else s.pcc
  {
    hide LoadCap, Commit, Reg, Scr;
    CommitFrame(s, i, o);
    match l
    case InReg(r) => CommitReg(s, i, o, r);
    case InScr(n) => CommitScr(s, i, o, n);
    case _ =>
  }

  lemma CommitFrame(s: State, i: ExIn, o: ExOut)
    ensures Commit(s, i, o).mem == s.mem && Commit(s, i, o).pcc == if o.branch then o.pcc else s.pcc
  {
  }

  lemma CommitReg(s: State, i: ExIn, o: ExOut, r: U5)
    ensures Reg(Commit(s, i, o), r) == if r == i.waddr && i.waddr != 0 && o.we then o.res else Reg(s, r)
  {
  }

  lemma CommitScr(s: State, i: ExIn, o: ExOut, n: U5)
    ensures Scr(Commit(s, i, o), n) == if n == i.cs2 && o.csrWe && SCR_MTCC <= i.cs2 then o.csrW else Scr(s, n)
  {
  }

  lemma CommitInherits(cfg: Config, s: State, ev: Event, l: Loc)
    requires Good(cfg, s) && ev.Exec? && !ev.op.CLoadCap? && !ev.op.CStoreCap?
    ensures Kept(cfg, s, ev, l)
  {
    hide AuthOfVal, AuthLe, WellFormed, LoadCap, MainEx, From, Inherits, Operands, Step, Commit, ValAt, Good, ResultSrc;
    var i := Operands(cfg, s, ev);
    var o := MainEx(i);
    var s' := Step(cfg, s, ev);
    StepIsCommit(cfg, s, ev);
    CommitAt(cfg, s, i, o, l);
    GoodEverywhere(cfg, s, l);
    if l == InReg(ev.rd) && ev.rd != 0 && o.we {
      ResultFrom(cfg, s, ev);
      Written(cfg, s, s', l, o.res, ResultSrc(ev));
    } else if l == InScr(ev.cs2) && o.csrWe && SCR_MTCC <= ev.cs2 {
      CsrWriteInherits(cfg, s, ev);
      Written(cfg, s, s', l, o.csrW, InReg(ev.rs1));
    } else if l == InPcc && o.branch {
      PccWriteInherits(cfg, s, ev, s');
    } else {
      Unchanged(cfg, s, s', l);
    }
  }

  lemma GoodEverywhere(cfg: Config, s: State, l: Loc)
    requires Good(cfg, s)
    ensures GoodAt(cfg, s, l)
  {
  }

  lemma StepIsCommit(cfg: Config, s: State, ev: Event)
    requires ev.Exec? && !ev.op.CLoadCap? && !ev.op.CStoreCap?
    ensures
      var i := Operands(cfg, s, ev);
      Step(cfg, s, ev) == Commit(s, i, MainEx(i)) && i.waddr == ev.rd && i.cs2 == ev.cs2
  {
    hide MainEx, Commit;
  }

  lemma CsrWriteInherits(cfg: Config, s: State, ev: Event)
    requires Good(cfg, s) && ev.Exec? && MainEx(Operands(cfg, s, ev)).csrWe
    ensures
      var w := MainEx(Operands(cfg, s, ev)).csrW;
      && From(w, AuthAt(cfg, s, InReg(ev.rs1)), Tagged(cfg, s, InReg(ev.rs1)))
      && (w.cap.valid && (ev.cs2 == SCR_MTCC || ev.cs2 == SCR_MEPCC) ==> w.cap.otype == 0)
  {
    hide AuthOfVal, AuthLe, WellFormed, CsrOut, SealOut, UnsealOut, AndPermOut, LinkCap, LoadCap, From;
    hide Mem2RegCap0, Reg2FullCap, PermVio, HighWord, RrlRam, SubsetResult, EqualResult, SetAddress, BoundsOut;
    GoodOperands(cfg, s, ev);
    CsrWriteFromA(Operands(cfg, s, ev));
    OnlyCsrWrites(Operands(cfg, s, ev));
  }

  lemma OnlyCsrWrites(i: ExIn)
    ensures MainEx(i).csrWe ==> i.op.CCsrRw?
    ensures MainEx(i).branch ==> i.op.CJalr?
  {
    hide Reg2FullCap, PermVio, AddrBoundVio, HighWord, RrlRam, SubsetResult, EqualResult;
    hide SetAddress, SetBounds, SetBoundsRoundDown;
    hide Mem2RegCap0, LinkCap, Legalized, PrepBoundReq, CompressPerms;
  }

  lemma CsrOutIs(i: ExIn)
    requires i.op.CCsrRw?
    ensures MainEx(i) == CsrOut(i)
  {
    hide CsrOut;
  }

  lemma JumpOutIs(i: ExIn)
    requires i.op.CJalr?
    ensures MainEx(i) == JumpOut(i)
  {
    hide JumpOut;
  }

  lemma PccWriteInherits(cfg: Config, s: State, ev: Event, s': State)
    requires Good(cfg, s) && ev.Exec? && MainEx(Operands(cfg, s, ev)).branch
    requires s'.pcc == MainEx(Operands(cfg, s, ev)).pcc
    ensures Inherits(cfg, s, s', InPcc, InReg(ev.rs1))
  {
    hide AuthOfVal, AuthLe, WellFormed, PccWellFormed, JumpOut, CsrOut, SealOut, UnsealOut, AndPermOut, LoadCap;
    hide Mem2RegCap0, Reg2FullCap, PermVio, HighWord, RrlRam, SubsetResult, EqualResult, SetAddress, BoundsOut;
    GoodOperands(cfg, s, ev);
    OnlyCsrWrites(Operands(cfg, s, ev));
    JumpPccFromA(Operands(cfg, s, ev));
  }

  // ---------------------------------------------------------------- the memory instructions

  lemma LoadInherits(cfg: Config, s: State, ev: Event, l: Loc)
    requires Good(cfg, s) && ev.Exec? && ev.op.CLoadCap?
    ensures Kept(cfg, s, ev, l)
  {
    hide AuthOfVal, WellFormed, LoadCap, From, Inherits, Good, LsuErr, LsAddr, LoadClr, GoodAt;
    var i := Operands(cfg, s, ev);
    var s' := Step(cfg, s, ev);
    GoodEverywhere(cfg, s, l);
    if l == InReg(ev.rd) && ev.rd != 0 && !LsuErr(i) {
      var g := LsAddr(i) / 8;
      AlignedAddr(i);
      LoadClears(cfg, s.mem, 2 * g, LoadClr(i));
      GoodMem(cfg, s, g);
      ClearedLe(LoadCap(cfg, s.mem, 2 * g, NO_CLR), LoadClr(i));
      Written(cfg, s, s', l, LoadCap(cfg, s.mem, 2 * g, LoadClr(i)), InMem(g));
    } else {
      Unchanged(cfg, s, s', l);
    }
  }

  lemma GoodMem(cfg: Config, s: State, g: int)
    requires Good(cfg, s)
    ensures GoodVal(LoadCap(cfg, s.mem, 2 * g, NO_CLR))
  {
    hide WellFormed, LoadCap;
    assert GoodAt(cfg, s, InMem(g));
  }

  /** A capability access that is issued is eight-byte aligned. */
  lemma AlignedAddr(i: ExIn)
    requires (i.op.CLoadCap? || i.op.CStoreCap?) && !LsuErr(i)
    ensures LsAddr(i) % 8 == 0 && LsAddr(i) / 4 == 2 * (LsAddr(i) / 8)
  {
    hide AddrBoundVio, LsAddr, Reg2FullCap;
  }

  lemma StoreInherits(cfg: Config, s: State, ev: Event, l: Loc)
    requires Good(cfg, s) && ev.Exec? && ev.op.CStoreCap?
    ensures Kept(cfg, s, ev, l)
  {
    hide AuthOfVal, WellFormed, LoadCap, From, Inherits, Good, LsuErr, LsAddr, StoreCap, StoredCap, GoodAt;
    var i := Operands(cfg, s, ev);
    var s' := Step(cfg, s, ev);
    GoodEverywhere(cfg, s, l);
    if l.InMem? && !LsuErr(i) {
      AlignedAddr(i);
      var g := LsAddr(i) / 8;
      var v := RegVal(StoredCap(i), i.b.data);
      if l.g == g {
        GoodEverywhere(cfg, s, InReg(ev.rs2));
        StoredFromB(cfg, s, ev);
        WellFormedStorable(v);
        StoreThenLoad(cfg, s.mem, 2 * g, v);
        NothingOrWritten(cfg, s, s', l, v, InReg(ev.rs2));
      } else {
        OtherGranule(cfg, s.mem, g, v, l.g);
        Unchanged(cfg, s, s', l);
      }
    } else {
      Unchanged(cfg, s, s', l);
    }
  }

  lemma NothingOrWritten(cfg: Config, s: State, s': State, l: Loc, v: RegVal, src: Loc)
    requires l.InMem? && (ValAt(cfg, s', l).cap.valid ==> ValAt(cfg, s', l) == v)
    requires From(v, AuthAt(cfg, s, src), Tagged(cfg, s, src))
    ensures Inherits(cfg, s, s', l, src)
  {
    hide WellFormed, LoadCap, AuthOfVal;
  }

  lemma StoredFromB(cfg: Config, s: State, ev: Event)
    requires ev.Exec? && GoodAt(cfg, s, InReg(ev.rs2))
    ensures
      var i := Operands(cfg, s, ev);
      var v := RegVal(StoredCap(i), i.b.data);
      GoodVal(v) && From(v, AuthAt(cfg, s, InReg(ev.rs2)), Tagged(cfg, s, InReg(ev.rs2)))
  {
    hide GetBound33, StoreLocalVio, LoadCap;
  }

  lemma OtherGranule(cfg: Config, m: Mem, g: int, v: RegVal, h: int)
    requires g != h
    ensures LoadCap(cfg, StoreCap(cfg, m, 2 * g, v), 2 * h, NO_CLR) == LoadCap(cfg, m, 2 * h, NO_CLR)
  {
    hide Mem2RegCap0, Mem2RegCap1, Mem2RegAddr1, StoredWords, WriteWord, WordAt;
    var ws := StoredWords(cfg, v);
    var m1 := WriteWord(m, 2 * g, ws.lsw);
    OtherWord(m, 2 * g, ws.lsw, 2 * h);
    OtherWord(m, 2 * g, ws.lsw, 2 * h + 1);
    OtherWord(m1, 2 * g + 1, ws.msw, 2 * h);
    OtherWord(m1, 2 * g + 1, ws.msw, 2 * h + 1);
  }

  /** A loaded capability is tagged only if both words are. */
  lemma BothTags(cfg: Config, m: Mem, w: int)
    requires LoadCap(cfg, m, w, NO_CLR).cap.valid
    ensures w in m.tags && w + 1 in m.tags
  {
    hide MaskClcPerms, Mid9, Field9, Field4, Field3, Field6, Field8, Flag, CPermsOf, Mem2RegAddr1;
  }

  lemma DataStoreInherits(cfg: Config, s: State, addr: U32, z: Size, value: U32, l: Loc)
    requires Good(cfg, s)
    ensures Inherits(cfg, s, s.(mem := StoreBytes(s.mem, addr, SizeBytes(z), value)), l, l)
  {
    hide AuthOfVal, WellFormed, LoadCap, Inherits, Good, GoodAt, StoreBytes;
    var m' := StoreBytes(s.mem, addr, SizeBytes(z), value);
    var s' := s.(mem := m');
    GoodEverywhere(cfg, s, l);
    if l.InMem? && Tagged(cfg, s', l) {
      BothTags(cfg, m', 2 * l.g);
      TagSurvives(s.mem, addr, SizeBytes(z), value, 2 * l.g);
      TagSurvives(s.mem, addr, SizeBytes(z), value, 2 * l.g + 1);
      SameLoad(cfg, s.mem, m', 2 * l.g);
      Unchanged(cfg, s, s', l);
    } else if l.InMem? {
      UntaggedInherits(cfg, s, s', l);
    } else {
      Unchanged(cfg, s, s', l);
    }
  }

  lemma SameLoad(cfg: Config, m: Mem, m': Mem, w: int)
    requires WordAt(m, w) == WordAt(m', w) && WordAt(m, w + 1) == WordAt(m', w + 1)
    ensures LoadCap(cfg, m, w, NO_CLR) == LoadCap(cfg, m', w, NO_CLR)
  {
    hide Mem2RegCap0, Mem2RegCap1, Mem2RegAddr1, WordAt;
  }

  lemma UntaggedInherits(cfg: Config, s: State, s': State, l: Loc)
    requires !Tagged(cfg, s', l)
    ensures Inherits(cfg, s, s', l, l)
  {
  }

  lemma RevokeWordInherits(cfg: Config, s: State, w: int, l: Loc)
    requires Good(cfg, s)
    ensures Inherits(cfg, s, s.(mem := ClearTag(s.mem, w)), l, l)
  {
    hide AuthOfVal, WellFormed, LoadCap, Inherits, Good, GoodAt;
    var m' := ClearTag(s.mem, w);
    var s' := s.(mem := m');
    GoodEverywhere(cfg, s, l);
    if l.InMem? && Tagged(cfg, s', l) {
      BothTags(cfg, m', 2 * l.g);
      SameWord(s.mem, m', 2 * l.g);
      SameWord(s.mem, m', 2 * l.g + 1);
      SameLoad(cfg, s.mem, m', 2 * l.g);
      Unchanged(cfg, s, s', l);
    } else if l.InMem? {
      UntaggedInherits(cfg, s, s', l);
    } else {
      Unchanged(cfg, s, s', l);
    }
  }

  // ---------------------------------------------------------------- traps and the rest

  lemma TrapInherits(cfg: Config, s: State, ev: Event, l: Loc)
    requires Good(cfg, s) && (ev.Trap? || ev.Mret?)
    ensures Kept(cfg, s, ev, l)
  {
    hide AuthOfVal, AuthLe, WellFormed, PccWellFormed, LoadCap, From, Inherits, Good, Pcc2Mepcc, Reg2FullCap;
    var s' := Step(cfg, s, ev);
    GoodEverywhere(cfg, s, l);
    GoodEverywhere(cfg, s, InPcc);
    GoodEverywhere(cfg, s, InScr(SCR_MTCC));
    GoodEverywhere(cfg, s, InScr(SCR_MEPCC));
    if l == InPcc {
      PccFromScr(cfg, s, s', if ev.Trap? then SCR_MTCC else SCR_MEPCC);
    } else if ev.Trap? && l == InScr(SCR_MEPCC) {
      MepccFromPcc(s.pcc, ev.epc, ev.clrtag);
      Written(cfg, s, s', l, RegVal(Pcc2Mepcc(s.pcc, ev.epc, ev.clrtag), ev.epc), InPcc);
    } else {
      Unchanged(cfg, s, s', l);
    }
  }

  lemma PccFromScr(cfg: Config, s: State, s': State, n: U5)
    requires n == SCR_MTCC || n == SCR_MEPCC
    requires GoodAt(cfg, s, InScr(n)) && s'.pcc == Full2PccCap(Reg2FullCap(Scr(s, n).cap, Scr(s, n).data))
    ensures Inherits(cfg, s, s', InPcc, InScr(n))
  {
    hide GetBound33, ExpandPerms, FieldsOf, InWindow, BoundsOk, LoadCap;
    if Scr(s, n).cap.valid {
      RegToPccWellFormed(Scr(s, n).cap, Scr(s, n).data);
    }
  }

  lemma MepccFromPcc(p: PccCap, epc: U32, clrtag: bool)
    requires GoodPcc(p)
    ensures From(RegVal(Pcc2Mepcc(p, epc, clrtag), epc), AuthOfPcc(p), p.valid)
    ensures Pcc2Mepcc(p, epc, clrtag).valid ==> Pcc2Mepcc(p, epc, clrtag).otype == 0
  {
    hide GetBound33, ExpandPerms, FieldsOf, InWindow, BoundsOk, SetAddress;
    if p.valid {
      PccSourceWellFormed(p);
    }
    SetAddressSound(Pcc2FullCap(p), epc);
    SetAddressKeepsFields(Pcc2FullCap(p), epc);
    ValidIrrelevant(Full2RegCap(SetAddress(Pcc2FullCap(p), epc)), Pcc2Mepcc(p, epc, clrtag), epc);
  }

  /** Writing an untagged value to a register only removes a capability. */
  lemma UntaggedWrite(cfg: Config, s: State, r: U5, v: RegVal, l: Loc)
    requires Good(cfg, s) && !v.cap.valid
    ensures Inherits(cfg, s, SetReg(s, r, v), l, l)
  {
    hide AuthOfVal, WellFormed, LoadCap, Inherits, Good, GoodAt;
    GoodEverywhere(cfg, s, l);
    if l == InReg(r) {
      UntaggedInherits(cfg, s, SetReg(s, r, v), l);
    } else {
      Unchanged(cfg, s, SetReg(s, r, v), l);
    }
  }

  /** Integer writes, revocations and interrupt-enable changes only remove capabilities. */
  lemma OtherInherits(cfg: Config, s: State, ev: Event, l: Loc)
    requires Good(cfg, s) && !ev.Exec? && !ev.Trap? && !ev.Mret?
    ensures Kept(cfg, s, ev, l)
  {
    hide AuthOfVal, WellFormed, LoadCap, Inherits, Good, GoodAt, StoreBytes, ClearTag, Rv32Err, LoadBits, SetReg, Reg;
    StaysInherits(cfg, s, l);
    match ev {
      case StoreInt(_, addr, z, value) => DataStoreInherits(cfg, s, addr, z, value, l);
      case RevokeWord(w) => RevokeWordInherits(cfg, s, w, l);
      case IntResult(rd, value) => UntaggedWrite(cfg, s, rd, RegVal(NULL_REG_CAP, value), l);
      case LoadInt(_, addr, z, signed, rd) =>
        UntaggedWrite(cfg, s, rd, RegVal(NULL_REG_CAP, LoadBits(s.mem, addr, z, signed)), l);
      case RevokeReg(r) => UntaggedWrite(cfg, s, r, Reg(s, r).(cap := Reg(s, r).cap.(valid := false)), l);
      case MepccRestore(_) => ScrClears(cfg, s, ev, l);
      case WriteMie(_) => ScrClears(cfg, s, ev, l);
    }
  }

  lemma ScrClears(cfg: Config, s: State, ev: Event, l: Loc)
    requires Good(cfg, s) && (ev.MepccRestore? || ev.WriteMie?)
    ensures Inherits(cfg, s, Step(cfg, s, ev), l, l)
  {
    hide AuthOfVal, WellFormed, LoadCap, Inherits, Good, GoodAt;
    GoodEverywhere(cfg, s, l);
    if l == InScr(SCR_MEPCC) && ev.MepccRestore? {
      UntaggedInherits(cfg, s, Step(cfg, s, ev), l);
    } else {
      Unchanged(cfg, s, Step(cfg, s, ev), l);
    }
  }

  lemma StaysInherits(cfg: Config, s: State, l: Loc)
    requires Good(cfg, s)
    ensures Inherits(cfg, s, s, l, l)
  {
    hide AuthOfVal, WellFormed, LoadCap, Inherits, Good, GoodAt;
    GoodEverywhere(cfg, s, l);
    Unchanged(cfg, s, s, l);
  }

  // ---------------------------------------------------------------- whole runs

  lemma StepInherits(cfg: Config, s: State, ev: Event, l: Loc)
    requires Good(cfg, s)
    ensures Kept(cfg, s, ev, l)
  {
    hide Kept, Good;
    if ev.Exec? {
      if ev.op.CLoadCap? {
        LoadInherits(cfg, s, ev, l);
      } else if ev.op.CStoreCap? {
        StoreInherits(cfg, s, ev, l);
      } else {
        CommitInherits(cfg, s, ev, l);
      }
    } else if ev.Trap? || ev.Mret? {
      TrapInherits(cfg, s, ev, l);
    } else {
      OtherInherits(cfg, s, ev, l);
    }
  }

  /** One step: every tagged capability afterwards is well-formed and comes from a tagged one before. */
  lemma StepMonotone(cfg: Config, s: State, ev: Event)
    requires Good(cfg, s)
    ensures
      var s' := Step(cfg, s, ev);
      && Good(cfg, s')
      && forall l: Loc | Tagged(cfg, s', l) ::
           exists src: Loc :: Tagged(cfg, s, src) && AuthLe(AuthAt(cfg, s', l), AuthAt(cfg, s, src))
  {
    hide AuthAt, AuthLe, Tagged, Step, Source;
    var s' := Step(cfg, s, ev);
    forall l: Loc
      ensures GoodAt(cfg, s', l)
      ensures Tagged(cfg, s', l) ==>
        exists src: Loc :: Tagged(cfg, s, src) && AuthLe(AuthAt(cfg, s', l), AuthAt(cfg, s, src))
    {
      StepInherits(cfg, s, ev, l);
    }
  }

  /**
    Capability monotonicity: from any state whose tagged capabilities are well-formed, after any run,
    every tagged capability is well-formed and its bounds and permissions are contained in those of a
    capability that was tagged initially.
   */
  lemma {:induction false} RunMonotone(cfg: Config, s: State, evs: seq<Event>)
    requires Good(cfg, s) && forall k | 0 <= k < |evs| :: InScope(evs[k])
    ensures
      var s' := Run(cfg, s, evs);
      && Good(cfg, s')
      && forall l: Loc | Tagged(cfg, s', l) ::
           exists src: Loc :: Tagged(cfg, s, src) && AuthLe(AuthAt(cfg, s', l), AuthAt(cfg, s, src))
    decreases |evs|
  {
    hide AuthAt, Tagged, Step, Good;
    if |evs| == 0 {
      forall l: Loc | Tagged(cfg, s, l)
        ensures exists src: Loc :: Tagged(cfg, s, src) && AuthLe(AuthAt(cfg, s, l), AuthAt(cfg, s, src))
      {
        assert AuthLe(AuthAt(cfg, s, l), AuthAt(cfg, s, l));
      }
    } else {
      var mid := Run(cfg, s, evs[..|evs| - 1]);
      var s' := Step(cfg, mid, evs[|evs| - 1]);
      RunMonotone(cfg, s, evs[..|evs| - 1]);
      StepMonotone(cfg, mid, evs[|evs| - 1]);
      forall l: Loc | Tagged(cfg, s', l)
        ensures exists src: Loc :: Tagged(cfg, s, src) && AuthLe(AuthAt(cfg, s', l), AuthAt(cfg, s, src))
      {
        var m: Loc :| Tagged(cfg, mid, m) && AuthLe(AuthAt(cfg, s', l), AuthAt(cfg, mid, m));
        var src: Loc :| Tagged(cfg, s, src) && AuthLe(AuthAt(cfg, mid, m), AuthAt(cfg, s, src));
        AuthLeTrans(AuthAt(cfg, s', l), AuthAt(cfg, mid, m), AuthAt(cfg, s, src));
      }
    }
  }

  lemma AuthLeTrans(a: Auth, b: Auth, c: Auth)
    requires AuthLe(a, b) && AuthLe(b, c)
    ensures AuthLe(a, c)
  {
  }
}
