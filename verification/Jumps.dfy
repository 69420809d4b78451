/**
  Jumps, traps and returns: exactly which capabilities can be jumped through, that a call's link
  returns to the caller with its interrupt enable, and that MRET returns to what a trap interrupted.
 */
module Jumps {
  import opened CapTypes
  import opened Bounds
  import opened Address
  import opened ExStage
  import opened Core
  import opened Authority
  import opened Monotone
  import opened LoadStore
  import opened ResetState
  import opened TaggedMemory
  import opened Codecs
  import Bits

  // ---------------------------------------------------------------- which jumps are carried out

  /** An unsealed target: refused only as a return, through register 1 without a link. */
  predicate PlainJump(rd: U5, rs1: U5) { rd != 0 || rs1 != 1 }

  /**
    The sealed targets: forward sentries of type 1 wherever an unsealed one goes, the
    interrupt-setting forward sentries 2 and 3 only in a call, the return sentries 4 and 5 only in a
    return.
   */
  predicate SentryJump(otype: U3, rd: U5, rs1: U5) {
    || (otype == 1 && PlainJump(rd, rs1))
    || ((otype == 2 || otype == 3) && rd == 1)
    || ((otype == 4 || otype == 5) && rd == 0 && rs1 == 1)
  }

  predicate MayJump(s: State, ev: Event)
    requires ev.Exec?
  {
    var v := Reg(s, ev.rs1);
    && v.cap.valid && PermsIn(v).ex
    && (if v.cap.otype == 0 then PlainJump(ev.rd, ev.rs1)
        else ev.imm12 == 0 && SentryJump(v.cap.otype, ev.rd, ev.rs1))
  }

  lemma JumpChecked(cfg: Config, s: State, ev: Event)
    requires ev.Exec? && ev.op.CJalr?
    ensures PermVio(Operands(cfg, s, ev)) <==> !MayJump(s, ev)
  {
    hide Base32, Top33, ExpandPerms, Reg;
  }

  /** Where the jump goes: the register plus the signed immediate, on 32 bits, rounded down to even. */
  function JumpTarget(s: State, ev: Event): U32
    requires ev.Exec?
  {
    var a := (Reg(s, ev.rs1).data + Signed12(ev.imm12)) % 0x1_0000_0000;
    a - a % 2
  }

  /** The PCC that stands for v's bounds and permissions. */
  predicate Enters(p: PccCap, v: RegVal) {
    && p.valid && p.otype == 0 && p.exp == v.cap.exp
    && p.base32 == Base32(v.cap, v.data) && p.top33 == Top33(v.cap, v.data)
    && p.perms == PermsIn(v) && p.cperms == v.cap.cperms
  }

  /** The interrupt enable after entering through an object type. */
  function EnableAfter(otype: U3, mie: bool): bool {
    if otype == 3 || otype == 5 then true else if otype == 2 || otype == 4 then false else mie
  }

  lemma JumpFields(i: ExIn)
    requires i.op.CJalr?
    ensures
      var o, f := MainEx(i), FullA(i);
      && o.we == o.branch == !PermVio(i) && !o.csrWe && o.res == RegVal(LinkCap(i), PcIdNext(i))
      && o.target == Align2(AddrResult(i)) && o.pcc == Full2PccCap(f.(otype := 0))
      && o.setMie == (o.branch && (f.otype == 3 || f.otype == 5))
      && o.clrMie == (o.branch && (f.otype == 2 || f.otype == 4))
  {
    hide PermVio, LinkCap, PcIdNext, AddrResult, Reg2FullCap, MainEx;
    JumpOutIs(i);
  }

  lemma TargetOf(cfg: Config, s: State, ev: Event)
    requires ev.Exec? && ev.op.CJalr?
    ensures Align2(AddrResult(Operands(cfg, s, ev))) == JumpTarget(s, ev)
  {
    hide Reg, Sext12, Signed12, Wrap32;
    SignedSum(ev.imm12, Reg(s, ev.rs1).data);
  }

  /**
    A CJALR whose capability may not be jumped through changes nothing. One that may enters it, sets or
    clears the interrupt enable by its type, and writes only the link register.
   */
  lemma JumpStep(cfg: Config, s: State, ev: Event)
    requires ev.Exec? && ev.op.CJalr?
    ensures !MayJump(s, ev) ==> Step(cfg, s, ev) == s && !MainEx(Operands(cfg, s, ev)).branch
    ensures
      MayJump(s, ev) ==>
        var s', v, o := Step(cfg, s, ev), Reg(s, ev.rs1), MainEx(Operands(cfg, s, ev));
        && o.branch && o.target == JumpTarget(s, ev) && Enters(s'.pcc, v)
        && s'.mie == EnableAfter(v.cap.otype, s.mie)
        && s' == SetReg(s, ev.rd, o.res).(pcc := s'.pcc, mie := s'.mie)
  {
    hide PermVio, PlainJump, SentryJump, LinkCap, Base32, Top33, ExpandPerms, PcIdNext, MainEx, Step, SetReg;
    hide AddrResult, Align2, JumpTarget;
    var i := Operands(cfg, s, ev);
    JumpChecked(cfg, s, ev);
    JumpFields(i);
    TargetOf(cfg, s, ev);
    StepIsCommit(cfg, s, ev);
    CommitMie(s, i, MainEx(i));
  }

  lemma CommitMie(s: State, i: ExIn, o: ExOut)
    requires !o.csrWe
    ensures o.we && o.branch ==>
      Commit(s, i, o) == SetReg(s, i.waddr, o.res).(pcc := o.pcc, mie := Commit(s, i, o).mie)
    ensures !o.we && !o.branch && !o.setMie && !o.clrMie ==> Commit(s, i, o) == s
    ensures Commit(s, i, o).mie == if o.setMie then true else if o.clrMie then false else s.mie
  {
  }

  // ---------------------------------------------------------------- call and return

  /** The address after the call. */
  function LinkAddress(ev: Event): U32
    requires ev.Exec?
  {
    (ev.pcId + if ev.compressed then 2 else 4) % 0x1_0000_0000
  }

  predicate Calls(s: State, ev: Event) {
    ev.Exec? && ev.rd == 1 && (ev.op.CJal? || (ev.op.CJalr? && MayJump(s, ev)))
  }

  lemma JalOutIs(i: ExIn)
    requires i.op.CJal?
    ensures MainEx(i) == JumpOut(i) && !PermVio(i)
  {
    hide JumpOut;
  }

  /** A twenty-one-bit immediate as a signed number. */
  function Signed21(imm: U21): int { if imm < 0x10_0000 then imm else imm - 0x20_0000 }

  /**
    The link a jump writes: the return address, tagged exactly if the PCC is and its window contains that
    address, with the PCC's bounds and permissions; sealed as a return sentry in register 1 only.
   */
  lemma LinkDecides(i: ExIn)
    requires GoodPcc(i.pcc) && (i.op.CJal? || i.op.CJalr?)
    ensures
      var v := MainEx(i).res;
      && v.data == (i.pcId + if i.compressed then 2 else 4) % 0x1_0000_0000
      && (v.cap.valid <==> i.pcc.valid && InWindow(i.pcc.exp, i.pcc.base32, v.data))
      && (v.cap.valid ==>
            && v.cap.otype == (if i.waddr != 1 then 0 else if i.mie then 5 else 4)
            && PermsIn(v) == i.pcc.perms && Base32(v.cap, v.data) == i.pcc.base32
            && Top33(v.cap, v.data) == i.pcc.top33)
  {
    hide MainEx, GetBound33, ExpandPerms, FieldsOf, InWindow, BoundsOk, SetAddress, PermVio, AddrResult, Reg2FullCap;
    if i.op.CJal? {
      JalOutIs(i);
    } else {
      JumpOutIs(i);
    }
    var f := Pcc2FullCap(i.pcc);
    SetAddressKeeps(f, PcIdNext(i));
    if i.pcc.valid {
      PccSourceWellFormed(i.pcc);
      SourceLegal(f);
      SetAddressTag(f, PcIdNext(i));
      SetAddressSound(f, PcIdNext(i));
    }
  }

  /** CJAL writes the link and nothing else, and goes to the immediate's distance, rounded down to even. */
  lemma JalStep(cfg: Config, s: State, ev: Event)
    requires ev.Exec? && ev.op.CJal?
    ensures
      var o, a := MainEx(Operands(cfg, s, ev)), (ev.pcId + Signed21(ev.imm21)) % 0x1_0000_0000;
      Step(cfg, s, ev) == SetReg(s, ev.rd, o.res) && o.target == a - a % 2
  {
    hide MainEx, Step, PermVio, LinkCap, PcIdNext, Reg2FullCap, AddrResult;
    var i := Operands(cfg, s, ev);
    JalOutIs(i);
    StepIsCommit(cfg, s, ev);
    JalTarget(cfg, s, ev);
  }

  lemma JalTarget(cfg: Config, s: State, ev: Event)
    requires ev.Exec? && ev.op.CJal?
    ensures AddrResult(Operands(cfg, s, ev)) == (ev.pcId + Signed21(ev.imm21)) % 0x1_0000_0000
  {
    hide Reg;
  }

  /** What a call leaves in register 1. */
  lemma LinkLeft(cfg: Config, s: State, ev: Event)
    requires Good(cfg, s) && Calls(s, ev) && Reg(Step(cfg, s, ev), 1).cap.valid
    ensures
      var v := Reg(Step(cfg, s, ev), 1);
      && s.pcc.valid && v.data == LinkAddress(ev)
      && v.cap.otype == (if s.mie then 5 else 4) && PermsIn(v) == s.pcc.perms && v.cap.cperms == s.pcc.cperms
      && Base32(v.cap, v.data) == s.pcc.base32 && Top33(v.cap, v.data) == s.pcc.top33 && v.cap.exp == s.pcc.exp
  {
    hide PermVio, MayJump, LinkCap, Base32, Top33, LoadCap, JumpOut, Good;
    var i := Operands(cfg, s, ev);
    GoodEverywhere(cfg, s, InPcc);
    CallResult(cfg, s, ev);
    LinkIs(i);
  }

  lemma CallResult(cfg: Config, s: State, ev: Event)
    requires Calls(s, ev)
    ensures
      var i := Operands(cfg, s, ev);
      && Reg(Step(cfg, s, ev), 1) == RegVal(LinkCap(i), PcIdNext(i)) && PcIdNext(i) == LinkAddress(ev)
      && i.pcc == s.pcc && i.mie == s.mie && i.waddr == 1
  {
    hide PermVio, MayJump, LinkCap, Reg2FullCap, MainEx, Step, AddrResult, PcIdNext;
    var i := Operands(cfg, s, ev);
    StepIsCommit(cfg, s, ev);
    LinkAt(cfg, s, ev);
    if ev.op.CJal? {
      JalOutIs(i);
    } else {
      JumpChecked(cfg, s, ev);
      JumpOutIs(i);
    }
    CommitReg(s, i, MainEx(i), 1);
  }

  lemma LinkAt(cfg: Config, s: State, ev: Event)
    requires ev.Exec?
    ensures PcIdNext(Operands(cfg, s, ev)) == LinkAddress(ev)
  {
    hide Reg;
  }

  lemma LinkIs(i: ExIn)
    requires GoodPcc(i.pcc) && i.waddr == 1 && LinkCap(i).valid
    ensures
      var c, a := LinkCap(i), PcIdNext(i);
      && i.pcc.valid && c.otype == (if i.mie then 5 else 4)
      && ExpandPerms(c.cperms) == i.pcc.perms && c.cperms == i.pcc.cperms && c.exp == i.pcc.exp
      && Base32(c, a) == i.pcc.base32 && Top33(c, a) == i.pcc.top33
  {
    hide GetBound33, ExpandPerms, FieldsOf, InWindow, BoundsOk, SetAddress, PcIdNext;
    SetAddressKeeps(Pcc2FullCap(i.pcc), PcIdNext(i));
    PccSourceWellFormed(i.pcc);
    SetAddressSound(Pcc2FullCap(i.pcc), PcIdNext(i));
  }

  lemma SetAddressKeeps(f: FullCap, a: U32)
    ensures SetAddress(f, a).cperms == f.cperms && SetAddress(f, a).exp == f.exp
    ensures SetAddress(f, a).valid ==> f.valid
  {
    hide Bits.And, Bits.Shl;
  }

  /** `cjalr c0, 0(c1)` */
  predicate Returns(ev: Event) {
    ev.Exec? && ev.op.CJalr? && ev.rs1 == 1 && ev.rd == 0 && ev.imm12 == 0
  }

  /** What a tagged PCC, trap vector and exception PC permit. */
  predicate Executable(s: State) {
    && (s.pcc.valid ==> s.pcc.perms.ex)
    && (s.mtcc.cap.valid ==> PermsIn(s.mtcc).ex) && (s.mepcc.cap.valid ==> PermsIn(s.mepcc).ex)
  }

  lemma LegalizedExecutes(i: ExIn)
    requires i.op.CCsrRw? && (i.cs2 == SCR_MTCC || i.cs2 == SCR_MEPCC)
    ensures MainEx(i).csrW.cap.valid ==> PermsIn(MainEx(i).csrW).ex
  {
    hide MainEx, Base32, Top33, ExpandPerms, SetAddress, PermVio, Align2, Align4;
    CsrOutIs(i);
    SetAddressKeeps(FullA(i), Align2(i.a.data));
    SetAddressKeeps(FullA(i), Align4(i.a.data));
  }

  lemma CommitExecutes(cfg: Config, s: State, ev: Event)
    requires ev.Exec? && !ev.op.CLoadCap? && !ev.op.CStoreCap? && Executable(s)
    ensures Executable(Step(cfg, s, ev))
  {
    hide MainEx, Step, Commit, ExpandPerms, Reg2FullCap;
    var i := Operands(cfg, s, ev);
    StepIsCommit(cfg, s, ev);
    OnlyCsrWrites(i);
    CommitFrame(s, i, MainEx(i));
    CommitScr(s, i, MainEx(i), SCR_MTCC);
    CommitScr(s, i, MainEx(i), SCR_MEPCC);
    if MainEx(i).csrWe && (i.cs2 == SCR_MTCC || i.cs2 == SCR_MEPCC) {
      LegalizedExecutes(i);
    }
    if MainEx(i).branch {
      JumpExecutes(i);
    }
  }

  lemma JumpExecutes(i: ExIn)
    requires i.op.CJalr? && MainEx(i).branch
    ensures MainEx(i).pcc.perms.ex
  {
    hide MainEx, LinkCap, PcIdNext, AddrResult, Base32, Top33, ExpandPerms;
    JumpFields(i);
  }

  /** Every step keeps what executes executable. */
  lemma StepExecutable(cfg: Config, s: State, ev: Event)
    requires Good(cfg, s) && Executable(s)
    ensures Executable(Step(cfg, s, ev))
  {
    hide MainEx, ExpandPerms, Base32, Top33, LoadCap, StoreCap, LsuErr, Rv32Err, Good, Pcc2Mepcc, LoadBits, StoreBytes;
    hide Commit;
    if ev.Exec? && !ev.op.CLoadCap? && !ev.op.CStoreCap? {
      CommitExecutes(cfg, s, ev);
    } else if ev.Trap? {
      GoodEverywhere(cfg, s, InPcc);
      MepccExecutes(s.pcc, ev.epc, ev.clrtag);
    }
  }

  lemma MepccExecutes(p: PccCap, epc: U32, clrtag: bool)
    requires p.valid ==> PccWellFormed(p) && p.perms.ex
    ensures Pcc2Mepcc(p, epc, clrtag).valid ==> ExpandPerms(Pcc2Mepcc(p, epc, clrtag).cperms).ex
  {
    hide SetAddress, ExpandPerms, BoundsOk;
    SetAddressKeeps(Pcc2FullCap(p), epc);
  }

  lemma ResetExecutable(mtvec: U32, mepc: U32, bytes: map<int, U8>)
    ensures Executable(Out(mtvec, mepc, bytes))
  {
  }

  /** In every state reachable from reset. */
  lemma {:induction false} RunExecutable(cfg: Config, mtvec: U32, mepc: U32, bytes: map<int, U8>, evs: seq<Event>)
    requires forall k | 0 <= k < |evs| :: InScope(evs[k])
    ensures
      var s := Run(cfg, Out(mtvec, mepc, bytes), evs);
      Good(cfg, s) && Executable(s)
    decreases |evs|
  {
    hide Good, Executable, Step, Out;
    var n := |evs|;
    ResetGood(cfg, mtvec, mepc, bytes);
    RunMonotone(cfg, Out(mtvec, mepc, bytes), evs);
    if n == 0 {
      ResetExecutable(mtvec, mepc, bytes);
    } else {
      RunExecutable(cfg, mtvec, mepc, bytes, evs[..n - 1]);
      StepExecutable(cfg, Run(cfg, Out(mtvec, mepc, bytes), evs[..n - 1]), evs[n - 1]);
    }
  }

  /** The PCC p has the bounds and permissions of q, and is not sealed. */
  predicate SameCode(p: PccCap, q: PccCap) {
    p.valid && p.otype == 0 && p.base32 == q.base32 && p.top33 == q.top33 && p.perms == q.perms && p.exp == q.exp
  }

  /**
    Call and return: if a call leaves a tagged link, then as long as it is in register 1 a return
    branches to the address after the call, with the bounds and permissions of the caller's PCC and the
    interrupt enable of the moment of the call, and changes nothing else.
   */
  lemma CallThenReturn(cfg: Config, s: State, call: Event, t: State, ret: Event)
    requires Good(cfg, s) && Executable(s) && Calls(s, call) && Returns(ret)
    requires Reg(Step(cfg, s, call), 1).cap.valid && Reg(t, 1) == Reg(Step(cfg, s, call), 1)
    ensures
      var o, t' := MainEx(Operands(cfg, t, ret)), Step(cfg, t, ret);
      && o.branch && o.target == LinkAddress(call) - LinkAddress(call) % 2
      && SameCode(t'.pcc, s.pcc) && t'.mie == s.mie && t' == t.(pcc := t'.pcc, mie := t'.mie)
  {
    hide Good, Calls, MainEx, Step, Base32, Top33, ExpandPerms, Operands;
    LinkLeft(cfg, s, call);
    JumpStep(cfg, t, ret);
  }

  /** The same for every call in a state reachable from reset. */
  lemma ReachableCallReturns(cfg: Config, mtvec: U32, mepc: U32, bytes: map<int, U8>, evs: seq<Event>,
                             call: Event, t: State, ret: Event)
    requires forall k | 0 <= k < |evs| :: InScope(evs[k])
    requires
      var s := Run(cfg, Out(mtvec, mepc, bytes), evs);
      && Calls(s, call) && Returns(ret)
      && Reg(Step(cfg, s, call), 1).cap.valid && Reg(t, 1) == Reg(Step(cfg, s, call), 1)
    ensures
      var s := Run(cfg, Out(mtvec, mepc, bytes), evs);
      var o, t' := MainEx(Operands(cfg, t, ret)), Step(cfg, t, ret);
      && o.branch && o.target == LinkAddress(call) - LinkAddress(call) % 2
      && SameCode(t'.pcc, s.pcc) && t'.mie == s.mie && t' == t.(pcc := t'.pcc, mie := t'.mie)
  {
    hide Good, Executable, Calls, Returns, MainEx, Step, Operands, Out, Run, Reg, SameCode;
    RunExecutable(cfg, mtvec, mepc, bytes, evs);
    CallThenReturn(cfg, Run(cfg, Out(mtvec, mepc, bytes), evs), call, t, ret);
  }

  // ---------------------------------------------------------------- traps

  /** A trap enters the trap vector with interrupts off and changes only PCC and MEPCC besides. */
  lemma TrapStep(cfg: Config, s: State, ev: Event)
    requires Good(cfg, s) && ev.Trap?
    ensures
      var s' := Step(cfg, s, ev);
      && (s'.pcc.valid <==> s.mtcc.cap.valid) && (s.mtcc.cap.valid ==> Enters(s'.pcc, s.mtcc))
      && s'.mepcc.data == ev.epc && !s'.mie
      && s' == s.(pcc := s'.pcc, mepcc := s'.mepcc, mie := false)
  {
    hide Good, Base32, Top33, ExpandPerms, Pcc2Mepcc, WellFormed;
    GoodEverywhere(cfg, s, InScr(SCR_MTCC));
  }

  /**
    Trap and return: while MEPCC is as the trap left it, MRET gives a PCC that is tagged exactly when
    the interrupted one was and the exception address lies in its window, and then it has the bounds and
    permissions of the interrupted one.
   */
  lemma TrapThenReturn(cfg: Config, s: State, trap: Event, t: State, mret: Event)
    requires Good(cfg, s) && trap.Trap? && mret.Mret? && t.mepcc == Step(cfg, s, trap).mepcc
    ensures
      var t' := Step(cfg, t, mret);
      && (t'.pcc.valid <==> !trap.clrtag && s.pcc.valid && InWindow(s.pcc.exp, s.pcc.base32, trap.epc))
      && (t'.pcc.valid ==> SameCode(t'.pcc, s.pcc))
      && t'.mie == mret.mieBack && t' == t.(pcc := t'.pcc, mie := t'.mie)
  {
    hide Good, Base32, Top33, ExpandPerms, Pcc2Mepcc, InWindow;
    GoodEverywhere(cfg, s, InPcc);
    MepccIs(s.pcc, trap.epc, trap.clrtag);
  }

  lemma MepccIs(p: PccCap, epc: U32, clrtag: bool)
    requires GoodPcc(p)
    ensures
      var c := Pcc2Mepcc(p, epc, clrtag);
      && (c.valid <==> !clrtag && p.valid && InWindow(p.exp, p.base32, epc))
      && (c.valid ==> c.otype == 0 && c.exp == p.exp && Base32(c, epc) == p.base32 && Top33(c, epc) == p.top33
                      && ExpandPerms(c.cperms) == p.perms)
  {
    hide GetBound33, ExpandPerms, FieldsOf, InWindow, SetAddress, WellFormed;
    var f := Pcc2FullCap(p);
    SetAddressKeeps(f, epc);
    if p.valid {
      PccSourceWellFormed(p);
      SetAddressTag(f, epc);
      SetAddressSound(f, epc);
    }
  }
}
