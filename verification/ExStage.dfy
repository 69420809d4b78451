/**
  The capability execution stage: operand checks and the result of every instruction, as functions of
  the operands (cheri_ex with debug mode off, capability mode on and the original bounds encoding).
 */
module ExStage {
  import opened CapTypes
  import opened Bounds
  import opened BoundsCircuit
  import opened Codecs

  type U12 = x: int | 0 <= x < 0x1000
  type U20 = x: int | 0 <= x < 0x10_0000
  type U21 = x: int | 0 <= x < 0x20_0000

  /** A register: metadata and the 32-bit address or integer. */
  datatype RegVal = RegVal(cap: RegCap, data: U32)

  const NULL_VAL := RegVal(NULL_REG_CAP, 0)

  datatype Op =
    | CGetPerm | CGetType | CGetBase | CGetLen | CGetTag | CGetTop | CGetHigh | CGetAddr
    | CSeal | CUnseal | CAndPerm | CSetAddr | CIncAddr | CIncAddrImm
    | CSetBounds | CSetBoundsEx | CSetBoundsImm | CSetBoundsRndn | CRrl | CRam
    | CIsSubset | CIsEqual | CMoveCap | CSubCap | CClearTag | CLoadCap | CSetHigh | CStoreCap
    | CCsrRw | CJalr | CJal | CAuipcc | CAuicgp

  const SCR_MEPCC: U5 := 31
  const SCR_MSCRATCHC: U5 := 30
  const SCR_MTDC: U5 := 29
  const SCR_MTCC: U5 := 28
  const SCR_ZTOPC: U5 := 27

  /** Operands: registers a and b, the PCC, immediates, register numbers and the selected SCR. */
  datatype ExIn = ExIn(op: Op, a: RegVal, b: RegVal, raddrA: U5, waddr: U5, pcc: PccCap, pcId: U32,
                       compressed: bool, imm12: U12, imm20: U20, imm21: U21, cs2: U5, csr: RegVal,
                       mie: bool, tclrFault: bool, memFmt1: bool)

  /** Results: register write, SCR write, PCC update, jump target, interrupt enable, and LSU operands. */
  datatype ExOut = ExOut(we: bool, res: RegVal, csrWe: bool, csrW: RegVal, branch: bool, pcc: PccCap,
                         target: U32, setMie: bool, clrMie: bool)

  const NO_OUT := ExOut(false, NULL_VAL, false, NULL_VAL, false, NULL_PCC_CAP, 0, false, false)

  function Write(v: RegVal): ExOut {
    NO_OUT.(we := true, res := v)
  }

  function WriteInt(n: U32): ExOut {
    Write(RegVal(NULL_REG_CAP, n))
  }

  // ---------------------------------------------------------------- operands

  function FullA(i: ExIn): FullCap { Reg2FullCap(i.a.cap, i.a.data) }
  function FullB(i: ExIn): FullCap { Reg2FullCap(i.b.cap, i.b.data) }

  predicate IsSealed(f: FullCap) { f.otype != OTYPE_UNSEALED }

  function Wrap32(n: int): U32 { n % 0x1_0000_0000 }

  function Sext12(imm: U12): U32 { if imm >= 0x800 then imm + 0xFFFF_F000 else imm }
  function Sext21(imm: U21): U32 { if imm >= 0x10_0000 then imm + 0xFFE0_0000 else imm }
  /** `{imm20[19], imm20, 11'h0}`. */
  function UpperImm(imm: U20): U32 { imm * 0x800 + if imm >= 0x8_0000 then 0x8000_0000 else 0 }

  /** shared_adder. */
  function AddrResult(i: ExIn): U32 {
    match i.op
    case CJalr => Wrap32(Sext12(i.imm12) + i.a.data)
    case CJal => Wrap32(Sext21(i.imm21) + i.pcId)
    case CAuipcc => Wrap32(UpperImm(i.imm20) + i.pcId)
    case CAuicgp => Wrap32(UpperImm(i.imm20) + i.a.data)
    case CSetAddr => i.b.data
    case CIncAddr => Wrap32(i.b.data + i.a.data)
    case CIncAddrImm => Wrap32(Sext12(i.imm12) + i.a.data)
    case _ => 0
  }

  /** The address of a capability load or store. */
  function LsAddr(i: ExIn): U32 {
    Wrap32(i.a.data + if i.op.CLoadCap? || i.op.CStoreCap? || i.op.CJalr? then Sext12(i.imm12) else 0)
  }

  function PcIdNext(i: ExIn): U32 {
    Wrap32(i.pcId + if i.compressed then 2 else 4)
  }

  function DecodeOtype(otype: U3, ex: bool): U4 {
    if !ex && otype != 0 then otype + 8 else otype
  }

  // ---------------------------------------------------------------- checks

  /** check_cheri, address part. */
  predicate AddrBoundVio(i: ExIn) {
    var fa, fb := FullA(i), FullB(i);
    match i.op
    case CLoadCap => CapAccessVio(fa, LsAddr(i))
    case CStoreCap => CapAccessVio(fa, LsAddr(i))
    case CIsSubset => fb.top33 > fa.top33 || fb.base32 < fa.base32
    case CSeal => i.b.data >= fb.top33 || i.b.data < fb.base32
    case CUnseal =>
      var t := DecodeOtype(fa.otype, fa.perms.ex);
      t >= fb.top33 || t < fb.base32
    case _ => false
  }

  /** Eight-byte accesses compare eight-byte aligned addresses. */
  predicate CapAccessVio(f: FullCap, addr: U32) {
    addr - addr % 8 >= f.top33 - f.top33 % 8 || addr < f.base32
  }

  /** check_cheri, permission part: any bit of perm_vio_vec. */
  predicate PermVio(i: ExIn) {
    var fa, fb := FullA(i), FullB(i);
    match i.op
    case CLoadCap => !fa.valid || IsSealed(fa) || !fa.perms.ld || LsAddr(i) % 8 != 0
    case CStoreCap =>
      !fa.valid || IsSealed(fa) || !fa.perms.sd || (!fa.perms.mc && fb.valid) || LsAddr(i) % 8 != 0
    case CSeal => !fb.valid || IsSealed(fa) || IsSealed(fb) || !fb.perms.se || BadSealType(i)
    case CUnseal => !fb.valid || !IsSealed(fa) || IsSealed(fb) || !fb.perms.us
    case CJalr =>
      !fa.valid || (IsSealed(fa) && i.imm12 != 0) || !JumpTypeOk(i) || !fa.perms.ex
    case CCsrRw => !i.pcc.perms.sr
    case _ => false
  }

  predicate BadSealType(i: ExIn) {
    if FullA(i).perms.ex then i.b.data >= 8 || i.b.data == 0 else i.b.data >= 16 || i.b.data <= 8
  }

  predicate JumpTypeOk(i: ExIn) {
    var fa := FullA(i);
    var type0 := fa.otype == 0;
    var type1 := fa.perms.ex && fa.otype == 1;
    var type45 := fa.perms.ex && (fa.otype == 4 || fa.otype == 5);
    var type23 := fa.perms.ex && (fa.otype == 2 || fa.otype == 3);
    || (i.waddr == 0 && i.raddrA == 1 && type45)
    || (i.waddr == 0 && i.raddrA != 1 && (type0 || type1))
    || (i.waddr == 1 && (type0 || type23))
    || (i.waddr != 0 && (type0 || type1))
  }

  predicate IllegalScr(i: ExIn) {
    i.op.CCsrRw? && i.cs2 < 27
  }

  /** Storing a local capability through an authority without store-local. */
  predicate StoreLocalVio(i: ExIn) {
    i.op.CStoreCap? && !FullA(i).perms.sl && FullB(i).valid && !FullB(i).perms.gl
  }

  /** cheri_lsu_err: the access is not issued. */
  predicate LsuErr(i: ExIn) {
    AddrBoundVio(i) || PermVio(i) || (i.tclrFault && StoreLocalVio(i))
  }

  datatype Size = Byte | Half | Word

  function SizeBytes(z: Size): nat {
    match z case Byte => 1 case Half => 2 case Word => 4
  }

  /** check_rv32, for the first part of an access: top_size_ok keeps the subtraction from wrapping. */
  predicate Rv32Err(f: FullCap, addr: U32, z: Size, isStore: bool) {
    var n := SizeBytes(z);
    var topSizeOk := f.top33 / n != 0;
    var topBound := (f.top33 - n) % 0x2_0000_0000;
    || addr > topBound || !topSizeOk || addr < f.base32
    || !f.valid || IsSealed(f) || (!isStore && !f.perms.ld) || (isStore && !f.perms.sd)
  }

  // ---------------------------------------------------------------- main_ex

  function PermsBits(p: Perms): U12 {
    var n8 := Join(p.ex, Join(p.us, Join(p.se, Join(p.u0, 0))));
    var n4 := Join(p.sl, Join(p.ld, Join(p.mc, Join(p.sr, n8))));
    Join(p.gl, Join(p.lg, Join(p.sd, Join(p.lm, n4))))
  }

  function PermsOf(n: U32): Perms {
    var n1 := Halve(n);
    var n2 := Halve(n1);
    var n3 := Halve(n2);
    var n4 := Halve(n3);
    var n5 := Halve(n4);
    var n6 := Halve(n5);
    var n7 := Halve(n6);
    var n8 := Halve(n7);
    var n9 := Halve(n8);
    var n10 := Halve(n9);
    Perms(Odd(n), Odd(n1), Odd(n2), Odd(n3), Odd(n4), Odd(n5), Odd(n6), Odd(n7), Odd(n8), Odd(n9), Odd(n10),
          Odd(Halve(n10)))
  }

  const ALL_PERMS := Perms(true, true, true, true, true, true, true, true, true, true, true, true)

  function CapLen(f: FullCap): U32 {
    var tmp33 := (f.top33 - f.base32) % 0x2_0000_0000;
    if tmp33 >= 0x1_0000_0000 then 0xFFFF_FFFF else tmp33
  }

  function HighWord(i: ExIn): U32 {
    DataOf(if i.memFmt1 then Reg2Mem1(i.a.cap, i.a.data).msw else Reg2MemCap0(i.a.cap))
  }

  function SubsetResult(i: ExIn): bool {
    var fa, fb := FullA(i), FullB(i);
    fa.valid == fb.valid && !AddrBoundVio(i) && PermsLe(fb.perms, fa.perms)
  }

  function EqualResult(i: ExIn): bool {
    var a, b := i.a.cap, i.b.cap;
    a.valid == b.valid && a.top == b.top && a.base == b.base && a.cperms == b.cperms && a.rsvd == b.rsvd
    && a.exp == b.exp && a.otype == b.otype && i.a.data == i.b.data
  }

  function SealOut(i: ExIn): ExOut {
    var f := FullA(i);
    var r := Full2RegCap(f.(otype := i.b.data % 8));
    Write(RegVal(r.(valid := r.valid && !AddrBoundVio(i) && !PermVio(i)), i.a.data))
  }

  function UnsealOut(i: ExIn): ExOut {
    var f := FullA(i);
    var p := f.perms.(gl := f.perms.gl && FullB(i).perms.gl);
    var r := Full2RegCap(f.(otype := OTYPE_UNSEALED, perms := p, cperms := CompressPerms(p)));
    Write(RegVal(r.(valid := r.valid && !AddrBoundVio(i) && !PermVio(i)), i.a.data))
  }

  function AndPermOut(i: ExIn): ExOut {
    var f := FullA(i);
    var mask := PermsOf(i.b.data);
    var p := PermsAnd(f.perms, mask);
    var keep := !IsSealed(f) || mask.(gl := true) == ALL_PERMS;
    Write(RegVal(Full2RegCap(f.(perms := p, cperms := CompressPerms(p), valid := f.valid && keep)), i.a.data))
  }

  /** Address arithmetic on a register capability or on the PCC. */
  function AddrOut(i: ExIn): ExOut {
    var src := if i.op.CAuipcc? then Pcc2FullCap(i.pcc) else FullA(i);
    var r := Full2RegCap(SetAddress(src, AddrResult(i)));
    var sealedSrc := !i.op.CAuipcc? && IsSealed(FullA(i));
    var r' := r.(valid := r.valid && !sealedSrc);
    var fault := i.tclrFault && (i.a.cap.valid || i.op.CAuipcc?) && !r'.valid;
    ExOut(!fault, RegVal(r', AddrResult(i)), false, NULL_VAL, false, NULL_PCC_CAP, 0, false, false)
  }

  function BoundsLength(i: ExIn): U32 {
    if i.op.CSetBoundsImm? then i.imm12 else i.b.data
  }

  function BoundsOut(i: ExIn): ExOut {
    var f := FullA(i);
    var req := PrepBoundReq(f, i.a.data, BoundsLength(i));
    var t := if i.op.CSetBoundsRndn? then SetBoundsRoundDown(f, i.a.data, req)
             else SetBounds(f, i.a.data, req, i.op.CSetBoundsEx?);
    var r := Full2RegCap(t.(valid := t.valid && !IsSealed(f)));
    var fault := i.tclrFault && f.valid && !r.valid;
    ExOut(!fault, RegVal(r, i.a.data), false, NULL_VAL, false, NULL_PCC_CAP, 0, false, false)
  }

  function RrlRam(i: ExIn): FullCap {
    SetBounds(NULL_FULL_CAP, 0, PrepBoundReq(NULL_FULL_CAP, 0, i.a.data), false)
  }

  function Align2(a: U32): U32 { a - a % 2 }
  function Align4(a: U32): U32 { a - a % 4 }

  /** MTCC and MEPCC accept only unsealed executable capabilities with an aligned address. */
  function Legalized(i: ExIn, aligned: U32): RegVal {
    var f := FullA(i);
    var r := Full2RegCap(SetAddress(f, aligned));
    var ok := i.a.data == aligned && f.perms.ex && f.otype == 0;
    RegVal(r.(valid := ok && f.valid), aligned)
  }

  /** CCSR_RW for every SCR but ZTOPC. */
  function CsrOut(i: ExIn): ExOut {
    var fault := PermVio(i) || IllegalScr(i);
    var w := if i.cs2 == SCR_MTCC then Legalized(i, Align4(i.a.data))
             else if i.cs2 == SCR_MEPCC then Legalized(i, Align2(i.a.data))
             else i.a;
    ExOut(!fault, i.csr, !fault && i.raddrA != 0 && i.cs2 != SCR_ZTOPC, w, false, NULL_PCC_CAP, 0, false, false)
  }

  /** The link register value: the PCC moved to the return address, sealed as a return sentry for x1. */
  function LinkCap(i: ExIn): RegCap {
    var r := Full2RegCap(SetAddress(Pcc2FullCap(i.pcc), PcIdNext(i)));
    if i.waddr == 1 then r.(otype := if i.mie then OTYPE_SENTRY_IE_BKWD else OTYPE_SENTRY_ID_BKWD) else r
  }

  function JumpOut(i: ExIn): ExOut {
    var fault := PermVio(i);
    var f := FullA(i);
    var jalr := !fault && i.op.CJalr?;
    ExOut(!fault, RegVal(LinkCap(i), PcIdNext(i)), false, NULL_VAL,
          jalr, Full2PccCap(f.(otype := OTYPE_UNSEALED)), Align2(AddrResult(i)),
          jalr && (f.otype == OTYPE_SENTRY_IE_FWD || f.otype == OTYPE_SENTRY_IE_BKWD),
          jalr && (f.otype == OTYPE_SENTRY_ID_FWD || f.otype == OTYPE_SENTRY_ID_BKWD))
  }

  function MainEx(i: ExIn): ExOut {
    match i.op
    case CGetPerm => WriteInt(PermsBits(FullA(i).perms))
    case CGetType => WriteInt(DecodeOtype(FullA(i).otype, FullA(i).perms.ex))
    case CGetBase => WriteInt(FullA(i).base32)
    case CGetTop => WriteInt(if FullA(i).top33 >= 0x1_0000_0000 then 0xFFFF_FFFF else FullA(i).top33)
    case CGetLen => WriteInt(CapLen(FullA(i)))
    case CGetTag => WriteInt(B(i.a.cap.valid))
    case CGetAddr => WriteInt(i.a.data)
    case CGetHigh => WriteInt(HighWord(i))
    case CSeal => SealOut(i)
    case CUnseal => UnsealOut(i)
    case CAndPerm => AndPermOut(i)
    case CSetHigh => Write(RegVal(Mem2RegCap0(i.b.data, i.a.data, NO_CLR), i.a.data))
    case CSetAddr => AddrOut(i)
    case CIncAddr => AddrOut(i)
    case CIncAddrImm => AddrOut(i)
    case CAuipcc => AddrOut(i)
    case CAuicgp => AddrOut(i)
    case CSetBounds => BoundsOut(i)
    case CSetBoundsImm => BoundsOut(i)
    case CSetBoundsEx => BoundsOut(i)
    case CSetBoundsRndn => BoundsOut(i)
    case CRrl => WriteInt(RrlRam(i).rlen)
    case CRam => WriteInt(RrlRam(i).maska)
    case CClearTag => Write(i.a.(cap := i.a.cap.(valid := false)))
    case CIsSubset => WriteInt(B(SubsetResult(i)))
    case CIsEqual => WriteInt(B(EqualResult(i)))
    case CSubCap => WriteInt(Wrap32(i.a.data - i.b.data))
    case CMoveCap => Write(i.a)
    case CLoadCap => NO_OUT
    case CStoreCap => NO_OUT
    case CCsrRw => CsrOut(i)
    case CJalr => JumpOut(i)
    case CJal => JumpOut(i)
  }

  /** What a capability load asks the memory path to clear. */
  function LoadClr(i: ExIn): ClrPerm {
    var p := FullA(i).perms;
    ClrPerm(!p.mc, !p.lm, !p.lg)
  }

  /** The capability a capability store writes. */
  function StoredCap(i: ExIn): RegCap {
    i.b.cap.(valid := i.b.cap.valid && !StoreLocalVio(i))
  }
}
