/**
  What each register-to-register instruction computes, in terms of tags, bounds, permissions and
  addresses alone: exactly when its result is tagged, and what it then stands for.
 */
module Instructions {
  import opened CapTypes
  import opened Bounds
  import opened BoundsCircuit
  import opened Rounding
  import opened RoundDown
  import opened Address
  import opened Codecs
  import opened CodecProofs
  import opened ExStage
  import opened Core
  import opened Authority
  import opened Monotone
  import opened Sealing
  import opened LoadStore
  import opened Storability
  import Bits

  function BaseOf(v: RegVal): U32 { Base32(v.cap, v.data) }
  function TopOf(v: RegVal): U33 { Top33(v.cap, v.data) }

  // ---------------------------------------------------------------- sealing

  /** The object type as software sees it: 1 to 7 with EX, 9 to 15 without. */
  function TypeOf(v: RegVal): nat {
    v.cap.otype + if v.cap.otype != 0 && !PermsIn(v).ex then 8 else 0
  }

  lemma SealResult(i: ExIn)
    requires i.op.CSeal?
    ensures MainEx(i) == SealOut(i)
  {
    hide SealOut;
  }

  lemma UnsealResult(i: ExIn)
    requires i.op.CUnseal?
    ensures MainEx(i) == UnsealOut(i)
  {
    hide UnsealOut;
  }

  /**
    CSEAL gives a tagged result exactly for a tagged unsealed cs1 and a tagged unsealed cs2 with SE whose
    address is inside its bounds and is a type for cs1: 1 to 7 if it is executable, else 9 to 15.
   */
  lemma SealDecides(i: ExIn)
    requires i.op.CSeal?
    ensures
      var o, t := MainEx(i), i.b.data;
      && o.we && o.res.data == i.a.data
      && o.res.cap == i.a.cap.(valid := o.res.cap.valid, otype := t % 8)
      && (o.res.cap.valid <==>
            && i.a.cap.valid && i.a.cap.otype == 0 && i.b.cap.valid && i.b.cap.otype == 0 && PermsIn(i.b).se
            && BaseOf(i.b) <= t < TopOf(i.b) && (if PermsIn(i.a).ex then 1 <= t <= 7 else 9 <= t <= 15))
  {
    hide MainEx, Base32, Top33, ExpandPerms;
    SealResult(i);
  }

  /**
    CUNSEAL gives a tagged result exactly for a tagged sealed cs1 and a tagged unsealed cs2 with US whose
    bounds contain the type of cs1. GL stays only if cs2 has it.
   */
  lemma UnsealDecides(i: ExIn)
    requires i.op.CUnseal?
    ensures
      var o := MainEx(i);
      && o.we && o.res.data == i.a.data
      && o.res.cap == i.a.cap.(valid := o.res.cap.valid, otype := 0, cperms := o.res.cap.cperms)
      && PermsIn(o.res) == PermsIn(i.a).(gl := PermsIn(i.a).gl && PermsIn(i.b).gl)
      && (o.res.cap.valid <==>
            && i.a.cap.valid && i.a.cap.otype != 0 && i.b.cap.valid && i.b.cap.otype == 0 && PermsIn(i.b).us
            && BaseOf(i.b) <= TypeOf(i.a) < TopOf(i.b))
  {
    hide MainEx, Base32, Top33, ExpandPerms, CompressPerms, UnsealOut;
    UnsealResult(i);
    UnsealTag(i);
    UnsealPerms(i);
  }

  lemma UnsealTag(i: ExIn)
    requires i.op.CUnseal?
    ensures UnsealOut(i).res.cap.valid <==>
              && i.a.cap.valid && i.a.cap.otype != 0 && i.b.cap.valid && i.b.cap.otype == 0 && PermsIn(i.b).us
              && BaseOf(i.b) <= TypeOf(i.a) < TopOf(i.b)
  {
    hide Base32, Top33, ExpandPerms, CompressPerms;
  }

  lemma UnsealPerms(i: ExIn)
    ensures
      var o := UnsealOut(i);
      && o.we && o.res.data == i.a.data
      && o.res.cap == i.a.cap.(valid := o.res.cap.valid, otype := 0, cperms := o.res.cap.cperms)
      && PermsIn(o.res) == PermsIn(i.a).(gl := PermsIn(i.a).gl && PermsIn(i.b).gl)
  {
    hide Base32, Top33, ExpandPerms, CompressPerms, AddrBoundVio, PermVio;
    DropGlEncodable(i.a.cap.cperms, ExpandPerms(i.a.cap.cperms).gl && ExpandPerms(i.b.cap.cperms).gl);
  }

  /** CGETTYPE of what CSEAL sealed is the type it was given. */
  lemma TypeReadBack(i: ExIn, j: ExIn)
    requires i.op.CSeal? && MainEx(i).res.cap.valid && j.op.CGetType? && j.a == MainEx(i).res
    ensures MainEx(j).res == RegVal(NULL_REG_CAP, i.b.data)
  {
    hide Base32, Top33, ExpandPerms, SealOut, AddrBoundVio, PermVio;
    SealDecides(i);
    TypeRead(j);
  }

  lemma TypeRead(i: ExIn)
    requires i.op.CGetType?
    ensures MainEx(i).res == RegVal(NULL_REG_CAP, TypeOf(i.a))
  {
    hide Base32, Top33, ExpandPerms;
  }

  // ---------------------------------------------------------------- permissions

  /** Permission number k. */
  predicate Has(p: Perms, k: nat) {
    if k == 0 then p.gl else if k == 1 then p.lg else if k == 2 then p.sd else if k == 3 then p.lm
    else if k == 4 then p.sl else if k == 5 then p.ld else if k == 6 then p.mc else if k == 7 then p.sr
    else if k == 8 then p.ex else if k == 9 then p.us else if k == 10 then p.se else k == 11 && p.u0
  }

  /** n with its k lowest bits dropped. */
  function Halved(n: nat, k: nat): nat
    decreases k
  {
    if k == 0 then n else Halve(Halved(n, k - 1))
  }

  /** Bit k of n. */
  predicate BitAt(n: nat, k: nat) {
    Halved(n, k) % 2 == 1
  }

  lemma {:induction false} HalvedFront(n: nat, k: nat)
    requires k > 0
    ensures Halved(n, k) == Halved(Halve(n), k - 1)
    decreases k
  {
    hide Halve;
    if k > 1 {
      HalvedFront(n, k - 1);
    }
  }

  lemma BitOfJoin(b: bool, n: nat, k: nat)
    ensures BitAt(Join(b, n), k) == if k == 0 then b else BitAt(n, k - 1)
  {
    hide Halve, Join;
    JoinSplits(b, n);
    if k > 0 {
      HalvedFront(Join(b, n), k);
    }
  }

  lemma {:induction false} BitOfZero(k: nat)
    ensures !BitAt(0, k) && Halved(0, k) == 0
    decreases k
  {
    if k > 0 {
      BitOfZero(k - 1);
    }
  }

  /** The mask operand of CANDPERM, bit by bit. */
  lemma MaskBits(n: U32, k: nat)
    requires k < 12
    ensures Has(PermsOf(n), k) == BitAt(n, k)
  {
    hide Halve, Halved;
    Unrolled(n);
  }

  lemma Unrolled(n: nat)
    ensures
      var h4, h8 := Halved(n, 4), Halved(n, 8);
      && Halved(n, 0) == n && Halved(n, 1) == Halve(n) && Halved(n, 2) == Halve(Halve(n))
      && Halved(n, 3) == Halve(Halve(Halve(n))) && h4 == Halve(Halved(n, 3))
      && Halved(n, 5) == Halve(h4) && Halved(n, 6) == Halve(Halve(h4)) && Halved(n, 7) == Halve(Halve(Halve(h4)))
      && h8 == Halve(Halved(n, 7))
      && Halved(n, 9) == Halve(h8) && Halved(n, 10) == Halve(Halve(h8)) && Halved(n, 11) == Halve(Halve(Halve(h8)))
  {
    hide Halve;
    HalvedThree(n, 0);
    HalvedThree(n, 3);
    HalvedThree(n, 4);
    HalvedThree(n, 7);
    HalvedThree(n, 8);
  }

  lemma HalvedThree(n: nat, k: nat)
    ensures
      var h := Halved(n, k);
      && Halved(n, k + 1) == Halve(h) && Halved(n, k + 2) == Halve(Halve(h))
      && Halved(n, k + 3) == Halve(Halve(Halve(h)))
  {
    hide Halve;
    assert Halved(n, k + 2) == Halve(Halved(n, k + 1));
  }

  lemma FourBits(b0: bool, b1: bool, b2: bool, b3: bool, n: nat, k: nat)
    ensures
      var x := Join(b0, Join(b1, Join(b2, Join(b3, n))));
      && (k == 0 ==> BitAt(x, k) == b0) && (k == 1 ==> BitAt(x, k) == b1)
      && (k == 2 ==> BitAt(x, k) == b2) && (k == 3 ==> BitAt(x, k) == b3)
      && (k >= 4 ==> BitAt(x, k) == BitAt(n, k - 4))
  {
    hide BitAt, Join;
    BitOfJoin(b0, Join(b1, Join(b2, Join(b3, n))), k);
    if k >= 1 {
      BitOfJoin(b1, Join(b2, Join(b3, n)), k - 1);
    }
    if k >= 2 {
      BitOfJoin(b2, Join(b3, n), k - 2);
    }
    if k >= 3 {
      BitOfJoin(b3, n, k - 3);
    }
  }

  /** The three groups of four bits in CGETPERM's result. */
  function HighBits(p: Perms): nat { Join(p.ex, Join(p.us, Join(p.se, Join(p.u0, 0)))) }
  function MiddleBits(p: Perms): nat { Join(p.sl, Join(p.ld, Join(p.mc, Join(p.sr, HighBits(p))))) }

  lemma LowGroup(p: Perms, k: nat)
    ensures k < 4 ==> BitAt(PermsBits(p), k) == Has(p, k)
    ensures k >= 4 ==> BitAt(PermsBits(p), k) == BitAt(MiddleBits(p), k - 4)
  {
    hide BitAt, Join;
    FourBits(p.gl, p.lg, p.sd, p.lm, MiddleBits(p), k);
  }

  lemma MiddleGroup(p: Perms, k: nat)
    requires k >= 4
    ensures k < 8 ==> BitAt(MiddleBits(p), k - 4) == Has(p, k)
    ensures k >= 8 ==> BitAt(MiddleBits(p), k - 4) == BitAt(HighBits(p), k - 8)
  {
    hide BitAt, Join, HighBits;
    FourBits(p.sl, p.ld, p.mc, p.sr, HighBits(p), k - 4);
  }

  lemma HighGroup(p: Perms, k: nat)
    requires k >= 8
    ensures BitAt(HighBits(p), k - 8) == Has(p, k)
  {
    hide BitAt, Join;
    FourBits(p.ex, p.us, p.se, p.u0, 0, k - 8);
    if k >= 12 {
      BitOfZero(k - 12);
    }
  }

  lemma BitsOfPerms(p: Perms, k: nat)
    ensures BitAt(PermsBits(p), k) == Has(p, k)
  {
    hide BitAt, Has, HighBits, MiddleBits, PermsBits;
    LowGroup(p, k);
    if k >= 4 {
      MiddleGroup(p, k);
    }
    if k >= 8 {
      HighGroup(p, k);
    }
  }

  lemma PermResult(i: ExIn)
    requires i.op.CGetPerm?
    ensures MainEx(i) == WriteInt(PermsBits(PermsIn(i.a)))
  {
    hide PermsBits, Base32, Top33, ExpandPerms;
  }

  /** CGETPERM puts each permission at its bit position, and nothing above. */
  lemma PermRead(i: ExIn, k: nat)
    requires i.op.CGetPerm?
    ensures
      var r := MainEx(i).res;
      r.cap == NULL_REG_CAP && (BitAt(r.data, k) <==> Has(PermsIn(i.a), k))
  {
    hide MainEx, PermsBits, PermsIn, Has, BitAt;
    PermResult(i);
    BitsOfPerms(PermsIn(i.a), k);
  }

  lemma AndPermResult(i: ExIn)
    requires i.op.CAndPerm?
    ensures MainEx(i) == AndPermOut(i)
  {
    hide AndPermOut;
  }

  /** The permissions of v that the mask n lets through. */
  predicate Masked(p: Perms, v: RegVal, n: U32) {
    forall k | 0 <= k < 12 :: Has(p, k) == (Has(PermsIn(v), k) && BitAt(n, k))
  }

  /**
    CANDPERM keeps the permissions in the mask, all of them if that set is one the encoding has, and
    never others. The tag stays exactly for an unsealed cs1, or a sealed one of which at most GL goes.
   */
  lemma AndPermDecides(i: ExIn)
    requires i.op.CAndPerm?
    ensures
      var o := MainEx(i);
      && o.we && o.res.data == i.a.data
      && o.res.cap == i.a.cap.(valid := o.res.cap.valid, cperms := o.res.cap.cperms)
      && (exists p :: Masked(p, i.a, i.b.data) && PermsLe(PermsIn(o.res), p)
                      && (PermsIn(o.res) == p <==> exists c :: ExpandPerms(c) == p))
      && (o.res.cap.valid <==>
            i.a.cap.valid && (i.a.cap.otype == 0 || forall k | 1 <= k < 12 :: BitAt(i.b.data, k)))
  {
    hide MainEx, Base32, Top33, ExpandPerms, CompressPerms, BitAt, PermsOf;
    AndPermResult(i);
    var p := PermsAnd(PermsIn(i.a), PermsOf(i.b.data));
    CompressNarrows(p);
    forall k | 0 <= k < 12
      ensures Has(PermsOf(i.b.data), k) == BitAt(i.b.data, k)
    {
      MaskBits(i.b.data, k);
    }
    MaskedByAnd(i.a, i.b.data);
    AllButGl(i.b.data);
  }

  lemma AndTable(p: Perms, q: Perms, k: nat)
    ensures Has(PermsAnd(p, q), k) == (Has(p, k) && Has(q, k))
  {
    hide Has;
    if k < 6 {
      AndLow(p, q, k);
    } else {
      AndHigh(p, q, k);
    }
  }

  lemma AndLow(p: Perms, q: Perms, k: nat)
    requires k < 6
    ensures Has(PermsAnd(p, q), k) == (Has(p, k) && Has(q, k))
  {
  }

  lemma AndHigh(p: Perms, q: Perms, k: nat)
    requires k >= 6
    ensures Has(PermsAnd(p, q), k) == (Has(p, k) && Has(q, k))
  {
  }

  lemma MaskedByAnd(v: RegVal, n: U32)
    requires forall k | 0 <= k < 12 :: Has(PermsOf(n), k) == BitAt(n, k)
    ensures Masked(PermsAnd(PermsIn(v), PermsOf(n)), v, n)
  {
    hide PermsIn, BitAt, PermsOf, PermsAnd, Has;
    forall k | 0 <= k < 12
      ensures Has(PermsAnd(PermsIn(v), PermsOf(n)), k) == (Has(PermsIn(v), k) && BitAt(n, k))
    {
      AndTable(PermsIn(v), PermsOf(n), k);
    }
  }

  lemma FullTable(p: Perms)
    ensures p.(gl := true) == ALL_PERMS <==> forall k | 1 <= k < 12 :: Has(p, k)
  {
    hide Has;
    if p.(gl := true) == ALL_PERMS {
      forall k | 1 <= k < 12
        ensures Has(p, k)
      {
        FullHas(p, k);
      }
    } else {
      NotFull(p);
    }
  }

  lemma FullHas(p: Perms, k: nat)
    requires p.(gl := true) == ALL_PERMS && 1 <= k < 12
    ensures Has(p, k)
  {
  }

  lemma NotFull(p: Perms)
    requires p.(gl := true) != ALL_PERMS
    ensures exists k :: 1 <= k < 12 && !Has(p, k)
  {
    var k := if !p.lg then 1 else if !p.sd then 2 else if !p.lm then 3 else if !p.sl then 4 else if !p.ld then 5
             else if !p.mc then 6 else if !p.sr then 7 else if !p.ex then 8 else if !p.us then 9
             else if !p.se then 10 else 11;
    assert !Has(p, k);
  }

  lemma AllButGl(n: U32)
    requires forall k | 0 <= k < 12 :: Has(PermsOf(n), k) == BitAt(n, k)
    ensures PermsOf(n).(gl := true) == ALL_PERMS <==> forall k | 1 <= k < 12 :: BitAt(n, k)
  {
    hide BitAt, PermsOf, Has;
    var p := PermsOf(n);
    FullTable(p);
    if p.(gl := true) == ALL_PERMS {
      forall k | 1 <= k < 12
        ensures BitAt(n, k)
      {
        assert Has(p, k);
      }
    } else {
      var k :| 1 <= k < 12 && !Has(p, k);
      assert !BitAt(n, k);
    }
  }

  // ---------------------------------------------------------------- addresses

  /** A twenty-bit immediate as a signed number. */
  function Signed20(imm: U20): int { if imm < 0x8_0000 then imm else imm - 0x10_0000 }

  predicate MovesAddress(op: Op) {
    op.CSetAddr? || op.CIncAddr? || op.CIncAddrImm? || op.CAuicgp? || op.CAuipcc?
  }

  /** The address an instruction moves to. The upper immediates count in units of 2^11. */
  function NewAddress(i: ExIn): U32 {
    match i.op
    case CSetAddr => i.b.data
    case CIncAddr => (i.a.data + i.b.data) % 0x1_0000_0000
    case CIncAddrImm => (i.a.data + Signed12(i.imm12)) % 0x1_0000_0000
    case CAuicgp => (i.a.data + 0x800 * Signed20(i.imm20)) % 0x1_0000_0000
    case CAuipcc => (i.pcId + 0x800 * Signed20(i.imm20)) % 0x1_0000_0000
    case _ => 0
  }

  lemma AddressIs(i: ExIn)
    requires MovesAddress(i.op)
    ensures AddrResult(i) == NewAddress(i)
  {
    hide UpperImm, Sext12, Signed12, Signed20, Sext21;
    UpperIs(i.imm20, i.a.data);
    UpperIs(i.imm20, i.pcId);
    SignedSum(i.imm12, i.a.data);
  }

  lemma UpperIs(imm: U20, a: U32)
    ensures Wrap32(UpperImm(imm) + a) == (a + 0x800 * Signed20(imm)) % 0x1_0000_0000
  {
  }

  lemma AddrOutIs(i: ExIn)
    requires MovesAddress(i.op)
    ensures MainEx(i) == AddrOut(i)
  {
    hide AddrOut;
  }

  /** What v stands for, apart from its address. */
  predicate SameAuthority(v: RegVal, base: int, top: int, perms: Perms) {
    BaseOf(v) == base && TopOf(v) == top && PermsIn(v) == perms
  }

  /**
    Address instructions: the address is exact on 32 bits, the tag stays exactly for an unsealed tagged
    source whose window contains it, and then bounds and permissions are the source's. With the
    tag-clear fault on, a tagged source that would lose its tag leaves rd alone.
   */
  lemma AddressDecides(i: ExIn)
    requires GoodIn(i) && MovesAddress(i.op)
    ensures
      var o, pcc := MainEx(i), i.op.CAuipcc?;
      && o.res.data == NewAddress(i)
      && (o.res.cap.valid <==>
            if pcc then i.pcc.valid && InWindow(i.pcc.exp, i.pcc.base32, NewAddress(i))
            else i.a.cap.valid && i.a.cap.otype == 0 && InWindow(i.a.cap.exp, BaseOf(i.a), NewAddress(i)))
      && (o.res.cap.valid ==>
            && o.res.cap.otype == 0
            && (if pcc then SameAuthority(o.res, i.pcc.base32, i.pcc.top33, i.pcc.perms)
                else SameAuthority(o.res, BaseOf(i.a), TopOf(i.a), PermsIn(i.a))))
      && (o.we <==> !(i.tclrFault && (pcc || i.a.cap.valid) && !o.res.cap.valid))
  {
    hide MainEx, GetBound33, ExpandPerms, FieldsOf, InWindow, BoundsOk, SetAddress, AddrResult, NewAddress;
    AddrOutIs(i);
    AddressIs(i);
    var f := if i.op.CAuipcc? then Pcc2FullCap(i.pcc) else FullA(i);
    MoveKeeps(f, AddrResult(i));
    if f.valid {
      if i.op.CAuipcc? {
        PccSourceWellFormed(i.pcc);
      } else {
        RegSourceWellFormed(i.a.cap, i.a.data);
      }
      SourceLegal(f);
      SetAddressTag(f, AddrResult(i));
    }
    SetAddressSound(f, AddrResult(i));
  }

  lemma MoveKeeps(f: FullCap, a: U32)
    ensures SetAddress(f, a).valid ==> f.valid
  {
    hide Bits.And, Bits.Shl;
  }

  /** CSUB and CINCADDR undo each other on addresses. */
  lemma SubThenInc(i: ExIn, j: ExIn)
    requires i.op.CSubCap? && j.op.CIncAddr? && j.a == i.b && j.b == MainEx(i).res
    ensures MainEx(i).res.cap == NULL_REG_CAP && MainEx(j).res.data == i.a.data
  {
    hide MainEx, AddrOut;
    SubIs(i);
    AddrOutIs(j);
    AddressIs(j);
    AddrData(j);
  }

  lemma SubIs(i: ExIn)
    requires i.op.CSubCap?
    ensures MainEx(i).res == RegVal(NULL_REG_CAP, (i.a.data - i.b.data) % 0x1_0000_0000)
  {
  }

  lemma AddrData(i: ExIn)
    ensures AddrOut(i).res.data == AddrResult(i)
  {
    hide SetAddress, AddrResult, Reg2FullCap, Pcc2FullCap;
  }

  // ---------------------------------------------------------------- bounds

  predicate SetsBounds(op: Op) {
    op.CSetBounds? || op.CSetBoundsImm? || op.CSetBoundsEx? || op.CSetBoundsRndn?
  }

  /** The requested length: the second register, or the unsigned immediate. */
  function Requested(i: ExIn): U32 { if i.op.CSetBoundsImm? then i.imm12 else i.b.data }

  lemma BoundsOutIs(i: ExIn)
    requires SetsBounds(i.op)
    ensures MainEx(i) == BoundsOut(i)
  {
    hide BoundsOut;
  }

  /**
    Bounds instructions: the tag stays exactly for a tagged unsealed source that contains the request,
    which the exact form wants representable besides. The result is then the tightest region around the
    request, or for the round-down form the one from the exact base within the request. With the
    tag-clear fault on, a tagged source that would lose its tag leaves rd alone.
   */
  lemma BoundsDecides(i: ExIn)
    requires GoodIn(i) && SetsBounds(i.op)
    ensures
      var o, addr, len := MainEx(i), i.a.data, Requested(i);
      && o.res.data == addr
      && (o.res.cap.valid <==>
            && i.a.cap.valid && i.a.cap.otype == 0 && BaseOf(i.a) <= addr && addr + len <= TopOf(i.a)
            && (i.op.CSetBoundsEx? ==> Representable(addr, addr + len)))
      && (o.res.cap.valid ==>
            && PermsIn(o.res) == PermsIn(i.a) && o.res.cap.otype == 0
            && (if i.op.CSetBoundsRndn?
                then BaseOf(o.res) == addr
                     && TopOf(o.res) == addr + Bits.Scale(RoundDownUnits(addr, len), RoundDownExp(addr, len))
                else TightlyBounded(o.res.cap, addr, len)))
      && (o.we <==> !(i.tclrFault && i.a.cap.valid && !o.res.cap.valid))
  {
    hide MainEx, GetBound33, ExpandPerms, Encodes, SetBounds, SetBoundsRoundDown, PrepBoundReq, WellFormed;
    hide TightlyBounded, Representable, RoundDownUnits, RoundDownExp, Bits.Scale;
    BoundsOutIs(i);
    var c, addr, len := i.a.cap, i.a.data, Requested(i);
    assert BoundsLength(i) == len;
    BoundsKeepTagDown(FullA(i), addr, len);
    if c.valid {
      CSetBoundsTag(c, addr, len);
      CSetBoundsTightAndContained(c, addr, len, false);
      CSetBoundsTightAndContained(c, addr, len, true);
      RoundDownBounds(c, addr, len);
    }
  }

  /** CRRL and CRAM answer for the length in rs1. */
  lemma LengthsRead(i: ExIn)
    ensures i.op.CRrl? ==> MainEx(i).res == RegVal(NULL_REG_CAP, Crrl(i.a.data))
    ensures i.op.CRam? ==> MainEx(i).res == RegVal(NULL_REG_CAP, Cram(i.a.data))
  {
    hide SetBounds, PrepBoundReq;
  }

  // ---------------------------------------------------------------- what software reads

  /** A number that fits a register, or the largest word. */
  function Saturated(n: int): U32 {
    if n >= 0x1_0000_0000 then 0xFFFF_FFFF else if n < 0 then 0 else n
  }

  /** Base, top, tag and address as integers; 2^32 reads as the largest word. */
  lemma BoundsRead(i: ExIn)
    ensures i.op.CGetBase? ==> MainEx(i).res == RegVal(NULL_REG_CAP, BaseOf(i.a))
    ensures i.op.CGetTop? ==> MainEx(i).res == RegVal(NULL_REG_CAP, Saturated(TopOf(i.a)))
    ensures i.op.CGetTag? ==> MainEx(i).res == RegVal(NULL_REG_CAP, if i.a.cap.valid then 1 else 0)
    ensures i.op.CGetAddr? ==> MainEx(i).res == RegVal(NULL_REG_CAP, i.a.data)
  {
    hide Base32, Top33, ExpandPerms;
  }

  /** The length of a tagged capability, the largest word for all of memory. */
  lemma LengthRead(i: ExIn)
    requires GoodVal(i.a) && i.op.CGetLen? && i.a.cap.valid
    ensures 0 <= TopOf(i.a) - BaseOf(i.a) <= 0x1_0000_0000
    ensures MainEx(i).res == RegVal(NULL_REG_CAP, Saturated(TopOf(i.a) - BaseOf(i.a)))
  {
    hide Base32, Top33, ExpandPerms, FieldsOf, InWindow, CorsAt, Bits.Low, Bits.Scale;
  }

  /** CGETHIGH reads the metadata word a capability store writes, in both formats. */
  lemma HighRead(cfg: Config, i: ExIn)
    requires i.op.CGetHigh? && cfg.memFmt1 == i.memFmt1
    ensures MainEx(i).res == RegVal(NULL_REG_CAP, DataOf(StoredWords(cfg, i.a).msw))
  {
    hide Reg2Mem1, Reg2MemCap0, DataOf;
  }

  /** On values the machine can hold, CTESTEQUAL is equality, corrections included. */
  lemma EqualDecides(i: ExIn)
    requires i.op.CIsEqual? && StorableVal(i.a) && StorableVal(i.b)
    ensures MainEx(i).res == RegVal(NULL_REG_CAP, if i.a == i.b then 1 else 0)
  {
    hide MainEx, Storable, EqualResult;
    EqualRead(i);
    EqualFields(i);
  }

  lemma EqualRead(i: ExIn)
    requires i.op.CIsEqual?
    ensures MainEx(i).res == RegVal(NULL_REG_CAP, if EqualResult(i) then 1 else 0)
  {
    hide EqualResult;
  }

  lemma EqualFields(i: ExIn)
    requires Storable(i.a.cap, i.a.data) && Storable(i.b.cap, i.b.data)
    ensures EqualResult(i) <==> i.a == i.b
  {
    hide Mid9, UpdateTempFields;
  }

  lemma SubsetRead(i: ExIn)
    requires i.op.CIsSubset?
    ensures
      MainEx(i).res == RegVal(NULL_REG_CAP,
        if i.a.cap.valid == i.b.cap.valid && AuthLe(AuthOfVal(i.b), AuthOfVal(i.a)) then 1 else 0)
  {
    hide SubsetResult, AuthLe, AuthOfVal;
    SubsetDecidesAuthority(i);
  }

  lemma MovesRead(i: ExIn)
    ensures i.op.CMoveCap? ==> MainEx(i).res == i.a
    ensures i.op.CClearTag? ==> MainEx(i).res == i.a.(cap := i.a.cap.(valid := false))
  {
    hide Reg2FullCap;
  }

  // ---------------------------------------------------------------- special registers

  /** What a write of v to a register that wants addresses aligned to n leaves there. */
  predicate Installed(w: RegVal, v: RegVal, n: nat)
    requires n > 0
  {
    && w.data == v.data - v.data % n
    && (w.cap.valid <==> v.cap.valid && v.data % n == 0 && PermsIn(v).ex && v.cap.otype == 0)
    && (StorableVal(v) && v.data % n == 0 ==> w.cap == v.cap.(valid := w.cap.valid))
  }

  lemma LegalizedInstalls(i: ExIn, n: nat)
    requires n == 2 || n == 4
    ensures Installed(Legalized(i, if n == 4 then Align4(i.a.data) else Align2(i.a.data)), i.a, n)
  {
    hide Base32, Top33, ExpandPerms, SetAddress;
    var aligned := if n == 4 then Align4(i.a.data) else Align2(i.a.data);
    SameAddressKeeps(i.a.cap, i.a.data);
    FieldsMoved(FullA(i), aligned);
  }

  /** Moving to the address a value already has changes no field. */
  lemma SameAddressKeeps(c: RegCap, addr: U32)
    ensures
      var r := Full2RegCap(SetAddress(Reg2FullCap(c, addr), addr));
      Storable(c, addr) ==> r == c.(valid := r.valid)
  {
    hide Base32, Top33, ExpandPerms, Bits.And, Bits.Shl, Mid9, UpdateTempFields;
  }

  lemma FieldsMoved(f: FullCap, a: U32)
    ensures Full2RegCap(SetAddress(f, a)).exp == f.exp
  {
    hide Bits.And, Bits.Shl;
  }

  predicate CsrAllowed(s: State, ev: Event)
    requires ev.Exec?
  {
    s.pcc.perms.sr && 27 < ev.cs2
  }

  /**
    CSPECIALRW on every register but ZTOPC: without SR in the PCC or below the implemented registers it
    changes nothing. Otherwise rd gets the old value and, unless rs1 is register 0, the special register
    the new one: MTCC and MEPCC keep the tag only of an unsealed executable capability with an aligned
    address, MTDC and MSCRATCHC take any value.
   */
  lemma CsrStep(cfg: Config, s: State, ev: Event)
    requires ev.Exec? && ev.op.CCsrRw? && InScope(ev)
    ensures !CsrAllowed(s, ev) ==> Step(cfg, s, ev) == s
    ensures
      CsrAllowed(s, ev) ==>
        var s', v := Step(cfg, s, ev), Reg(s, ev.rs1);
        var w := Scr(s', ev.cs2);
        && s' == SetReg(if ev.rs1 == 0 then s else SetScr(s, ev.cs2, w), ev.rd, Scr(s, ev.cs2))
        && (ev.rs1 != 0 ==>
              if ev.cs2 == SCR_MTCC then Installed(w, v, 4)
              else if ev.cs2 == SCR_MEPCC then Installed(w, v, 2)
              else w == v)
  {
    hide MainEx, Legalized, Installed, Align2, Align4, SetScr, SetReg, Scr, Step, Reg;
    var i := Operands(cfg, s, ev);
    StepIsCommit(cfg, s, ev);
    CsrOutIs(i);
    OperandsHere(cfg, s, ev);
    CsrFields(i);
    LegalizedInstalls(i, 2);
    LegalizedInstalls(i, 4);
    EnableKept(s, i, MainEx(i));
    CommitScr(s, i, MainEx(i), ev.cs2);
  }

  lemma EnableKept(s: State, i: ExIn, o: ExOut)
    ensures SetReg(if o.csrWe then SetScr(s, i.cs2, o.csrW) else s, i.waddr, o.res).mie == s.mie
  {
  }

  lemma OperandsHere(cfg: Config, s: State, ev: Event)
    requires ev.Exec?
    ensures
      var i := Operands(cfg, s, ev);
      && i.a == Reg(s, ev.rs1) && i.csr == Scr(s, ev.cs2) && i.raddrA == ev.rs1 && i.pcc == s.pcc
      && i.op == ev.op && i.cs2 == ev.cs2 && i.waddr == ev.rd
  {
    hide Reg, Scr;
  }

  lemma CsrFields(i: ExIn)
    requires i.op.CCsrRw? && i.cs2 != SCR_ZTOPC
    ensures
      var o := CsrOut(i);
      && o.we == (i.pcc.perms.sr && 27 < i.cs2) && o.res == i.csr && o.csrWe == (o.we && i.raddrA != 0)
      && !o.branch && !o.setMie && !o.clrMie
  {
    hide Legalized, Align2, Align4;
  }

  /** Every other instruction but loads, stores and jumps writes its result to rd, or nothing. */
  lemma RegisterStep(cfg: Config, s: State, ev: Event)
    requires ev.Exec? && !ev.op.CLoadCap? && !ev.op.CStoreCap? && !ev.op.CJalr? && !ev.op.CCsrRw?
    ensures
      var o := MainEx(Operands(cfg, s, ev));
      Step(cfg, s, ev) == if o.we then SetReg(s, ev.rd, o.res) else s
  {
    hide MainEx, Step;
    var i := Operands(cfg, s, ev);
    StepIsCommit(cfg, s, ev);
    OnlyCsrWrites(i);
    OnlyJumpsEnable(i);
  }

  lemma OnlyJumpsEnable(i: ExIn)
    requires !i.op.CJalr?
    ensures !MainEx(i).setMie && !MainEx(i).clrMie
  {
    hide Reg2FullCap, PermVio, AddrBoundVio, HighWord, RrlRam, SubsetResult, EqualResult, SetAddress, SetBounds;
    hide SetBoundsRoundDown, Mem2RegCap0, LinkCap, Legalized, PrepBoundReq, CompressPerms, PermsBits, PermsOf;
  }

  // ---------------------------------------------------------------- other events

  /** Integer results, the interrupt enable, a restored exception PC, and a tag revoked in a register. */
  lemma EventStep(cfg: Config, s: State, ev: Event)
    ensures ev.IntResult? ==> Step(cfg, s, ev) == SetReg(s, ev.rd, RegVal(NULL_REG_CAP, ev.value))
    ensures ev.WriteMie? ==> Step(cfg, s, ev) == s.(mie := ev.mieNew)
    ensures ev.MepccRestore? ==> Step(cfg, s, ev) == s.(mepcc := RegVal(NULL_REG_CAP, ev.value))
    ensures
      ev.RevokeReg? ==>
        Step(cfg, s, ev) == SetReg(s, ev.r, Reg(s, ev.r).(cap := Reg(s, ev.r).cap.(valid := false)))
  {
    hide Reg, SetReg;
  }
}
