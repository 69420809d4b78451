/**
  Monotonicity: no instruction and no environment event ever makes a tagged capability that gives
  more than some capability tagged before, and none breaks the well-formedness of tagged ones.
 */
module Authority {
  import opened CapTypes
  import opened Bounds
  import opened BoundsCircuit
  import opened Rounding
  import opened RoundDown
  import opened Address
  import opened ExStage
  import opened Core
  import Bits

  /** If v is tagged, it is well-formed and gives no more than src, which must itself be tagged. */
  predicate From(v: RegVal, src: Auth, srcTagged: bool) {
    v.cap.valid ==> srcTagged && WellFormed(v.cap, v.data) && AuthLe(AuthOfVal(v), src)
  }

  predicate FromA(i: ExIn, v: RegVal) {
    From(v, AuthOfVal(i.a), i.a.cap.valid)
  }

  predicate FromPcc(i: ExIn, v: RegVal) {
    From(v, AuthOfPcc(i.pcc), i.pcc.valid)
  }

  predicate GoodVal(v: RegVal) {
    v.cap.valid ==> WellFormed(v.cap, v.data)
  }

  predicate GoodPcc(p: PccCap) {
    p.valid ==> PccWellFormed(p) && p.otype == 0
  }

  predicate GoodIn(i: ExIn) {
    GoodVal(i.a) && GoodVal(i.b) && GoodPcc(i.pcc) && GoodVal(i.csr)
  }

  // ---------------------------------------------------------------- results of instructions

  /** CTestSubset decides the order on authorities, between capabilities of the same tag. */
  lemma SubsetDecidesAuthority(i: ExIn)
    requires i.op.CIsSubset?
    ensures SubsetResult(i) <==> i.a.cap.valid == i.b.cap.valid && AuthLe(AuthOfVal(i.b), AuthOfVal(i.a))
  {
    hide GetBound33, ExpandPerms;
  }

  /** Tag, seal and permission changes leave the bounds alone. */
  lemma RelabelFromA(i: ExIn, c: RegCap)
    requires GoodIn(i) && (c.valid ==> i.a.cap.valid)
    requires c == i.a.cap.(valid := c.valid, otype := c.otype, cperms := c.cperms)
    requires PermsLe(ExpandPerms(c.cperms), ExpandPerms(i.a.cap.cperms))
    ensures FromA(i, RegVal(c, i.a.data))
  {
    hide GetBound33, ExpandPerms;
  }

  lemma SealFromA(i: ExIn)
    requires GoodIn(i)
    ensures FromA(i, SealOut(i).res)
  {
    hide GetBound33, ExpandPerms, AddrBoundVio, PermVio, WellFormed;
    RelabelFromA(i, SealOut(i).res.cap);
  }

  lemma UnsealFromA(i: ExIn)
    requires GoodIn(i)
    ensures FromA(i, UnsealOut(i).res)
  {
    hide GetBound33, ExpandPerms, CompressPerms, AddrBoundVio, PermVio, WellFormed;
    var p := FullA(i).perms.(gl := FullA(i).perms.gl && FullB(i).perms.gl);
    CompressNarrows(p);
    RelabelFromA(i, UnsealOut(i).res.cap);
  }

  lemma AndPermFromA(i: ExIn)
    requires GoodIn(i)
    ensures FromA(i, AndPermOut(i).res)
  {
    hide GetBound33, ExpandPerms, CompressPerms, PermsOf, WellFormed;
    CompressNarrows(PermsAnd(FullA(i).perms, PermsOf(i.b.data)));
    RelabelFromA(i, AndPermOut(i).res.cap);
  }

  lemma AddrFromSource(i: ExIn)
    requires GoodIn(i)
    ensures if i.op.CAuipcc? then FromPcc(i, AddrOut(i).res) else FromA(i, AddrOut(i).res)
    ensures !i.op.CAuipcc? && AddrOut(i).res.cap.valid ==> AddrOut(i).res.cap.otype == 0
    ensures i.op.CAuipcc? && AddrOut(i).res.cap.valid ==> AddrOut(i).res.cap.otype == 0
  {
    hide GetBound33, ExpandPerms, BoundsOk, FieldsOf, InWindow, AddrResult, SetAddress;
    var f := if i.op.CAuipcc? then Pcc2FullCap(i.pcc) else FullA(i);
    if f.valid {
      if i.op.CAuipcc? {
        PccSourceWellFormed(i.pcc);
      } else {
        RegSourceWellFormed(i.a.cap, i.a.data);
      }
    }
    SetAddressSound(f, AddrResult(i));
  }

  lemma BoundsFromA(i: ExIn)
    requires GoodIn(i)
    ensures FromA(i, BoundsOut(i).res)
    ensures BoundsOut(i).res.cap.valid ==> i.a.cap.otype == 0
  {
    hide GetBound33, ExpandPerms, Encodes, SetBounds, SetBoundsRoundDown, PrepBoundReq, BoundsLength;
    var c, addr, len := i.a.cap, i.a.data, BoundsLength(i);
    BoundsKeepTagDown(FullA(i), addr, len);
    if BoundsOut(i).res.cap.valid {
      CSetBoundsTightAndContained(c, addr, len, false);
      CSetBoundsTightAndContained(c, addr, len, true);
      RoundDownBounds(c, addr, len);
      RequestMeets(i);
    }
  }

  lemma BoundsKeepTagDown(f: FullCap, addr: U32, len: U32)
    ensures SetBounds(f, addr, PrepBoundReq(f, addr, len), false).valid ==> f.valid
    ensures SetBounds(f, addr, PrepBoundReq(f, addr, len), true).valid ==> f.valid
    ensures SetBoundsRoundDown(f, addr, PrepBoundReq(f, addr, len)).valid ==> f.valid
  {
    hide BoundPath, Shl32, PrepBoundReq, Bits.Shr;
  }

  /** The stage's result, tag aside, is that of the bounds functions on operand a. */
  lemma RequestMeets(i: ExIn)
    requires BoundsOut(i).res.cap.valid
    ensures
      var c, addr, len := i.a.cap, i.a.data, BoundsLength(i);
      var r := if i.op.CSetBoundsRndn? then RequestRoundDown(c, addr, len)
               else RequestBounds(c, addr, len, i.op.CSetBoundsEx?);
      BoundsOut(i).res == RegVal(r, addr)
  {
    hide SetBounds, SetBoundsRoundDown, PrepBoundReq, Reg2FullCap;
  }

  lemma LegalizedFromA(i: ExIn, aligned: U32)
    requires GoodIn(i)
    ensures FromA(i, Legalized(i, aligned))
    ensures Legalized(i, aligned).cap.valid ==> Legalized(i, aligned).cap.otype == 0
    ensures Legalized(i, aligned).cap.valid ==> Legalized(i, aligned).data == i.a.data
  {
    hide GetBound33, ExpandPerms, BoundsOk, FieldsOf, SetAddress;
    var v := Legalized(i, aligned);
    SetAddressKeepsFields(FullA(i), aligned);
    if v.cap.valid {
      RegSourceWellFormed(i.a.cap, i.a.data);
      SetAddressKeepsBounds(FullA(i), i.a.data);
      ValidIrrelevant(Full2RegCap(SetAddress(FullA(i), aligned)), v.cap, aligned);
    }
  }

  lemma SetAddressKeepsFields(f: FullCap, newptr: U32)
    ensures
      var r := SetAddress(f, newptr);
      r.cperms == f.cperms && r.otype == f.otype && r.exp == f.exp && r.top == f.top && r.base == f.base
  {
    hide Bits.And, Bits.Shl, Bits.Shr, Bits.Low;
  }

  lemma ValidIrrelevant(c: RegCap, d: RegCap, addr: U32)
    requires c == d.(valid := c.valid, otype := c.otype, rsvd := c.rsvd)
    ensures WellFormed(c, addr) <==> WellFormed(d, addr)
    ensures Base32(c, addr) == Base32(d, addr) && Top33(c, addr) == Top33(d, addr)
  {
    hide GetBound33, BoundsOk, FieldsOf, InWindow;
  }

  lemma CsrWriteFromA(i: ExIn)
    requires GoodIn(i)
    ensures FromA(i, CsrOut(i).csrW)
    ensures CsrOut(i).csrW.cap.valid && (i.cs2 == SCR_MTCC || i.cs2 == SCR_MEPCC) ==> CsrOut(i).csrW.cap.otype == 0
  {
    hide GetBound33, ExpandPerms, PermVio, Encodes, Legalized;
    LegalizedFromA(i, Align4(i.a.data));
    LegalizedFromA(i, Align2(i.a.data));
  }

  lemma LinkFromPcc(i: ExIn)
    requires GoodIn(i)
    ensures FromPcc(i, RegVal(LinkCap(i), PcIdNext(i)))
  {
    hide GetBound33, ExpandPerms, BoundsOk, FieldsOf, InWindow, SetAddress;
    if i.pcc.valid {
      PccSourceWellFormed(i.pcc);
    }
    var f := Pcc2FullCap(i.pcc);
    SetAddressSound(f, PcIdNext(i));
    ValidIrrelevant(Full2RegCap(SetAddress(f, PcIdNext(i))), LinkCap(i), PcIdNext(i));
  }

  /** A jump installs its target register as PCC, unsealed. */
  lemma JumpPccFromA(i: ExIn)
    requires GoodIn(i) && JumpOut(i).branch
    ensures
      var p := JumpOut(i).pcc;
      && p.valid ==> i.a.cap.valid && PccWellFormed(p) && p.otype == 0 && AuthLe(AuthOfPcc(p), AuthOfVal(i.a))
  {
    hide GetBound33, ExpandPerms, FieldsOf, InWindow, PermVio, LinkCap;
    if i.a.cap.valid {
      RegToPccWellFormed(i.a.cap, i.a.data);
    }
  }
}
