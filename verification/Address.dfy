/**
  Moving the address of a capability: set_address keeps the tag exactly inside the representable
  window, and there the bounds read back unchanged, for register and program-counter sources alike.
 */
module Address {
  import opened Bits
  import opened CapTypes
  import opened Bounds

  /** The masked subtraction is zero exactly for offsets below one window. */
  lemma MaskedOffset(off: U33, exp: U5)
    requires exp <= RESETEXP
    ensures And(off / 512, Shl(Ones(24), exp, 24)) == 0 <==> off < Scale(512, exp)
  {
    hide Low, Shr, Scale, And;
    Pow2Literals();
    AndMask(off / 512, exp, 24);
    Split(off / 512, exp);
    ScaleOne(exp);
    ScaleTimes(512, exp);
    var x := off / 512;
    if x < Pow2(exp) {
      LowSmall(x, exp);
    }
  }

  lemma WindowBelowWrap(exp: U5)
    requires LegalExp(exp)
    ensures exp != RESETEXP ==> Scale(512, exp) <= 0x80_0000
    ensures exp == RESETEXP ==> Scale(512, exp) == 0x2_0000_0000
  {
    hide Scale;
    if exp == RESETEXP {
      ScaleTimes(512, RESETEXP);
      Pow2Literals();
    } else {
      SmallExp(exp);
    }
  }

  /** The tag survives a move exactly when the new address is in the window of the base. */
  lemma SetAddressTag(f: FullCap, newptr: U32)
    requires LegalExp(f.exp)
    ensures SetAddress(f, newptr).valid <==> f.valid && InWindow(f.exp, f.base32, newptr)
  {
    hide Low, Shr, Scale, And, Pow2, Shl;
    MaskedOffset((newptr - f.base32) % 0x2_0000_0000, f.exp);
    WindowBelowWrap(f.exp);
  }

  /** A move inside the window leaves the bounds readable at the new address. */
  lemma SetAddressKeepsBounds(f: FullCap, newptr: U32)
    requires FullWellFormed(f) && InWindow(f.exp, f.base32, newptr)
    ensures
      var r := Full2RegCap(SetAddress(f, newptr));
      && WellFormed(r, newptr)
      && Base32(r, newptr) == f.base32 && Top33(r, newptr) == f.top33
  {
    hide Low, Shr, Scale, And, Pow2, Shl, GetBound33;
    Decode(Full2RegCap(SetAddress(f, newptr)), newptr, f.base32, f.top33);
  }

  /** Both checks together: whatever leaves set_address tagged has its old bounds. */
  lemma SetAddressSound(f: FullCap, newptr: U32)
    requires f.valid ==> FullWellFormed(f)
    ensures
      var r := Full2RegCap(SetAddress(f, newptr));
      r.valid ==>
        && f.valid && WellFormed(r, newptr)
        && Base32(r, newptr) == f.base32 && Top33(r, newptr) == f.top33
        && ExpandPerms(r.cperms) == f.perms && r.otype == f.otype
  {
    hide Low, Shr, Scale, And, Pow2, Shl, GetBound33;
    if f.valid {
      SetAddressTag(f, newptr);
      if InWindow(f.exp, f.base32, newptr) {
        SetAddressKeepsBounds(f, newptr);
      }
    }
  }

  // ---------------------------------------------------------------- the two kinds of source

  lemma RegSourceWellFormed(c: RegCap, addr: U32)
    requires WellFormed(c, addr)
    ensures FullWellFormed(Reg2FullCap(c, addr))
  {
    hide Low, Shr, Scale, And, Pow2, Shl, GetBound33;
  }

  lemma SourceLegal(f: FullCap)
    requires FullWellFormed(f)
    ensures LegalExp(f.exp)
  {
  }

  lemma PccSourceWellFormed(p: PccCap)
    requires PccWellFormed(p)
    ensures FullWellFormed(Pcc2FullCap(p))
  {
    hide Low, Shr, Scale, And, Pow2, Shl, GetBound33;
  }

  /** A register capability installed as PCC, and a PCC seen from its own address, agree. */
  lemma RegToPccWellFormed(c: RegCap, addr: U32)
    requires WellFormed(c, addr)
    ensures PccWellFormed(Full2PccCap(Reg2FullCap(c, addr)))
  {
    hide Low, Shr, Scale, And, Pow2, Shl, GetBound33;
  }

  /**
    Address moves preserve bounds, register source: the tag is kept exactly when the exponent is the
    reset exponent or the new address lies in [base, base + 2^(exp+9)), and then the result decodes
    at its new address to the bounds the source had.
   */
  lemma RegMovePreservesBounds(c: RegCap, addr: U32, newptr: U32)
    requires c.valid && WellFormed(c, addr)
    ensures
      var r := Full2RegCap(SetAddress(Reg2FullCap(c, addr), newptr));
      && (r.valid <==> c.exp == RESETEXP || Base32(c, addr) <= newptr < Base32(c, addr) + Pow2(c.exp + 9))
      && (r.valid ==>
            && WellFormed(r, newptr)
            && Base32(r, newptr) == Base32(c, addr) && Top33(r, newptr) == Top33(c, addr))
  {
    hide Low, Shr, Scale, And, Pow2, Shl, GetBound33;
    RegSourceWellFormed(c, addr);
    var f := Reg2FullCap(c, addr);
    SetAddressTag(f, newptr);
    SetAddressSound(f, newptr);
    if c.exp != RESETEXP {
      SmallExp(c.exp);
    }
  }

  /** The same for a PCC source (CAUIPCC, link registers, exception PCs). */
  lemma PccMovePreservesBounds(p: PccCap, newptr: U32)
    requires p.valid && PccWellFormed(p)
    ensures
      var r := Full2RegCap(SetAddress(Pcc2FullCap(p), newptr));
      && (r.valid <==> p.exp == RESETEXP || p.base32 <= newptr < p.base32 + Pow2(p.exp + 9))
      && (r.valid ==> WellFormed(r, newptr) && Base32(r, newptr) == p.base32 && Top33(r, newptr) == p.top33)
  {
    hide Low, Shr, Scale, And, Pow2, Shl, GetBound33;
    PccSourceWellFormed(p);
    var f := Pcc2FullCap(p);
    SetAddressTag(f, newptr);
    SetAddressSound(f, newptr);
    if p.exp != RESETEXP {
      SmallExp(p.exp);
    }
  }
}
