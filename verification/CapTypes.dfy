/**
  The capability formats of cheri_pkg: the compressed register format, its expanded form and the
  program-counter capability, with the permission encodings.
 */
module CapTypes {

  type U2 = x: int | 0 <= x < 4
  type U3 = x: int | 0 <= x < 8
  type U5 = x: int | 0 <= x < 32
  type U9 = x: int | 0 <= x < 512
  type U32 = x: int | 0 <= x < 0x1_0000_0000
  type U33 = x: int | 0 <= x < 0x2_0000_0000

  const RESETEXP := 24
  const RESETCEXP := 15

  const OTYPE_UNSEALED: U3 := 0
  const OTYPE_SENTRY_ID_FWD: U3 := 2
  const OTYPE_SENTRY_IE_FWD: U3 := 3
  const OTYPE_SENTRY_ID_BKWD: U3 := 4
  const OTYPE_SENTRY_IE_BKWD: U3 := 5

  /** The six compressed permission bits, most significant first. */
  datatype CPerms = CPerms(b5: bool, b4: bool, b3: bool, b2: bool, b1: bool, b0: bool)

  /** The twelve architectural permissions. */
  datatype Perms = Perms(gl: bool, lg: bool, sd: bool, lm: bool, sl: bool, ld: bool,
                         mc: bool, sr: bool, ex: bool, us: bool, se: bool, u0: bool)

  datatype RegCap = RegCap(valid: bool, topCor: U2, baseCor: bool, exp: U5, top: U9, base: U9,
                           otype: U3, cperms: CPerms, rsvd: bool)

  datatype FullCap = FullCap(valid: bool, exp: U5, top33: U33, base32: U32, otype: U3, perms: Perms,
                             topCor: U2, baseCor: bool, top: U9, base: U9, cperms: CPerms,
                             maska: U32, rsvd: bool, rlen: U32)

  datatype PccCap = PccCap(valid: bool, exp: U5, top33: U33, base32: U32, otype: U3, perms: Perms,
                           cperms: CPerms, rsvd: bool)

  const NULL_CPERMS := CPerms(false, false, false, false, false, false)
  const NULL_PERMS := Perms(false, false, false, false, false, false,
                            false, false, false, false, false, false)
  const NULL_REG_CAP := RegCap(false, 0, false, 0, 0, 0, 0, NULL_CPERMS, false)
  const NULL_FULL_CAP := FullCap(false, 0, 0, 0, 0, NULL_PERMS, 0, false, 0, 0, NULL_CPERMS, 0, false, 0)
  const NULL_PCC_CAP := PccCap(false, 0, 0, 0, 0, NULL_PERMS, NULL_CPERMS, false)

  /** Every permission of p is one of q. */
  predicate PermsLe(p: Perms, q: Perms) {
    && (p.gl ==> q.gl) && (p.lg ==> q.lg) && (p.sd ==> q.sd) && (p.lm ==> q.lm)
    && (p.sl ==> q.sl) && (p.ld ==> q.ld) && (p.mc ==> q.mc) && (p.sr ==> q.sr)
    && (p.ex ==> q.ex) && (p.us ==> q.us) && (p.se ==> q.se) && (p.u0 ==> q.u0)
  }

  function PermsAnd(p: Perms, q: Perms): Perms {
    Perms(p.gl && q.gl, p.lg && q.lg, p.sd && q.sd, p.lm && q.lm, p.sl && q.sl, p.ld && q.ld,
          p.mc && q.mc, p.sr && q.sr, p.ex && q.ex, p.us && q.us, p.se && q.se, p.u0 && q.u0)
  }

  // ---------------------------------------------------------------- permission encodings

  function ExpandPerms(c: CPerms): Perms {
    var p := NULL_PERMS.(gl := c.b5);
    if c.b4 && c.b3 then
      p.(lg := c.b0, lm := c.b1, sl := c.b2, ld := true, mc := true, sd := true)
    else if c.b4 && !c.b3 && c.b2 then
      p.(lg := c.b0, lm := c.b1, ld := true, mc := true)
    else if c.b4 && !c.b3 && !c.b2 && !c.b1 && !c.b0 then
      p.(sd := true, mc := true)
    else if c.b4 && !c.b3 && !c.b2 then
      p.(sd := c.b0, ld := c.b1)
    else if !c.b4 && c.b3 then
      p.(lg := c.b0, lm := c.b1, sr := c.b2, ex := true, mc := true, ld := true)
    else
      p.(us := c.b0, se := c.b1, u0 := c.b2)
  }

  function CompressPerms(p: Perms): CPerms {
    if p.ex && p.mc && p.ld then CPerms(p.gl, false, true, p.sr, p.lm, p.lg)
    else if p.ld && p.mc && p.sd then CPerms(p.gl, true, true, p.sl, p.lm, p.lg)
    else if p.ld && p.mc then CPerms(p.gl, true, false, true, p.lm, p.lg)
    else if p.sd && p.mc then CPerms(p.gl, true, false, false, false, false)
    else if p.sd || p.ld then CPerms(p.gl, true, false, false, p.ld, p.sd)
    else CPerms(p.gl, false, false, p.u0, p.se, p.us)
  }

  /** The four clear requests a capability load carries: tag, (unused), SD/LM and GL/LG. */
  datatype ClrPerm = ClrPerm(tag: bool, sdlm: bool, glg: bool)

  const NO_CLR := ClrPerm(false, false, false)

  function MaskClcPerms(c: CPerms, clr: ClrPerm, valid: bool, isSealed: bool): CPerms {
    var clrGl := clr.glg && valid;
    var clrLg := clr.glg && valid && !isSealed;
    var clrSdlm := clr.sdlm && valid && !isSealed;
    var o := c.(b5 := c.b5 && !clrGl);
    if c.b4 && c.b3 then
      var o := o.(b0 := c.b0 && !clrLg, b1 := c.b1 && !clrSdlm);
      if clrSdlm then o.(b4 := true, b3 := false, b2 := true) else o
    else if c.b4 && !c.b3 && c.b2 then
      o.(b0 := c.b0 && !clrLg, b1 := c.b1 && !clrSdlm)
    else if c.b4 && !c.b3 && !c.b2 && !c.b1 && !c.b0 then
      if clrSdlm then o.(b4 := false, b3 := false, b2 := false, b1 := false, b0 := false) else o
    else if c.b4 && !c.b3 && !c.b2 then
      o.(b4 := !(clrSdlm && !c.b1), b0 := c.b0 && !clrSdlm)
    else if !c.b4 && c.b3 then
      o.(b0 := c.b0 && !clrLg, b1 := c.b1 && !clrSdlm)
    else
      o
  }

  // ---------------------------------------------------------------- what the encodings promise

  /** Permission by permission, which of the six bits grant it. */
  lemma PermTable(c: CPerms)
    ensures
      var p := ExpandPerms(c);
      && p.gl == c.b5
      && p.ld == (c.b3 || (c.b4 && (c.b2 || c.b1)))
      && p.mc == (c.b3 || (c.b4 && (c.b2 || (!c.b1 && !c.b0))))
      && p.sd == (c.b4 && (c.b3 || (!c.b2 && (c.b0 || !c.b1))))
      && p.lm == (c.b1 && (c.b3 || (c.b4 && c.b2)))
      && p.lg == (c.b0 && (c.b3 || (c.b4 && c.b2)))
      && p.sl == (c.b4 && c.b3 && c.b2)
      && p.ex == (c.b3 && !c.b4)
      && p.sr == (c.b3 && !c.b4 && c.b2)
      && p.us == (!c.b4 && !c.b3 && c.b0)
      && p.se == (!c.b4 && !c.b3 && c.b1)
      && p.u0 == (!c.b4 && !c.b3 && c.b2)
  {
    if c.b4 {
      if c.b3 {} else if c.b2 {} else {}
    } else if c.b3 {} else {}
  }

  /** The six-bit encoding is canonical: decoding and encoding again changes nothing. */
  lemma CompressExpand(c: CPerms)
    ensures CompressPerms(ExpandPerms(c)) == c
  {
    if c.b4 {
      if c.b3 {} else if c.b2 {} else {}
    } else if c.b3 {} else {}
  }

  lemma CompressDrops(p: Perms)
    ensures PermsLe(ExpandPerms(CompressPerms(p)), p)
  {
  }

  lemma PermsLeTrans(p: Perms, q: Perms, r: Perms)
    requires PermsLe(p, q) && PermsLe(q, r)
    ensures PermsLe(p, r)
  {
  }

  /** Encoding never invents a permission, keeps GL, and is the identity on encodable sets. */
  lemma CompressNarrows(p: Perms)
    ensures PermsLe(ExpandPerms(CompressPerms(p)), p)
    ensures ExpandPerms(CompressPerms(p)).gl == p.gl
    ensures (exists c :: ExpandPerms(c) == p) <==> ExpandPerms(CompressPerms(p)) == p
  {
    if c :| ExpandPerms(c) == p {
      CompressExpand(c);
    }
  }

  /** What loading through a weaker capability takes away, on the twelve architectural bits. */
  function LoadedPerms(p: Perms, clr: ClrPerm, valid: bool, isSealed: bool): Perms {
    var clrGl := clr.glg && valid;
    var clrLg := clr.glg && valid && !isSealed;
    var clrSdlm := clr.sdlm && valid && !isSealed;
    p.(gl := p.gl && !clrGl, lg := p.lg && !clrLg, sd := p.sd && !clrSdlm, lm := p.lm && !clrSdlm)
  }

  /**
    mask_clcperms works directly on the compressed bits. It computes exactly what decoding, clearing
    GL/LG/SD/LM and encoding again would compute.
   */
  lemma MaskIsClearThenCompress(c: CPerms, clr: ClrPerm, valid: bool, isSealed: bool)
    ensures MaskClcPerms(c, clr, valid, isSealed)
         == CompressPerms(LoadedPerms(ExpandPerms(c), clr, valid, isSealed))
  {
    if c.b4 {
      if c.b3 {} else if c.b2 {} else {}
    }
  }

  lemma MaskNarrows(c: CPerms, clr: ClrPerm, valid: bool, isSealed: bool)
    ensures PermsLe(ExpandPerms(MaskClcPerms(c, clr, valid, isSealed)), ExpandPerms(c))
    ensures
      var m := ExpandPerms(MaskClcPerms(c, clr, valid, isSealed));
      isSealed ==> m == ExpandPerms(c).(gl := m.gl)
  {
    hide ExpandPerms, CompressPerms, MaskClcPerms, LoadedPerms, PermsLe;
    var p, m := ExpandPerms(c), MaskClcPerms(c, clr, valid, isSealed);
    var cleared := LoadedPerms(p, clr, valid, isSealed);
    MaskIsClearThenCompress(c, clr, valid, isSealed);
    CompressDrops(cleared);
    LoadedNarrows(p, clr, valid, isSealed);
    PermsLeTrans(ExpandPerms(m), cleared, p);
    if isSealed {
      SealedMask(c, clr, valid);
    }
  }

  lemma LoadedNarrows(p: Perms, clr: ClrPerm, valid: bool, isSealed: bool)
    ensures PermsLe(LoadedPerms(p, clr, valid, isSealed), p)
  {
  }

  lemma SealedMask(c: CPerms, clr: ClrPerm, valid: bool)
    ensures
      var m := ExpandPerms(MaskClcPerms(c, clr, valid, true));
      m == ExpandPerms(c).(gl := m.gl)
  {
    hide ExpandPerms;
    ExpandGl(c, c.b5 && !(clr.glg && valid));
  }

  lemma ExpandGl(c: CPerms, g: bool)
    ensures ExpandPerms(c.(b5 := g)) == ExpandPerms(c).(gl := g)
  {
    if c.b4 {
      if c.b3 {} else if c.b2 {} else {}
    } else if c.b3 {} else {}
  }
}
