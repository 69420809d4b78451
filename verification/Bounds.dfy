/**
  How a capability's bounds are read back from its compressed fields and its address, and how moving
  the address keeps them: get_bound33, update_temp_fields, set_address and the register, PCC and
  full-capability conversions.
 */
module Bounds {
  import opened Bits
  import opened CapTypes

  // ---------------------------------------------------------------- the circuits

  /** get_bound33, with the source's shifts and masks. */
  function GetBound33(field: U9, cor: U2, exp: U5, addr: U32): U33 {
    var cor0: nat := if cor >= 2 then Ones(33) else cor % 2;
    var corVal := Shl(Shl(cor0, exp, 33), 9, 33);
    var mask := Shl(Shl(Ones(33), exp, 33), 9, 33);
    var t1 := (And(addr, mask) + corVal) % 0x2_0000_0000;
    Or(t1, Shl(field, exp, 33)) % 0x2_0000_0000
  }

  /** The nine address bits update_temp_fields compares with the base field. */
  function Mid9(addr: U32, exp: U5): U9 {
    Shr(addr, exp) % 512
  }

  datatype Cors = Cors(topCor: U2, baseCor: bool)

  function UpdateTempFields(top: U9, base: U9, addrmi: U9): Cors {
    var topHi := top < base;
    var addrHi := addrmi < base;
    Cors(if topHi == addrHi then 0 else if topHi && !addrHi then 1 else 3, addrHi)
  }

  function Top33(c: RegCap, addr: U32): U33 {
    GetBound33(c.top, c.topCor, c.exp, addr)
  }

  function Base32(c: RegCap, addr: U32): U32 {
    GetBound33(c.base, if c.baseCor then 3 else 0, c.exp, addr) % 0x1_0000_0000
  }

  function Reg2FullCap(c: RegCap, addr: U32): FullCap {
    FullCap(c.valid, c.exp, Top33(c, addr), Base32(c, addr), c.otype, ExpandPerms(c.cperms),
            c.topCor, c.baseCor, c.top, c.base, c.cperms, 0, c.rsvd, 0)
  }

  function Full2RegCap(f: FullCap): RegCap {
    RegCap(f.valid, f.topCor, f.baseCor, f.exp, f.top, f.base, f.otype, f.cperms, f.rsvd)
  }

  function Pcc2FullCap(p: PccCap): FullCap {
    FullCap(p.valid, p.exp, p.top33, p.base32, p.otype, p.perms, 0, false,
            Shr(p.top33, p.exp) % 512, Shr(p.base32, p.exp) % 512, p.cperms, 0, p.rsvd, 0)
  }

  function Full2PccCap(f: FullCap): PccCap {
    PccCap(f.valid, f.exp, f.top33, f.base32, f.otype, f.perms, f.cperms, f.rsvd)
  }

  /** set_address with chktop = chkbase = 0, the only form the core uses. */
  function SetAddress(f: FullCap, newptr: U32): FullCap {
    var mask24 := Shl(Ones(24), f.exp, 24);
    var tmp33 := (newptr - f.base32) % 0x2_0000_0000;
    var tmp24 := And(tmp33 / 512, mask24);
    var cors := UpdateTempFields(f.top, f.base, Mid9(newptr, f.exp));
    f.(valid := f.valid && tmp24 == 0, topCor := cors.topCor, baseCor := cors.baseCor)
  }

  function Pcc2Mepcc(p: PccCap, addr: U32, clrtag: bool): RegCap {
    var r := Full2RegCap(SetAddress(Pcc2FullCap(p), addr));
    r.(valid := r.valid && !clrtag)
  }

  // ---------------------------------------------------------------- what they mean

  predicate LegalExp(e: U5) {
    e <= 14 || e == RESETEXP
  }

  /** The bounds [base, top) are made of whole units of 2^exp, at most 511 of them. */
  predicate BoundsOk(exp: U5, base: nat, top: nat) {
    && LegalExp(exp)
    && base <= top <= 0x1_0000_0000
    && Low(base, exp) == 0 && Low(top, exp) == 0
    && top - base <= Scale(511, exp)
  }

  /** The nine-bit fields are the low unit numbers of the bounds. */
  predicate FieldsOf(topF: U9, baseF: U9, exp: U5, base: nat, top: nat) {
    && topF == Shr(top, exp) % 512
    && baseF == Shr(base, exp) % 512
  }

  /** The addresses at which bounds starting at base can be represented. */
  predicate InWindow(exp: U5, base: nat, addr: U32) {
    exp == RESETEXP || base <= addr < base + Scale(512, exp)
  }

  /** The correction bits are those of the capability's own address. */
  predicate CorsAt(c: RegCap, addr: U32) {
    Cors(c.topCor, c.baseCor) == UpdateTempFields(c.top, c.base, Mid9(addr, c.exp))
  }

  /** Capability c at address addr stands for exactly the bounds [base, top). */
  predicate Encodes(c: RegCap, addr: U32, base: nat, top: nat) {
    && BoundsOk(c.exp, base, top)
    && FieldsOf(c.top, c.base, c.exp, base, top)
    && InWindow(c.exp, base, addr)
    && CorsAt(c, addr)
  }

  /** The invariant of tagged capabilities. */
  predicate WellFormed(c: RegCap, addr: U32) {
    Encodes(c, addr, Base32(c, addr), Top33(c, addr))
  }

  predicate FullWellFormed(f: FullCap) {
    && BoundsOk(f.exp, f.base32, f.top33)
    && FieldsOf(f.top, f.base, f.exp, f.base32, f.top33)
    && f.perms == ExpandPerms(f.cperms)
  }

  predicate PccWellFormed(p: PccCap) {
    && BoundsOk(p.exp, p.base32, p.top33)
    && p.perms == ExpandPerms(p.cperms)
  }

  // ---------------------------------------------------------------- get_bound33 in plain arithmetic

  lemma ShlShl(a: nat, j: nat, k: nat, w: nat)
    ensures Shl(Shl(a, j, w), k, w) == Shl(a, j + k, w)
  {
    hide Low, Shr, Scale, Pow2, And, Or;
    ScaleNat(a, j);
    ScaleNat(a, j + k);
    Split(Scale(a, j), w);
    var q, r := Shr(Scale(a, j), w), Low(Scale(a, j), w);
    ScaleTwice(a, j, k);
    ScaleAdd(Scale(q, w), r, k);
    ScaleTwice(q, w, k);
    ScaleTwice(q, k, w);
    ScaleNat(r, k);
    LowAdd(Scale(r, k), Scale(q, k), w);
  }

  /** Signed value of a correction. */
  function CorValue(cor: U2): int {
    if cor >= 2 then -1 else cor
  }

  lemma SmallExp(exp: U5)
    requires exp <= 14
    ensures Pow2(exp + 9) <= 0x80_0000 && Pow2(exp + 9) == Scale(512, exp)
  {
    hide Low, Shr, Scale, Pow2, And, Or;
    Pow2Literals();
    Pow2Mono(exp + 9, 23);
    ScaleOne(exp + 9);
    ScaleTwice(1, 9, exp);
    ScaleOne(9);
  }

  /** The correction, shifted into place: -1, 0 or 1 window on 33 bits. */
  lemma CorShifted(cor: U2, exp: U5)
    requires exp <= 14
    ensures
      var cor0: nat := if cor >= 2 then Ones(33) else cor % 2;
      var p := Pow2(exp + 9);
      Shl(Shl(cor0, exp, 33), 9, 33) == if cor >= 2 then 0x2_0000_0000 - p else if cor == 1 then p else 0
  {
    hide Low, Shr, Scale, Pow2, And, Or;
    Pow2Literals();
    SmallExp(exp);
    var cor0: nat := if cor >= 2 then Ones(33) else cor % 2;
    ShlShl(cor0, exp, 9, 33);
    HighMask(exp + 9, 33);
    ScaleOne(exp + 9);
    ScaleZero(exp + 9);
    LowSmall(0, 33);
    LowSmall(Pow2(exp + 9), 33);
  }

  lemma MaskedAddr(exp: U5, addr: U32)
    requires exp <= 14
    ensures And(addr, Shl(Shl(Ones(33), exp, 33), 9, 33)) == Scale(Shr(addr, exp) / 512, exp + 9) <= addr
  {
    hide Low, Shr, Scale, Pow2, And, Or;
    Pow2Literals();
    ShlShl(Ones(33), exp, 9, 33);
    AndMask(addr, exp + 9, 33);
    Split(addr, exp + 9);
    ShrNine(addr, exp);
  }

  lemma FieldShifted(field: U9, exp: U5)
    requires LegalExp(exp)
    ensures Shl(field, exp, 33) == Scale(field, exp) && 0 <= Scale(field, exp) < Pow2(exp + 9) <= Pow2(33)
  {
    hide Low, Shr, Scale, Pow2, And, Or;
    ScaleNat(field, exp);
    ScaleOrder(512, field, exp);
    ScaleOne(exp + 9);
    ScaleTwice(1, 9, exp);
    ScaleOne(9);
    Pow2Literals();
    Pow2Mono(exp + 9, 33);
    LowSmall(Scale(field, exp), 33);
  }

  /** The masked and corrected address: the window number, scaled. */
  lemma T1(cor: U2, exp: U5, addr: U32, w: nat)
    requires exp <= 14 && w == Shr(addr, exp) / 512 + CorValue(cor)
    ensures
      var cor0: nat := if cor >= 2 then Ones(33) else cor % 2;
      var t1 := (And(addr, Shl(Shl(Ones(33), exp, 33), 9, 33)) + Shl(Shl(cor0, exp, 33), 9, 33)) % 0x2_0000_0000;
      t1 == Scale(w, exp + 9) <= 0x1_0080_0000
  {
    hide Low, Shr, Scale, Pow2, And, Or;
    var u := Shr(addr, exp) / 512;
    MaskedAddr(exp, addr);
    CorShifted(cor, exp);
    SmallExp(exp);
    ScaleAdd(u, CorValue(cor), exp + 9);
    ScaleNat(w, exp + 9);
    ScaleOne(exp + 9);
    ScaleAdd(1, -1, exp + 9);
    ScaleZero(exp + 9);
  }

  /** For a small exponent get_bound33 replaces the low units of the address by the field. */
  lemma GetBound33Small(field: U9, cor: U2, exp: U5, addr: U32, w: nat)
    requires exp <= 14 && w == Shr(addr, exp) / 512 + CorValue(cor)
    ensures GetBound33(field, cor, exp, addr) == Scale(w * 512 + field, exp)
  {
    hide Low, Shr, Scale, Pow2, And, Or;
    T1(cor, exp, addr, w);
    FieldShifted(field, exp);
    SmallExp(exp);
    LowScaled(w, exp + 9, exp + 9);
    OrDisjoint(Scale(w, exp + 9), Scale(field, exp), exp + 9);
    ScaleAdd(w * 512, field, exp);
    ScaleTwice(w, 9, exp);
    ScaleByNine(w);
  }

  /** At the reset exponent the address does not matter. */
  lemma GetBound33Reset(field: U9, cor: U2, addr: U32)
    ensures GetBound33(field, cor, RESETEXP, addr) == Scale(field, RESETEXP)
  {
    hide Low, Shr, Scale, Pow2, And, Or;
    Pow2Literals();
    var cor0: nat := if cor >= 2 then Ones(33) else cor % 2;
    ShlShl(cor0, RESETEXP, 9, 33);
    LowScaled(cor0, 33, 33);
    ShlShl(Ones(33), RESETEXP, 9, 33);
    AndMask(addr, 33, 33);
    LowSmall(addr, 33);
    FieldShifted(field, RESETEXP);
    OrZero(Scale(field, RESETEXP));
  }

  // ---------------------------------------------------------------- decoding gives the bounds back

  /** In units of 2^exp: the corrections place both fields in the right 512-unit block. */
  lemma CorrectionsLocate(u: nat, b: nat, t: nat)
    requires b <= u < b + 512 && b <= t <= b + 511
    ensures
      var cors := UpdateTempFields(t % 512, b % 512, u % 512);
      && u / 512 + CorValue(cors.topCor) == t / 512
      && u / 512 + CorValue(if cors.baseCor then 3 else 0) == b / 512
  {
  }

  /** Distances between bounds and addresses, counted in units. */
  lemma UnitsBetween(base: nat, a: nat, n: nat, k: nat)
    requires Low(base, k) == 0
    ensures base <= a <==> Shr(base, k) <= Shr(a, k)
    ensures a < base + Scale(n, k) <==> Shr(a, k) < Shr(base, k) + n
  {
    hide Low, Shr, Scale, Pow2, And, Or;
    Split(base, k);
    Split(a, k);
    ScaleOne(k);
    var b, u := Shr(base, k), Shr(a, k);
    ScaleAdd(u, 1, k);
    ScaleAdd(b, n, k);
    ScaleOrder(b, u, k);
    ScaleOrder(u + 1, b, k);
    ScaleOrder(u + 1, b + n, k);
    ScaleOrder(b + n, u, k);
  }

  lemma EncodesInUnits(c: RegCap, addr: U32, base: nat, top: nat)
    requires Encodes(c, addr, base, top) && c.exp != RESETEXP
    ensures
      var u, b, t := Shr(addr, c.exp), Shr(base, c.exp), Shr(top, c.exp);
      && u / 512 + CorValue(c.topCor) == t / 512
      && u / 512 + CorValue(if c.baseCor then 3 else 0) == b / 512
  {
    hide Low, Shr, Scale, Pow2, And, Or, GetBound33;
    UnitsBetween(base, addr, 512, c.exp);
    UnitsBetween(base, top, 512, c.exp);
    ScaleOrder(512, 511, c.exp);
    CorrectionsLocate(Shr(addr, c.exp), Shr(base, c.exp), Shr(top, c.exp));
  }

  lemma DecodeField(field: U9, cor: U2, exp: U5, addr: U32, bound: nat)
    requires LegalExp(exp) && Low(bound, exp) == 0 && bound <= 0x1_0000_0000
    requires field == Shr(bound, exp) % 512
    requires exp == RESETEXP || Shr(addr, exp) / 512 + CorValue(cor) == Shr(bound, exp) / 512
    ensures GetBound33(field, cor, exp, addr) == bound
  {
    hide Low, Shr, Scale, Pow2, And, Or, GetBound33;
    Multiple(bound, exp);
    if exp == RESETEXP {
      GetBound33Reset(field, cor, addr);
      ShrMono(bound, 0x1_0000_0000, exp);
      ShrTop();
    } else {
      GetBound33Small(field, cor, exp, addr, Shr(bound, exp) / 512);
    }
  }

  /** Reading back a capability that stands for [base, top) gives base and top. */
  lemma Decode(c: RegCap, addr: U32, base: U32, top: nat)
    requires Encodes(c, addr, base, top)
    ensures Base32(c, addr) == base && Top33(c, addr) == top
    ensures WellFormed(c, addr)
  {
    hide Low, Shr, Scale, Pow2, And, Or, GetBound33;
    if c.exp != RESETEXP {
      EncodesInUnits(c, addr, base, top);
    }
    DecodeField(c.top, c.topCor, c.exp, addr, top);
    DecodeField(c.base, if c.baseCor then 3 else 0, c.exp, addr, base);
  }
}
