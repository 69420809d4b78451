/**
  What CSetBounds promises: the least usable exponent, the tightest enclosing region, and
  containment in the source even though only the unrounded request is compared with it.
 */
module Rounding {
  import opened Bits
  import opened CapTypes
  import opened Bounds
  import opened BoundsCircuit

  // ---------------------------------------------------------------- rounding to units of 2^k

  function CeilShr(a: nat, k: nat): nat {
    Shr(a, k) + if Low(a, k) == 0 then 0 else 1
  }

  /** The largest multiple of 2^k not above a, and the smallest not below it. */
  function FloorTo(a: nat, k: nat): nat {
    ScaleNat(Shr(a, k), k);
    Scale(Shr(a, k), k)
  }

  function CeilTo(a: nat, k: nat): nat {
    ScaleNat(CeilShr(a, k), k);
    Scale(CeilShr(a, k), k)
  }

  /** Units of 2^k touched by [addr, top). */
  function Span(addr: nat, top: nat, k: nat): int {
    CeilShr(top, k) - Shr(addr, k)
  }

  lemma FloorCeil(a: nat, k: nat)
    ensures a - Pow2(k) < FloorTo(a, k) <= a <= CeilTo(a, k) < a + Pow2(k)
    ensures Low(a, k) == 0 <==> FloorTo(a, k) == a
    ensures Low(a, k) == 0 <==> CeilTo(a, k) == a
    ensures FloorTo(a, k) == a - Low(a, k)
  {
    hide Low, Shr, Scale, Pow2;
    Split(a, k);
    ScaleAdd(Shr(a, k), 1, k);
    ScaleOne(k);
  }

  lemma CeilMono(a: nat, b: nat, k: nat)
    requires a <= b
    ensures CeilShr(a, k) <= CeilShr(b, k)
  {
    hide Low, Shr, Scale, Pow2;
    ShrMono(a, b, k);
    FloorCeil(a, k);
    FloorCeil(b, k);
    if Low(b, k) == 0 {
      ScaleOrder(CeilShr(a, k), Shr(b, k) + 1, k);
      ScaleAdd(Shr(b, k), 1, k);
      ScaleOne(k);
      ScaleOrder(Shr(b, k) + 1, CeilShr(a, k), k);
    }
  }

  lemma SpanScaled(addr: nat, len: nat, k: nat)
    ensures len <= Scale(Span(addr, addr + len, k), k) < len + 2 * Pow2(k)
  {
    hide Low, Shr, Scale, Pow2;
    FloorCeil(addr, k);
    FloorCeil(addr + len, k);
    ScaleAdd(Shr(addr, k), Span(addr, addr + len, k), k);
  }

  lemma SpanLower(addr: nat, len: nat, n: nat, k: nat)
    requires len >= Scale(n, k)
    ensures Span(addr, addr + len, k) >= n
  {
    hide Low, Shr, Scale, Pow2, Span;
    SpanScaled(addr, len, k);
    ScaleOrder(n, Span(addr, addr + len, k), k);
  }

  lemma SpanUpper(addr: nat, len: nat, n: nat, k: nat)
    requires len <= Scale(n, k)
    ensures Span(addr, addr + len, k) <= n + 1
  {
    hide Low, Shr, Scale, Pow2, Span;
    SpanScaled(addr, len, k);
    ScaleAdd(n, 2, k);
    ScaleAdd(1, 1, k);
    ScaleOne(k);
    ScaleOrder(n + 2, Span(addr, addr + len, k), k);
  }

  /** Where the bit length of length / 512 puts the length. */
  lemma LengthWindow(length: U32)
    ensures length < Scale(512, ExpLen(length))
    ensures ExpLen(length) > 0 ==> length >= Scale(512, ExpLen(length) - 1)
  {
    hide Scale, Pow2, BitLength;
    var l := ExpLen(length);
    BitLengthIsLeast(length / 512);
    ScaleTimes(512, l);
    if l > 0 {
      ScaleTimes(512, l - 1);
    }
  }

  lemma ScaleMonoExp(n: nat, j: nat, k: nat)
    requires j <= k
    ensures Scale(n, j) <= Scale(n, k)
  {
    hide Scale;
    ScaleTwice(n, j, k - j);
    ScaleNat(n, j);
    ScaleNat(Scale(n, j), k - j);
  }

  /** Below the bit length no region of this length fits; at it one unit too many may be needed. */
  lemma SpanAtExps(addr: U32, length: U32, e: U5)
    ensures e < ExpLen(length) ==> Span(addr, addr + length, e) >= 512
    ensures e == ExpLen(length) ==> Span(addr, addr + length, e) <= 513
    ensures e == ExpLen(length) + 1 ==> Span(addr, addr + length, e) <= 257
    ensures e == RESETEXP ==> Span(addr, addr + length, e) <= 257
    ensures Span(addr, addr + length, e) >= 0
  {
    hide Low, Shr, Scale, Pow2, Span, ExpLen;
    var l := ExpLen(length);
    LengthWindow(length);
    if e < l {
      ScaleMonoExp(512, e, l - 1);
      SpanLower(addr, length, 512, e);
    }
    if e == l {
      SpanUpper(addr, length, 512, e);
    }
    if e == l + 1 {
      ScaleTwice(256, 1, l);
      ScaleByOne(256);
      SpanUpper(addr, length, 256, e);
    }
    if e == RESETEXP {
      ScaleTimes(256, RESETEXP);
      Pow2Literals();
      SpanUpper(addr, length, 256, e);
    }
    ScaleZero(e);
    SpanLower(addr, length, 0, e);
  }

  lemma ScaleByOne(n: int)
    ensures Scale(n, 1) == 2 * n
  {
  }

  // ---------------------------------------------------------------- what the circuit computes

  predicate IsLeastExp(e: U5, addr: nat, top: nat) {
    && LegalExp(e) && Span(addr, top, e) <= 511
    && forall e': U5 | LegalExp(e') && e' < e :: Span(addr, top, e') > 511
  }

  lemma ModSum(t: nat, o: nat)
    ensures (t % 1024 + o) % 1024 == (t + o) % 1024
  {
  }

  lemma ModDifference(x: nat, y: nat)
    requires 0 <= x - y < 1024
    ensures (x % 1024 - y % 1024) % 1024 == x - y
  {
  }

  lemma ModMod(x: nat)
    ensures x % 1024 % 512 == x % 512
  {
  }

  /** Ten bits are enough for a span below 1024. */
  lemma TenBits(b: nat, t: nat, off: nat)
    requires 0 <= t + off - b < 1024
    ensures
      var top := (t % 1024 + off) % 1024;
      && (top - b % 1024) % 1024 == t + off - b
      && b % 1024 % 512 == b % 512 && top % 512 == (t + off) % 512
  {
    ModSum(t, off);
    ModDifference(t + off, b);
    ModMod(b);
    ModMod(t + off);
  }

  lemma PathMasks(exp: U5, a: U33)
    requires exp <= RESETEXP
    ensures
      var mask := Shl(Ones(33), exp, 33);
      && mask < Pow2(33) && (And(a, Not(mask, 33)) != 0 <==> Low(a, exp) != 0)
      && mask % 0x1_0000_0000 == 0x1_0000_0000 - Pow2(exp)
  {
    hide Low, Shr, Scale, Pow2, And, Shl;
    Pow2Literals();
    HighMask(exp, 33);
    AndNotMask(a, exp, 33);
    Pow2Mono(exp, 24);
  }

  /** One path of the circuit, in plain arithmetic. */
  lemma BoundPathArith(exp: U5, addr: U32, top: U33)
    requires exp <= RESETEXP && 0 <= Span(addr, top, exp) < 1024
    ensures
      var p := BoundPath(exp, addr, top);
      && p.len == Span(addr, top, exp)
      && p.base % 512 == Shr(addr, exp) % 512 && p.top % 512 == CeilShr(top, exp) % 512
      && (p.inexact <==> Low(addr, exp) != 0 || Low(top, exp) != 0)
      && (p.topHi <==> CeilShr(top, exp) % 512 >= Shr(addr, exp) % 512)
      && p.mask == 0x1_0000_0000 - Pow2(exp)
  {
    hide Low, Shr, Scale, Pow2, And, Shl, Not;
    PathMasks(exp, top);
    PathMasks(exp, addr);
    TenBits(Shr(addr, exp), Shr(top, exp), if Low(top, exp) == 0 then 0 else 1);
  }

  /** The fields of r describe [FloorTo(addr), CeilTo(top)) in units of 2^exp, at address addr. */
  predicate Rounded(r: FullCap, addr: U32, top: nat) {
    && r.base == Shr(addr, r.exp) % 512 && r.top == CeilShr(top, r.exp) % 512
    && r.baseCor == false && r.topCor == (if r.top >= r.base then 0 else 1)
  }

  predicate SetBoundsResult(f: FullCap, addr: U32, length: U32, exact: bool, r: FullCap) {
    var top := addr + length;
    && r.exp == ChosenExp(addr, length) && Rounded(r, addr, top)
    && r.valid == (f.valid && f.base32 <= addr && top <= f.top33
                   && (exact ==> Low(addr, r.exp) == 0 && Low(top, r.exp) == 0))
    && r.maska == 0x1_0000_0000 - Pow2(r.exp)
    && Span(addr, top, r.exp) >= 0 && r.rlen == Shl32(Span(addr, top, r.exp), r.exp)
  }

  /** set_bounds on its own request: every output in plain arithmetic. */
  lemma SetBoundsComputes(f: FullCap, addr: U32, length: U32, exact: bool)
    ensures
      SetBoundsResult(f, addr, length, exact, SetBounds(f, addr, PrepBoundReq(f, addr, length), exact))
  {
    hide Low, Shr, Scale, Pow2, And, Shl, Span, ExpLen, CeilShr, BoundPath, Shl32, TrailingZeros;
    var l := ExpLen(length);
    SpanAtExps(addr, length, SaturateExp(l));
    SpanAtExps(addr, length, SaturateExp(l + 1));
    BoundPathArith(SaturateExp(l), addr, addr + length);
    BoundPathArith(SaturateExp(l + 1), addr, addr + length);
  }

  /** The exponent the two saturated candidates and the overflow test lead to. */
  function ChosenExp(addr: U32, length: U32): U5 {
    var l := ExpLen(length);
    if Span(addr, addr + length, SaturateExp(l)) >= 512 then SaturateExp(l + 1) else SaturateExp(l)
  }

  lemma ChoiceIsLeast(addr: U32, length: U32)
    ensures IsLeastExp(ChosenExp(addr, length), addr, addr + length)
  {
    hide Low, Shr, Scale, Pow2, Span, ExpLen;
    var e := ChosenExp(addr, length);
    forall e': U5 | LegalExp(e') && e' < e
      ensures Span(addr, addr + length, e') > 511
    {
      SpanAtExps(addr, length, e');
    }
    SpanAtExps(addr, length, e);
  }

  // ---------------------------------------------------------------- tightness and containment

  lemma {:induction false} TopAligned(e: nat, w: nat)
    requires e <= w
    ensures Low(Pow2(w), e) == 0
  {
    if e > 0 {
      TopAligned(e - 1, w - 1);
    }
  }

  /** Rounding up never leaves the address space. */
  lemma CeilInSpace(top: nat, e: nat)
    requires top <= 0x1_0000_0000 && e <= 32
    ensures CeilTo(top, e) <= 0x1_0000_0000
  {
    hide Low, Shr, Scale, Pow2;
    Pow2Literals();
    TopAligned(e, 32);
    CeilMono(top, 0x1_0000_0000, e);
    FloorCeil(0x1_0000_0000, e);
    ScaleOrder(CeilShr(top, e), CeilShr(0x1_0000_0000, e), e);
  }

  /** Rounded fields stand for the rounded region. */
  lemma RoundedEncodes(r: FullCap, addr: U32, top: nat)
    requires LegalExp(r.exp) && Rounded(r, addr, top) && addr <= top <= 0x1_0000_0000
    requires Span(addr, top, r.exp) <= 511
    ensures Encodes(Full2RegCap(r), addr, FloorTo(addr, r.exp), CeilTo(top, r.exp))
  {
    hide Low, Shr, Scale, Pow2;
    var e := r.exp;
    CeilInSpace(top, e);
    FloorCeil(addr, e);
    FloorCeil(top, e);
    ShrScale(Shr(addr, e), e);
    ShrScale(CeilShr(top, e), e);
    ScaleAdd(Shr(addr, e), Span(addr, top, e), e);
    ScaleOrder(Span(addr, top, e), 511, e);
    ScaleAdd(Shr(addr, e), 512, e);
    ScaleOrder(1, 512, e);
    ScaleOne(e);
  }

  /** Coarser alignment implies finer alignment. */
  lemma AlignedFiner(a: nat, j: nat, k: nat)
    requires j <= k && Low(a, k) == 0
    ensures Low(a, j) == 0
  {
    hide Low, Shr, Scale, Pow2;
    LowLow(a, j, k);
    Pow2Mono(0, j);
    LowSmall(0, j);
  }

  /** The source's own bounds show that its exponent is large enough for anything inside it. */
  lemma SourceSpan(exp: U5, base: nat, top33: nat, addr: nat, top: nat)
    requires BoundsOk(exp, base, top33) && base <= addr <= top <= top33
    ensures Span(addr, top, exp) <= 511
  {
    hide Low, Shr, Scale, Pow2;
    ShrMono(base, addr, exp);
    CeilMono(top, top33, exp);
    Multiple(base, exp);
    Multiple(top33, exp);
    ScaleAdd(Shr(base, exp), 511, exp);
    ScaleOrder(Shr(top33, exp), Shr(base, exp) + 511, exp);
  }

  /** Rounding at an exponent not above the source's stays inside the source. */
  lemma RoundingContained(e: nat, exp: U5, base: nat, top33: nat, addr: nat, top: nat)
    requires BoundsOk(exp, base, top33) && base <= addr <= top <= top33 && e <= exp
    ensures base <= FloorTo(addr, e) && CeilTo(top, e) <= top33
  {
    hide Low, Shr, Scale, Pow2;
    AlignedFiner(base, e, exp);
    AlignedFiner(top33, e, exp);
    FloorCeil(base, e);
    FloorCeil(top33, e);
    ShrMono(base, addr, e);
    CeilMono(top, top33, e);
    ScaleOrder(Shr(base, e), Shr(addr, e), e);
    ScaleOrder(CeilShr(top, e), CeilShr(top33, e), e);
  }

  /** Some legal exponent represents [addr, top) without rounding. */
  predicate ExactAt(e: U5, addr: nat, top: nat)
    requires addr <= top
  {
    LegalExp(e) && Low(addr, e) == 0 && Low(top, e) == 0 && top - addr <= Scale(511, e)
  }

  ghost predicate Representable(addr: nat, top: nat)
    requires addr <= top
  {
    exists e: U5 :: ExactAt(e, addr, top)
  }

  lemma ExactSpan(e: U5, addr: nat, top: nat)
    requires addr <= top && Low(addr, e) == 0 && Low(top, e) == 0
    ensures Scale(Span(addr, top, e), e) == top - addr
    ensures top - addr <= Scale(511, e) <==> Span(addr, top, e) <= 511
  {
    hide Low, Shr, Scale, Pow2;
    FloorCeil(addr, e);
    FloorCeil(top, e);
    ScaleAdd(Shr(addr, e), Span(addr, top, e), e);
    ScaleOrder(Span(addr, top, e), 511, e);
  }

  /** The least exponent is exact as soon as any legal exponent is. */
  lemma LeastIsExact(e: U5, addr: nat, top: nat)
    requires addr <= top && IsLeastExp(e, addr, top)
    ensures Representable(addr, top) <==> Low(addr, e) == 0 && Low(top, e) == 0
  {
    hide Low, Shr, Scale, Pow2, Span, ExactAt;
    if Representable(addr, top) {
      var x: U5 :| ExactAt(x, addr, top);
      ExactAtFacts(x, addr, top);
      AlignedFiner(addr, e, x);
      AlignedFiner(top, e, x);
    }
    if Low(addr, e) == 0 && Low(top, e) == 0 {
      ExactSpan(e, addr, top);
      ExactAtIntro(e, addr, top);
    }
  }

  lemma ExactAtFacts(x: U5, addr: nat, top: nat)
    requires addr <= top && ExactAt(x, addr, top)
    ensures LegalExp(x) && Low(addr, x) == 0 && Low(top, x) == 0 && Span(addr, top, x) <= 511
  {
    hide Low, Shr, Scale, Span;
    ExactSpan(x, addr, top);
  }

  lemma ExactAtIntro(x: U5, addr: nat, top: nat)
    requires addr <= top && LegalExp(x) && Low(addr, x) == 0 && Low(top, x) == 0 && top - addr <= Scale(511, x)
    ensures ExactAt(x, addr, top)
  {
  }

  /** What a tagged result of CSetBounds, CSetBoundsImm or CSetBoundsExact is. */
  predicate TightlyBounded(r: RegCap, addr: U32, length: U32) {
    && WellFormed(r, addr)
    && IsLeastExp(r.exp, addr, addr + length)
    && Base32(r, addr) == FloorTo(addr, r.exp) && Top33(r, addr) == CeilTo(addr + length, r.exp)
  }

  function RequestBounds(c: RegCap, addr: U32, length: U32, exact: bool): RegCap {
    var f := Reg2FullCap(c, addr);
    Full2RegCap(SetBounds(f, addr, PrepBoundReq(f, addr, length), exact))
  }

  /**
    CSetBounds on a well-formed source: the tag is kept exactly when the unrounded request is inside
    the source, and then the result is the tightest representable region around the request and still
    lies inside the source.
   */
  lemma CSetBoundsTightAndContained(c: RegCap, addr: U32, length: U32, exact: bool)
    requires c.valid && WellFormed(c, addr)
    ensures
      var r := RequestBounds(c, addr, length, exact);
      r.valid ==>
        && Base32(c, addr) <= addr && addr + length <= Top33(c, addr)
        && TightlyBounded(r, addr, length)
        && Base32(c, addr) <= Base32(r, addr) && Top33(r, addr) <= Top33(c, addr)
        && r.cperms == c.cperms && r.otype == c.otype
  {
    hide Low, Shr, Scale, Pow2, And, Shl, Span, ExpLen, CeilShr, BoundPath, Shl32, TrailingZeros, GetBound33;
    hide FloorTo, CeilTo, SetBounds, Rounded;
    var f := Reg2FullCap(c, addr);
    var r := SetBounds(f, addr, PrepBoundReq(f, addr, length), exact);
    SetBoundsComputes(f, addr, length, exact);
    ChoiceIsLeast(addr, length);
    SetBoundsKeepsRest(f, addr, PrepBoundReq(f, addr, length), exact);
    var top := addr + length;
    if r.valid {
      SourceSpan(c.exp, f.base32, f.top33, addr, top);
      RoundedEncodes(r, addr, top);
      RoundingContained(r.exp, c.exp, f.base32, f.top33, addr, top);
      FloorCeil(addr, r.exp);
      Decode(Full2RegCap(r), addr, FloorTo(addr, r.exp), CeilTo(top, r.exp));
    }
  }

  lemma SetBoundsKeepsRest(f: FullCap, addr: U32, req: BoundReq, exact: bool)
    ensures
      var r := SetBounds(f, addr, req, exact);
      r.cperms == f.cperms && r.otype == f.otype && r.perms == f.perms && r.rsvd == f.rsvd
  {
    hide BoundPath, Shl32;
  }

  /** When the tag is kept, for the rounding and for the exact form. */
  lemma CSetBoundsTag(c: RegCap, addr: U32, length: U32)
    requires c.valid && WellFormed(c, addr)
    ensures
      var inside := Base32(c, addr) <= addr && addr + length <= Top33(c, addr);
      && RequestBounds(c, addr, length, false).valid == inside
      && RequestBounds(c, addr, length, true).valid == (inside && Representable(addr, addr + length))
  {
    hide Low, Shr, Scale, Pow2, And, Shl, Span, ExpLen, CeilShr, BoundPath, Shl32, TrailingZeros, GetBound33;
    hide SetBounds, Rounded, ExactAt;
    var f := Reg2FullCap(c, addr);
    SetBoundsComputes(f, addr, length, false);
    SetBoundsComputes(f, addr, length, true);
    ChoiceIsLeast(addr, length);
    LeastIsExact(ChosenExp(addr, length), addr, addr + length);
  }
}
