/**
  CSetBounds: how a requested region [addr, addr + length) is rounded to a representable one.
  The request is analysed with bit-length and trailing-zero counts, the bounds are computed along two
  exponent paths in parallel, and one of them is chosen.
 */
module BoundsCircuit {
  import opened Bits
  import opened CapTypes

  // ---------------------------------------------------------------- bit counts

  /** Number of bits needed to write n. */
  function BitLength(n: nat): nat {
    if n == 0 then 0 else 1 + BitLength(n / 2)
  }

  /** Number of zero bits below the lowest one among `width` bits. */
  function TrailingZeros(n: nat, width: nat): nat
    decreases width
  {
    if width == 0 || n % 2 == 1 then 0 else 1 + TrailingZeros(n / 2, width - 1)
  }

  function Bit(n: nat, i: nat): bool {
    Shr(n, i) % 2 == 1
  }

  // ---------------------------------------------------------------- the circuits

  datatype BoundReq = BoundReq(top33req: U33, exp1: U5, exp2: U5, explen: nat, expb: nat, inBound: bool)

  function ExpLen(length: U32): (n: nat)
    ensures n <= 23
  {
    Pow2Literals();
    BitLengthBound(length / 512, 23);
    BitLength(length / 512)
  }

  function SaturateExp(size: nat): U5 {
    if size >= RESETCEXP then RESETEXP else size
  }

  function PrepBoundReq(f: FullCap, addr: U32, length: U32): BoundReq {
    var top33req := addr + length;
    var explen := ExpLen(length);
    BoundReq(top33req, SaturateExp(explen), SaturateExp(explen + 1), explen, TrailingZeros(addr, 32),
             !(top33req > f.top33 || addr < f.base32))
  }

  /** The same analysis for the encoding with five exponent bits, which needs no saturation. */
  function PrepBoundReqIt8(f: FullCap, addr: U32, length: U32): BoundReq {
    var top33req := addr + length;
    var explen := ExpLen(length);
    BoundReq(top33req, explen, explen + 1, explen, TrailingZeros(addr, 32),
             !(top33req > f.top33 || addr < f.base32))
  }

  datatype Path = Path(base: nat, top: nat, len: nat, inexact: bool, topHi: bool, mask: nat)

  /** One of the two parallel paths, on ten-bit unit numbers. */
  function BoundPath(exp: U5, addr: U32, top33req: U33): Path {
    Pow2Literals();
    HighMask(exp, 33);
    var mask := Shl(Ones(33), exp, 33);
    var low := Not(mask, 33);
    var base := Shr(addr, exp) % 1024;
    var topOff := And(top33req, low) != 0;
    var baseOff := And(addr, low) != 0;
    var top := (Shr(top33req, exp) % 1024 + if topOff then 1 else 0) % 1024;
    Path(base, top, (top - base) % 1024, topOff || baseOff, top % 512 >= base % 512, mask % 0x1_0000_0000)
  }

  function SetBounds(f: FullCap, addr: U32, req: BoundReq, reqExact: bool): FullCap {
    var p1 := BoundPath(req.exp1, addr, req.top33req);
    var p2 := BoundPath(req.exp2, addr, req.top33req);
    var overflow := p1.len >= 512;
    var exp := if overflow then req.exp2 else req.exp1;
    var p := if overflow then p2 else p1;
    f.(exp := exp, top := p.top % 512, base := p.base % 512, maska := p.mask,
       rlen := Shl32(p.len, exp),
       topCor := if p.topHi then 0 else 1, baseCor := false,
       valid := f.valid && !(reqExact && p.inexact) && req.inBound)
  }

  function Shl32(a: nat, k: nat): U32 {
    ScaleNat(a, k);
    Scale(a, k) % 0x1_0000_0000
  }

  /** CSetBoundsRoundDown. */
  function SetBoundsRoundDown(f: FullCap, addr: U32, req: BoundReq): FullCap {
    var elGtEb := req.explen > req.expb;
    var elGt14 := req.explen > 14;
    var ebGt14 := req.expb > 14;
    var exp: U5 := if elGtEb && !ebGt14 then req.expb else if elGt14 then 14 else req.explen;
    var base: U9 := Shr(addr, exp) % 512;
    var top: U9 := if elGtEb || elGt14 then (base - 1) % 512 else Shr(req.top33req, exp) % 512;
    f.(exp := exp, base := base, top := top, valid := f.valid && req.inBound,
       topCor := if top >= base then 0 else 1, baseCor := false)
  }

  /** CSetBoundsRoundDown for the encoding with five exponent bits. */
  function SetBoundsRoundDownIt8(f: FullCap, addr: U32, req: BoundReq): FullCap
    requires req.explen <= 23
  {
    var elGtEb := req.explen > req.expb;
    var exp: U5 := if elGtEb then req.expb else req.explen;
    var base: U9 := Shr(addr, exp) % 512;
    var top: U9 := if elGtEb then (base - 1) % 512 else Shr(req.top33req, exp) % 512;
    f.(exp := exp, base := base, top := top, valid := f.valid && req.inBound,
       topCor := if top >= base then 0 else 1, baseCor := false)
  }

  // ---------------------------------------------------------------- bit counts, facts

  lemma {:induction false} BitLengthBound(n: nat, k: nat)
    requires n < Pow2(k)
    ensures BitLength(n) <= k
  {
    if n > 0 && k > 0 {
      BitLengthBound(n / 2, k - 1);
    }
  }

  /** n has exactly BitLength(n) bits. */
  lemma {:induction false} BitLengthIsLeast(n: nat)
    ensures n < Pow2(BitLength(n))
    ensures n == 0 <==> BitLength(n) == 0
    ensures n > 0 ==> n >= Pow2(BitLength(n) - 1)
  {
    if n > 0 {
      BitLengthIsLeast(n / 2);
    }
  }

  /** TrailingZeros(a) is the largest alignment of a, up to the width. */
  lemma {:induction false} TrailingZerosIsAlignment(a: nat, width: nat, e: nat)
    requires e <= width
    ensures Low(a, e) == 0 <==> e <= TrailingZeros(a, width)
    decreases width
  {
    if e > 0 && a % 2 == 0 {
      TrailingZerosIsAlignment(a / 2, width - 1, e - 1);
    }
  }
}
