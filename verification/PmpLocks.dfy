/**
  PMP locks last: section 3.7.1 of the RISC-V Privileged Architecture and the Smepmp rules for
  mseccfg, over every sequence of transactions without reset.
 */
module PmpLocks {
  import opened PmpModel

  // ---------------------------------------------------------------- single words

  function ByteMask(j: nat): bv32 {
    if j == 0 then 0xFF else if j == 1 then 0xFF00 else if j == 2 then 0xFF_0000 else 0xFF00_0000
  }

  predicate SameByte(v: bv32, w: bv32, j: nat) { And(v, ByteMask(j)) == And(w, ByteMask(j)) }

  lemma LockCovers(v: bv32, j: nat)
    requires j < 4 && LockBit(v, j)
    ensures And(CfgLock(v, false), ByteMask(j)) == ByteMask(j)
  {
    if j == 0 {
    } else if j == 1 {
    } else if j == 2 {
    } else {
    }
  }

  lemma KeepKeeps(v: bv32, n: bv32, lock: bv32, m: bv32)
    requires And(lock, m) == m
    ensures And(Keep(v, n, lock), m) == And(v, m)
  {
  }

  lemma OrApart(v: bv32, w: bv32, m: bv32)
    requires And(w, m) == 0
    ensures And(v | w, m) == And(v, m)
  {
  }

  lemma AndCovers(v: bv32, w: bv32, m: bv32)
    requires And(w, m) == m
    ensures And(And(v, w), m) == And(v, m)
  {
  }

  lemma UnlockedApart(n: bv32, lock: bv32, m: bv32)
    requires And(lock, m) == m
    ensures And(Drop(n, lock), m) == 0 && And(!n | lock, m) == m
  {
  }

  lemma SetKeeps(v: bv32, n: bv32, lock: bv32, m: bv32)
    requires And(lock, m) == m
    ensures And(SetBits(v, n, lock), m) == And(v, m)
  {
    hide And;
    UnlockedApart(n, lock, m);
    OrApart(v, Drop(n, lock), m);
  }

  lemma ClearKeeps(v: bv32, n: bv32, lock: bv32, m: bv32)
    requires And(lock, m) == m
    ensures And(ClearBits(v, n, lock), m) == And(v, m)
  {
    hide And, ClearBits;
    UnlockedApart(n, lock, m);
    AndCovers(v, !n | lock, m);
    ClearIsAnd(v, n, lock);
  }

  lemma ClearIsAnd(v: bv32, n: bv32, lock: bv32)
    ensures ClearBits(v, n, lock) == And(v, !n | lock)
  {
  }

  /** No operation changes bits under the lock mask. */
  lemma AppliedKeeps(op: Op, v: bv32, n: bv32, lock: bv32, m: bv32)
    requires And(lock, m) == m
    ensures And(Applied(op, v, n, lock), m) == And(v, m)
  {
    hide Keep, SetBits, ClearBits;
    KeepKeeps(v, n, lock, m);
    SetKeeps(v, n, lock, m);
    ClearKeeps(v, n, lock, m);
  }

  lemma DropApart(c: bv32, mask: bv32, m: bv32)
    requires And(mask, m) == 0
    ensures And(Drop(c, mask), m) == And(c, m)
  {
  }

  lemma ReservedElsewhere(c: bv32, mask: bv32, bad: bv32, m: bv32)
    requires And(mask, m) == 0
    ensures And(Reserved(c, mask, bad), m) == And(c, m)
  {
    hide And, Drop;
    DropApart(c, mask, m);
  }

  lemma DropSame(c: bv32, d: bv32, mask: bv32, m: bv32)
    requires And(c, m) == And(d, m)
    ensures And(Drop(c, mask), m) == And(Drop(d, mask), m)
  {
    assert (c & !mask) & m == (c & m) & !mask;
    assert (d & !mask) & m == (d & m) & !mask;
  }

  lemma AndInside(c: bv32, d: bv32, mask: bv32, m: bv32)
    requires And(c, m) == And(d, m) && And(mask, m) == mask
    ensures And(c, mask) == And(d, mask)
  {
    hide And;
    AndAssoc(c, m, mask);
    AndAssoc(d, m, mask);
  }

  lemma AndAssoc(c: bv32, m: bv32, mask: bv32)
    ensures And(And(c, m), mask) == And(c, And(mask, m))
  {
  }

  lemma ReservedHere(c: bv32, d: bv32, mask: bv32, bad: bv32, m: bv32)
    requires And(c, m) == And(d, m) && And(mask, m) == mask
    ensures And(Reserved(c, mask, bad), m) == And(Reserved(d, mask, bad), m)
  {
    hide And, Drop;
    AndInside(c, d, mask, m);
    DropSame(c, d, mask, m);
  }

  lemma RazSame(v: bv32, w: bv32, m: bv32)
    requires And(v, m) == And(w, m)
    ensures And(And(v, 0x9F9F_9F9F), m) == And(And(w, 0x9F9F_9F9F), m)
  {
    assert (v & 0x9F9F_9F9F) & m == (v & m) & 0x9F9F_9F9F;
    assert (w & 0x9F9F_9F9F) & m == (w & m) & 0x9F9F_9F9F;
  }

  /** Legalization works byte by byte. */
  lemma LegalizedByByte(v: bv32, w: bv32, mml: bool, j: nat)
    requires j < 4 && SameByte(v, w, j)
    ensures SameByte(Legalized(v, mml), Legalized(w, mml), j)
  {
    hide Reserved, And, ByteMask;
    RazSame(v, w, ByteMask(j));
    MaskBytes();
    if !mml {
      var v0, w0 := And(v, 0x9F9F_9F9F), And(w, 0x9F9F_9F9F);
      ReservedStep(v0, w0, 0x3, 0x2, j, 0);
      var v1, w1 := Reserved(v0, 0x3, 0x2), Reserved(w0, 0x3, 0x2);
      ReservedStep(v1, w1, 0x300, 0x200, j, 1);
      var v2, w2 := Reserved(v1, 0x300, 0x200), Reserved(w1, 0x300, 0x200);
      ReservedStep(v2, w2, 0x3_0000, 0x2_0000, j, 2);
      var v3, w3 := Reserved(v2, 0x3_0000, 0x2_0000), Reserved(w2, 0x3_0000, 0x2_0000);
      ReservedStep(v3, w3, 0x300_0000, 0x200_0000, j, 3);
    }
  }

  lemma MaskBytes()
    ensures And(0x3, ByteMask(0)) == 0x3 && And(0x300, ByteMask(1)) == 0x300
    ensures And(0x3_0000, ByteMask(2)) == 0x3_0000 && And(0x300_0000, ByteMask(3)) == 0x300_0000
  {
  }

  lemma ReservedStep(v: bv32, w: bv32, mask: bv32, bad: bv32, j: nat, i: nat)
    requires j < 4 && i < 4 && SameByte(v, w, j) && And(mask, ByteMask(i)) == mask
    ensures SameByte(Reserved(v, mask, bad), Reserved(w, mask, bad), j)
  {
    hide Reserved, And, ByteMask;
    if i == j {
      ReservedHere(v, w, mask, bad, ByteMask(j));
    } else {
      BytesApart(i, j);
      MaskApart(mask, ByteMask(i), ByteMask(j));
      ReservedElsewhere(v, mask, bad, ByteMask(j));
      ReservedElsewhere(w, mask, bad, ByteMask(j));
    }
  }

  lemma BytesApart(i: nat, j: nat)
    requires i < 4 && j < 4 && i != j
    ensures And(ByteMask(i), ByteMask(j)) == 0
  {
  }

  lemma MaskApart(mask: bv32, m: bv32, k: bv32)
    requires And(mask, m) == mask && And(m, k) == 0
    ensures And(mask, k) == 0
  {
    assert (mask & m) & k == mask & (m & k);
  }

  lemma SameLockBit(v: bv32, w: bv32, j: nat)
    requires j < 4 && SameByte(v, w, j)
    ensures LockBit(v, j) <==> LockBit(w, j)
  {
    if j == 0 {
    } else if j == 1 {
    } else if j == 2 {
    } else {
    }
  }

  /** A locked byte of a legal configuration word survives every operation. */
  lemma LockedByteKept(op: Op, v: bv32, n: bv32, mml: bool, j: nat)
    requires j < 4 && LockBit(v, j) && Legalized(v, mml) == v
    ensures SameByte(v, Legalized(Applied(op, v, n, CfgLock(v, false)), mml), j)
    ensures LockBit(Legalized(Applied(op, v, n, CfgLock(v, false)), mml), j)
  {
    hide Legalized, Applied, CfgLock, LockBit, And, ByteMask;
    var w := Applied(op, v, n, CfgLock(v, false));
    LockCovers(v, j);
    AppliedKeeps(op, v, n, CfgLock(v, false), ByteMask(j));
    LegalizedByByte(v, w, mml, j);
    SameLockBit(v, Legalized(w, mml), j);
  }

  lemma AnyFromByte(v: bv32, j: nat)
    requires j < 4 && LockBit(v, j)
    ensures AnyLockBit(v)
  {
    if j == 0 {
    } else if j == 1 {
    } else if j == 2 {
    } else {
    }
  }

  /** MML and MMWP never fall; RLB stays 0 while anything is locked. */
  lemma MSeccfgSticky(op: Op, v: bv32, n: bv32, any: bool)
    ensures
      var w := Applied(op, v, n, MSeccfgLock(v, any));
      && (Mml(v) ==> Mml(w)) && (Mmwp(v) ==> Mmwp(w))
      && (any && !Rlb(v) ==> !Rlb(w))
  {
    hide Applied, MSeccfgLock;
    var lock := MSeccfgLock(v, any);
    if Mml(v) {
      LockBits(v, any);
      AppliedKeeps(op, v, n, lock, 1);
    }
    if Mmwp(v) {
      LockBits(v, any);
      AppliedKeeps(op, v, n, lock, 2);
    }
    if any && !Rlb(v) {
      LockBits(v, any);
      AppliedKeeps(op, v, n, lock, 4);
    }
  }

  lemma LockBits(v: bv32, any: bool)
    ensures Mml(v) ==> And(MSeccfgLock(v, any), 1) == 1
    ensures Mmwp(v) ==> And(MSeccfgLock(v, any), 2) == 2
    ensures any && !Rlb(v) ==> And(MSeccfgLock(v, any), 4) == 4
  {
  }

  // ---------------------------------------------------------------- the register list

  /** PMPEnable, PMPNumRegions, MHPMCounterNum and MHPMCounterWidth. */
  datatype Params = Params(pmpEnable: bool, regions: nat, counters: nat, width: nat)

  function Bit32(n: nat): bv32 { if n == 0 then 1 else Bit32(n - 1) << 1 }
  function Bit64(n: nat): bv64 { if n == 0 then 1 else Bit64(n - 1) << 1 }

  /** mcountinhibit: unused counters cannot be enabled, and bit 1 is always zero. */
  function InhibitReset(p: Params): bv32 { (!(Bit32(p.counters) - 1)) << 3 }
  function InhibitMask(p: Params): bv32 { InhibitReset(p) | 2 }

  /** The counter bits above the implemented width. */
  function CounterMask(p: Params): bv64 { if p.width >= 64 then 0 else !(Bit64(p.width) - 1) }
  function LowMask(p: Params): bv32 { (CounterMask(p) & 0xFFFF_FFFF) as bv32 }
  function HighMask(p: Params): bv32 { (CounterMask(p) >> 32) as bv32 }

  const REGISTERS: nat := 114

  /** Addresses in construction order. */
  function AddrAt(k: nat): nat {
    if k == 0 then CSR_MSECCFG
    else if k == 1 then CSR_MSECCFGH
    else if k < 6 then CSR_PMPCFG0 + (k - 2)
    else if k < 22 then CSR_PMPADDR0 + (k - 6)
    else if k == 22 then 0x320
    else if k < 52 then 0x323 + (k - 23)
    else if k < 54 then 0xB00 + 2 * (k - 52)
    else if k < 83 then 0xB03 + (k - 54)
    else if k < 85 then 0xB80 + 2 * (k - 83)
    else 0xB83 + (k - 85)
  }

  function KindAt(p: Params, k: nat): Kind {
    if k == 0 then MSeccfg
    else if k == 1 then NonImp
    else if k < 6 then if p.pmpEnable && k - 2 < p.regions / 4 then PmpCfg else NonImp
    else if k < 22 then if p.pmpEnable && k - 6 < p.regions then PmpAddr else NonImp
    else if k == 22 then Warl(InhibitMask(p))
    else if k < 52 then if k - 23 < p.counters then Warl(0xFFFF_FFFF) else NonImp
    else if k < 54 then Base
    else if k < 83 then if k - 54 < p.counters then Warl(LowMask(p)) else NonImp
    else if k < 85 then Base
    else if k - 85 < p.counters then Warl(HighMask(p)) else NonImp
  }

  /** Reset values: the WARL registers' own, zero for all others. */
  function ResetValueAt(p: Params, k: nat): bv32 {
    if k == 22 then InhibitReset(p)
    else if 23 <= k < 52 && k - 23 < p.counters then Bit32(k - 20)
    else 0
  }

  ghost predicate Shape(regs: seq<Cell>, p: Params) {
    |regs| == REGISTERS && forall k | 0 <= k < REGISTERS :: regs[k].addr == AddrAt(k) && regs[k].kind == KindAt(p, k)
  }

  lemma AddressesDiffer(j: nat, k: nat)
    requires j < k < REGISTERS
    ensures AddrAt(j) != AddrAt(k)
  {
  }

  lemma ShapeDistinct(regs: seq<Cell>, p: Params)
    requires Shape(regs, p)
    ensures Distinct(regs)
  {
    hide AddrAt, KindAt;
    forall j, k | 0 <= j < k < |regs|
      ensures regs[j].addr != regs[k].addr
    {
      AddressesDiffer(j, k);
    }
  }

  lemma {:induction false} ValueAtIndex(regs: seq<Cell>, k: nat)
    requires Distinct(regs) && k < |regs|
    ensures ValueAt(regs, regs[k].addr) == ReadOf(regs[k])
    decreases |regs|
  {
    hide ReadOf;
    if k < |regs| - 1 {
      ValueAtIndex(regs[..|regs| - 1], k);
    }
  }

  /** Region i has both its registers. */
  predicate Implemented(p: Params, i: nat) {
    p.pmpEnable && i < 16 && i < p.regions && i / 4 < p.regions / 4
  }

  function Cfg(regs: seq<Cell>, i: nat): bv32
    requires |regs| == REGISTERS && i < 16
  {
    regs[2 + i / 4].value
  }

  function Addr(regs: seq<Cell>, i: nat): bv32
    requires |regs| == REGISTERS && i < 16
  {
    regs[6 + i].value
  }

  function Seccfg(regs: seq<Cell>): bv32
    requires |regs| == REGISTERS
  {
    regs[0].value
  }

  /** Configuration words hold no reserved values; kept from reset on. */
  ghost predicate Legal(regs: seq<Cell>, p: Params) {
    Shape(regs, p)
    && forall k | 2 <= k < 6 && regs[k].kind.PmpCfg? :: Legalized(regs[k].value, Mml(Seccfg(regs))) == regs[k].value
  }

  predicate Locked(regs: seq<Cell>, i: nat)
    requires |regs| == REGISTERS && i < 16
  {
    LockBit(Cfg(regs, i), i % 4) && !Rlb(Seccfg(regs))
  }

  lemma SeccfgValue(regs: seq<Cell>, p: Params)
    requires Shape(regs, p)
    ensures ValueAt(regs, CSR_MSECCFG) == Seccfg(regs)
  {
    hide ValueAt;
    ShapeDistinct(regs, p);
    ValueAtIndex(regs, 0);
  }

  lemma CfgValue(regs: seq<Cell>, p: Params, i: nat)
    requires Shape(regs, p) && i < 16
    ensures ValueAt(regs, CSR_PMPCFG0 + i / 4) == if Implemented(p, i / 4 * 4) then Cfg(regs, i) else 0
  {
    hide ValueAt;
    ShapeDistinct(regs, p);
    ValueAtIndex(regs, 2 + i / 4);
  }

  lemma NextShape(regs: seq<Cell>, p: Params, t: Transaction)
    requires Shape(regs, p)
    ensures Shape(Next(regs, t), p)
  {
    hide AddrAt, KindAt, NextValue;
  }

  /** No reserved values: bits 6:5 clear, and no byte with W=1, R=0. */
  predicate Clean(v: bv32) {
    && And(v, 0x9F9F_9F9F) == v && And(v, 0x3) != 0x2 && And(v, 0x300) != 0x200
    && And(v, 0x3_0000) != 0x2_0000 && And(v, 0x300_0000) != 0x200_0000
  }

  lemma DropKeepsRaz(c: bv32, mask: bv32)
    requires And(c, 0x9F9F_9F9F) == c
    ensures And(Drop(c, mask), 0x9F9F_9F9F) == Drop(c, mask)
  {
    assert (c & !mask) & 0x9F9F_9F9F == (c & 0x9F9F_9F9F) & !mask;
  }

  lemma DropOut(c: bv32, mask: bv32)
    ensures And(Drop(c, mask), mask) == 0
  {
  }

  /** One byte's legalization rules out its reserved value, and leaves the bits of another mask alone. */
  lemma ReservedResult(c: bv32, mask: bv32, bad: bv32, other: bv32)
    requires And(c, 0x9F9F_9F9F) == c && bad != 0
    ensures
      var r := Reserved(c, mask, bad);
      && And(r, 0x9F9F_9F9F) == r && And(r, mask) != bad
      && (And(mask, other) == 0 ==> And(r, other) == And(c, other))
  {
    hide And, Drop;
    DropKeepsRaz(c, mask);
    DropOut(c, mask);
    if And(mask, other) == 0 {
      DropApart(c, mask, other);
    }
  }

  lemma RazTwice(v: bv32)
    ensures And(And(v, 0x9F9F_9F9F), 0x9F9F_9F9F) == And(v, 0x9F9F_9F9F)
  {
  }

  lemma PairsApart()
    ensures And(0x300, 0x3) == 0 && And(0x3_0000, 0x3) == 0 && And(0x300_0000, 0x3) == 0
    ensures And(0x3_0000, 0x300) == 0 && And(0x300_0000, 0x300) == 0 && And(0x300_0000, 0x3_0000) == 0
  {
  }

  lemma LegalizedClean(v: bv32)
    ensures Clean(Legalized(v, false))
  {
    hide And, Reserved;
    PairsApart();
    RazTwice(v);
    var c := And(v, 0x9F9F_9F9F);
    var c1 := Reserved(c, 0x3, 0x2);
    ReservedResult(c, 0x3, 0x2, 0x3);
    var c2 := Reserved(c1, 0x300, 0x200);
    ReservedResult(c1, 0x300, 0x200, 0x3);
    var c3 := Reserved(c2, 0x3_0000, 0x2_0000);
    ReservedResult(c2, 0x3_0000, 0x2_0000, 0x3);
    ReservedResult(c2, 0x3_0000, 0x2_0000, 0x300);
    ReservedResult(c3, 0x300_0000, 0x200_0000, 0x3);
    ReservedResult(c3, 0x300_0000, 0x200_0000, 0x300);
    ReservedResult(c3, 0x300_0000, 0x200_0000, 0x3_0000);
  }

  /** Legalizing once is enough, and what is legal without MML is legal with it. */
  lemma LegalizedTwice(v: bv32, mml: bool)
    ensures Legalized(Legalized(v, mml), mml) == Legalized(v, mml)
    ensures Legalized(v, false) == v ==> Legalized(v, true) == v
  {
    hide And;
    RazTwice(v);
    LegalizedClean(v);
  }

  // ---------------------------------------------------------------- one transaction

  lemma NextMSeccfg(regs: seq<Cell>, p: Params, t: Transaction)
    requires Shape(regs, p)
    ensures
      var v, w := Seccfg(regs), Seccfg(Next(regs, t));
      && (Mml(v) ==> Mml(w)) && (Mmwp(v) ==> Mmwp(w))
      && (AnyPmpCfgsLocked(regs) && !Rlb(v) ==> !Rlb(w))
  {
    hide ValueAt, Mml, Mmwp, Rlb, AnyPmpCfgsLocked, MSeccfgLock, Applied;
    MSeccfgSticky(t.op, Seccfg(regs), t.wdata, AnyPmpCfgsLocked(regs));
  }

  lemma NextLegal(regs: seq<Cell>, p: Params, t: Transaction)
    requires Legal(regs, p)
    ensures Legal(Next(regs, t), p)
  {
    hide ValueAt, Mml, AddrAt, KindAt, Applied, Legalized, LockMask;
    NextShape(regs, p, t);
    SeccfgValue(regs, p);
    MmlMonotone(regs, p, t);
    var r := Next(regs, t);
    forall k | 2 <= k < 6 && r[k].kind.PmpCfg?
      ensures Legalized(r[k].value, Mml(Seccfg(r))) == r[k].value
    {
      var v := Applied(t.op, regs[k].value, t.wdata, LockMask(regs, regs[k]));
      LegalizedTwice(v, Mml(Seccfg(regs)));
      LegalizedTwice(r[k].value, false);
    }
  }

  lemma MmlMonotone(regs: seq<Cell>, p: Params, t: Transaction)
    requires Shape(regs, p)
    ensures Mml(Seccfg(regs)) ==> Mml(Seccfg(Next(regs, t)))
  {
    hide Mml, Next;
    NextMSeccfg(regs, p, t);
  }

  lemma LockedAny(regs: seq<Cell>, p: Params, i: nat)
    requires Shape(regs, p) && Implemented(p, i) && Locked(regs, i)
    ensures AnyPmpCfgsLocked(regs)
  {
    hide LockBit, AnyLockBit;
    AnyFromByte(Cfg(regs, i), i % 4);
    var k := 2 + i / 4;
    assert PmpCfgAddress(regs[k].addr) && AnyLockBit(ReadOf(regs[k]));
  }

  /** The configuration byte of a locked region. */
  lemma CfgStepKept(regs: seq<Cell>, p: Params, t: Transaction, i: nat)
    requires Legal(regs, p) && Implemented(p, i) && Locked(regs, i)
    ensures
      var r := Next(regs, t);
      SameByte(Cfg(regs, i), Cfg(r, i), i % 4) && LockBit(Cfg(r, i), i % 4)
  {
    hide ValueAt, LockBit, Mml, Rlb, CfgLock, Applied, Legalized, ByteMask, And;
    SeccfgValue(regs, p);
    var k := 2 + i / 4;
    assert regs[k].kind.PmpCfg?;
    LockedByteKept(t.op, regs[k].value, t.wdata, Mml(Seccfg(regs)), i % 4);
  }

  lemma AllOnes(v: bv32)
    ensures And(v, 0xFFFF_FFFF) == v
  {
  }

  lemma AppliedLockedWord(op: Op, v: bv32, n: bv32)
    ensures Applied(op, v, n, 0xFFFF_FFFF) == v
  {
    hide And, Applied;
    AllOnes(0xFFFF_FFFF);
    AppliedKeeps(op, v, n, 0xFFFF_FFFF, 0xFFFF_FFFF);
    AllOnes(v);
    AllOnes(Applied(op, v, n, 0xFFFF_FFFF));
  }

  /** The address register of a locked region. */
  lemma AddrStepKept(regs: seq<Cell>, p: Params, t: Transaction, i: nat)
    requires Shape(regs, p) && Implemented(p, i) && Locked(regs, i)
    ensures Addr(Next(regs, t), i) == Addr(regs, i)
  {
    hide ValueAt, LockBit, Rlb, Applied, TorMode;
    CfgValue(regs, p, i);
    assert regs[6 + i].kind.PmpAddr? && regs[6 + i].addr % 16 == i;
    AppliedLockedWord(t.op, Addr(regs, i), t.wdata);
  }

  /** One transaction leaves a locked region, and RLB = 0, as they are. */
  lemma StepLocked(regs: seq<Cell>, p: Params, t: Transaction, i: nat)
    requires Legal(regs, p) && Implemented(p, i) && Locked(regs, i)
    ensures
      var r := Next(regs, t);
      && Legal(r, p) && Locked(r, i)
      && SameByte(Cfg(regs, i), Cfg(r, i), i % 4) && Addr(r, i) == Addr(regs, i)
  {
    hide Next, Rlb, Mml, Mmwp, LockBit, SameByte, AnyPmpCfgsLocked;
    NextLegal(regs, p, t);
    LockedAny(regs, p, i);
    NextMSeccfg(regs, p, t);
    CfgStepKept(regs, p, t, i);
    AddrStepKept(regs, p, t, i);
  }

  // ---------------------------------------------------------------- every sequence of transactions

  function Run(regs: seq<Cell>, ts: seq<Transaction>): (r: seq<Cell>)
    ensures |r| == |regs|
    decreases |ts|
  {
    if ts == [] then regs else Run(Next(regs, ts[0]), ts[1..])
  }

  /**
    Locks hold forever: once a region's configuration byte has L set while RLB is 0, no transactions
    without reset change that byte, the region's address register, or RLB.
   */
  lemma {:induction false} LocksHoldForever(regs: seq<Cell>, p: Params, ts: seq<Transaction>, i: nat)
    requires Legal(regs, p) && Implemented(p, i) && Locked(regs, i)
    ensures
      var r := Run(regs, ts);
      && Locked(r, i) && SameByte(Cfg(regs, i), Cfg(r, i), i % 4) && Addr(r, i) == Addr(regs, i)
    decreases |ts|
  {
    hide Next, Locked, Legal, Implemented, And, ByteMask;
    if ts != [] {
      StepLocked(regs, p, ts[0], i);
      LocksHoldForever(Next(regs, ts[0]), p, ts[1..], i);
    }
  }

  /** MML and MMWP never fall. */
  lemma {:induction false} ModesNeverFall(regs: seq<Cell>, p: Params, ts: seq<Transaction>)
    requires Shape(regs, p)
    ensures
      var v, w := Seccfg(regs), Seccfg(Run(regs, ts));
      (Mml(v) ==> Mml(w)) && (Mmwp(v) ==> Mmwp(w))
    decreases |ts|
  {
    hide Next, Shape, Mml, Mmwp, Rlb, AnyPmpCfgsLocked;
    if ts != [] {
      NextMSeccfg(regs, p, ts[0]);
      NextShape(regs, p, ts[0]);
      ModesNeverFall(Next(regs, ts[0]), p, ts[1..]);
    }
  }

  ghost predicate AfterConstruction(regs: seq<Cell>, p: Params) {
    Shape(regs, p) && forall k | 0 <= k < REGISTERS :: regs[k].value == 0
  }

  ghost predicate AfterReset(regs: seq<Cell>, p: Params) {
    Shape(regs, p) && forall k | 0 <= k < REGISTERS :: regs[k].value == ResetValueAt(p, k)
  }

  /** The PMP part of the list is zero, as construction and reset leave it. */
  ghost predicate PmpClear(regs: seq<Cell>, p: Params) {
    Shape(regs, p) && forall k | 0 <= k < 22 :: regs[k].value == 0
  }

  lemma ClearFromStart(regs: seq<Cell>, p: Params)
    requires AfterConstruction(regs, p) || AfterReset(regs, p)
    ensures PmpClear(regs, p)
  {
    hide AddrAt, KindAt;
  }

  lemma ResetLegal(regs: seq<Cell>, p: Params)
    requires PmpClear(regs, p)
    ensures Legal(regs, p)
  {
    hide AddrAt, KindAt;
    LegalizedZero();
  }

  lemma LegalizedZero()
    ensures Legalized(0, false) == 0 && Legalized(0, true) == 0 && !Mml(0)
  {
  }

  lemma {:induction false} RunLegal(regs: seq<Cell>, p: Params, ts: seq<Transaction>)
    requires Legal(regs, p)
    ensures Legal(Run(regs, ts), p)
    decreases |ts|
  {
    hide Next, Legal;
    if ts != [] {
      NextLegal(regs, p, ts[0]);
      RunLegal(Next(regs, ts[0]), p, ts[1..]);
    }
  }

  /** From reset on: whenever a lock has been set it lasts through everything that follows. */
  lemma LocksHoldFromReset(regs: seq<Cell>, p: Params, before: seq<Transaction>, after: seq<Transaction>, i: nat)
    requires AfterConstruction(regs, p) || AfterReset(regs, p)
    requires Implemented(p, i) && Locked(Run(regs, before), i)
    ensures
      var m := Run(regs, before);
      var r := Run(m, after);
      Locked(r, i) && SameByte(Cfg(m, i), Cfg(r, i), i % 4) && Addr(r, i) == Addr(m, i)
  {
    hide Run, Locked, Implemented, SameByte;
    ClearFromStart(regs, p);
    ResetLegal(regs, p);
    RunLegal(regs, p, before);
    LocksHoldForever(Run(regs, before), p, after, i);
  }

  lemma ZeroNotTor(j: nat)
    ensures !TorMode(0, j)
  {
  }

  lemma AppliedOpen(v: bv32, n: bv32)
    ensures Applied(Write, v, n, 0) == n
  {
  }

  lemma NoSuchRegister(regs: seq<Cell>, p: Params)
    requires Shape(regs, p)
    ensures ValueAt(regs, CSR_PMPCFG0 + 4) == 0
  {
    NoneAt(regs, CSR_PMPCFG0 + 4);
  }

  lemma {:induction false} NoneAt(regs: seq<Cell>, addr: nat)
    requires forall k | 0 <= k < |regs| :: regs[k].addr != addr
    ensures ValueAt(regs, addr) == 0
    decreases |regs|
  {
    if regs != [] {
      NoneAt(regs[..|regs| - 1], addr);
    }
  }

  // ---------------------------------------------------------------- address registers and the standard

  predicate NextTor(regs: seq<Cell>, p: Params, i: nat)
    requires |regs| == REGISTERS && i < 16
  {
    i + 1 < 16 && Implemented(p, (i + 1) / 4 * 4) && TorMode(Cfg(regs, i + 1), (i + 1) % 4)
  }

  /**
    The rule of section 3.7.1 of the RISC-V Privileged Architecture with the RLB bypass of Smepmp: an
    address register is held by its own region's lock, and by the next region's if that is in TOR mode.
   */
  predicate AddrWritable(regs: seq<Cell>, p: Params, i: nat)
    requires |regs| == REGISTERS && i < 16
  {
    !Locked(regs, i) && !(NextTor(regs, p, i) && Locked(regs, i + 1))
  }

  function AddrWrite(i: nat, n: bv32): Transaction { Transaction(Write, CSR_PMPADDR0 + i, n) }

  /**
    A plain write to a region's address register takes effect exactly when the region's lock bit is
    clear and the next region is not in TOR mode, whether or not that next region is locked and
    whatever RLB is.
   */
  lemma AddrWriteTakesEffect(regs: seq<Cell>, p: Params, i: nat, n: bv32)
    requires Shape(regs, p) && Implemented(p, i)
    ensures
      Addr(Next(regs, AddrWrite(i, n)), i)
      == if LockBit(Cfg(regs, i), i % 4) || NextTor(regs, p, i) then Addr(regs, i) else n
  {
    hide ValueAt, LockBit, Applied, TorMode;
    CfgValue(regs, p, i);
    if i + 1 < 16 {
      CfgValue(regs, p, i + 1);
    } else {
      NoSuchRegister(regs, p);
    }
    ZeroNotTor((i + 1) % 4);
    assert regs[6 + i].kind.PmpAddr? && regs[6 + i].addr % 16 == i;
    AppliedLockedWord(Write, Addr(regs, i), n);
    AppliedOpen(Addr(regs, i), n);
  }

  predicate FollowsRule(regs: seq<Cell>, p: Params, i: nat, n: bv32)
    requires |regs| == REGISTERS && i < 16
  {
    Addr(Next(regs, AddrWrite(i, n)), i) == if AddrWritable(regs, p, i) then n else Addr(regs, i)
  }

  /**
    The register model and the standard's rule agree on writes to region i's address register exactly
    when no set lock bit of the region is bypassed by RLB, and the next region, if it is in TOR mode,
    holds a lock that counts.
   */
  lemma AddrRuleMet(regs: seq<Cell>, p: Params, i: nat)
    requires Shape(regs, p) && Implemented(p, i)
    ensures
      (forall n :: FollowsRule(regs, p, i, n))
      <==>
      (LockBit(Cfg(regs, i), i % 4) ==> !Rlb(Seccfg(regs)))
      && (!LockBit(Cfg(regs, i), i % 4) && NextTor(regs, p, i) ==> Locked(regs, i + 1))
  {
    hide LockBit, TorMode, Rlb, Next, AddrAt, KindAt;
    forall n
      ensures
        Addr(Next(regs, AddrWrite(i, n)), i)
        == if LockBit(Cfg(regs, i), i % 4) || NextTor(regs, p, i) then Addr(regs, i) else n
    {
      AddrWriteTakesEffect(regs, p, i, n);
    }
    var other: bv32 := if Addr(regs, i) == 0 then 1 else 0;
    assert other != Addr(regs, i);
    assert FollowsRule(regs, p, i, other)
      <==> AddrWritable(regs, p, i) == !(LockBit(Cfg(regs, i), i % 4) || NextTor(regs, p, i));
  }

  /** Region 1 in TOR mode and nothing locked; and region 0 locked under RLB = 1. */
  const TOR_UNLOCKED := [Transaction(Write, CSR_PMPCFG0, 0x0800)]
  const LOCKED_UNDER_RLB := [Transaction(Write, CSR_MSECCFG, 4), Transaction(Write, CSR_PMPCFG0, 0x80)]

  lemma FreshWords()
    ensures Legalized(Keep(0, 0x0800, CfgLock(0, false)), false) == 0x0800
    ensures Legalized(Keep(0, 0x80, CfgLock(0, true)), false) == 0x80
    ensures Keep(0, 4, MSeccfgLock(0, false)) == 4
    ensures TorMode(0x0800, 1) && !LockBit(0x0800, 0) && !LockBit(0x0800, 1) && !Rlb(0) && !Mml(0)
    ensures LockBit(0x80, 0) && !TorMode(0x80, 1) && Rlb(4) && !Mml(4) && !AnyLockBit(0)
  {
  }

  /** Nothing is locked while the configuration words are zero. */
  lemma NothingLocked(regs: seq<Cell>, p: Params)
    requires PmpClear(regs, p)
    ensures !AnyPmpCfgsLocked(regs)
  {
    hide AnyLockBit;
    FreshWords();
    forall k | 0 <= k < |regs| && PmpCfgAddress(regs[k].addr)
      ensures regs[k].value == 0
    {
      OnlyCfgAddresses(k);
    }
  }

  lemma OnlyCfgAddresses(k: nat)
    requires k < REGISTERS && PmpCfgAddress(AddrAt(k))
    ensures 2 <= k < 6
  {
  }

  /** Writing a fresh configuration word. */
  lemma WriteCfg0(regs: seq<Cell>, p: Params, n: bv32)
    requires Shape(regs, p) && Implemented(p, 0) && regs[2].value == 0 && !Mml(Seccfg(regs))
    ensures
      var r := Next(regs, Transaction(Write, CSR_PMPCFG0, n));
      && Shape(r, p) && Seccfg(r) == Seccfg(regs) && Addr(r, 0) == Addr(regs, 0)
      && Cfg(r, 0) == Cfg(r, 1) == Legalized(Keep(0, n, CfgLock(0, Rlb(Seccfg(regs)))), false)
  {
    hide ValueAt, Keep, CfgLock, Legalized, Rlb, Mml;
    NextShape(regs, p, Transaction(Write, CSR_PMPCFG0, n));
    SeccfgValue(regs, p);
  }

  /** A case reached from reset: the next region is in TOR mode, nothing is locked, yet the write is lost. */
  lemma TorWithoutLock(regs: seq<Cell>, p: Params)
    requires PmpClear(regs, p) && Implemented(p, 0)
    ensures
      var m := Run(regs, TOR_UNLOCKED);
      AddrWritable(m, p, 0) && Addr(m, 0) == 0 == Addr(Next(m, AddrWrite(0, 1)), 0)
  {
    hide Next, Shape, Keep, CfgLock, Legalized, Rlb, Mml, TorMode, LockBit;
    FreshWords();
    PmpClearFacts(regs, p);
    WriteCfg0(regs, p, 0x0800);
    var m := Next(regs, TOR_UNLOCKED[0]);
    assert TOR_UNLOCKED[1..] == [];
    assert Run(regs, TOR_UNLOCKED) == Run(m, []) == m;
    AddrWriteTakesEffect(m, p, 0, 1);
  }

  lemma PmpClearFacts(regs: seq<Cell>, p: Params)
    requires PmpClear(regs, p)
    ensures Shape(regs, p) && Seccfg(regs) == 0 && regs[2].value == 0 && Addr(regs, 0) == 0
  {
    hide AddrAt, KindAt;
  }

  lemma WriteRlb(regs: seq<Cell>, p: Params)
    requires PmpClear(regs, p)
    ensures
      var r := Next(regs, Transaction(Write, CSR_MSECCFG, 4));
      Shape(r, p) && Seccfg(r) == 4 && r[2].value == 0 && Addr(r, 0) == 0
  {
    hide ValueAt, Keep, MSeccfgLock, Legalized, AnyPmpCfgsLocked;
    FreshWords();
    NothingLocked(regs, p);
    NextShape(regs, p, Transaction(Write, CSR_MSECCFG, 4));
  }

  /** A case reached from reset: RLB bypasses the region's own lock, yet the write is lost. */
  lemma LockUnderRlb(regs: seq<Cell>, p: Params)
    requires PmpClear(regs, p) && Implemented(p, 0)
    ensures
      var m := Run(regs, LOCKED_UNDER_RLB);
      AddrWritable(m, p, 0) && Addr(m, 0) == 0 == Addr(Next(m, AddrWrite(0, 1)), 0)
  {
    hide Next, Shape, Keep, CfgLock, Legalized, Rlb, Mml, TorMode, LockBit, PmpClear;
    FreshWords();
    WriteRlb(regs, p);
    var m1 := Next(regs, LOCKED_UNDER_RLB[0]);
    WriteCfg0(m1, p, 0x80);
    var m := Next(m1, LOCKED_UNDER_RLB[1]);
    assert LOCKED_UNDER_RLB[1..][0] == LOCKED_UNDER_RLB[1] && LOCKED_UNDER_RLB[1..][1..] == [];
    assert Run(regs, LOCKED_UNDER_RLB) == Run(m1, LOCKED_UNDER_RLB[1..]) == Run(m, []) == m;
    AddrWriteTakesEffect(m, p, 0, 1);
  }
}
