/**
  What a write, a set and a clear leave in each register, bit by bit: the operation asked for on the
  bits that are not locked, the old value on those that are, and then the reserved values of the
  configuration bytes put right.
 */
module PmpWrites {
  import opened PmpLocks
  import opened PmpModel

  // ---------------------------------------------------------------- single bits

  predicate One(m: bv32) { m != 0 && m & (m - 1) == 0 }

  predicate Bit(v: bv32, m: bv32) { And(v, m) != 0 }

  function Or(v: bv32, w: bv32): bv32 { v | w }

  /** What an operation asks of one bit, which may be locked. */
  predicate Asked(op: Op, locked: bool, was: bool, given: bool) {
    match op
    case Read => was
    case Write => if locked then was else given
    case Set => was || (given && !locked)
    case Clear => was && (locked || !given)
  }

  lemma Atomic(v: bv32, m: bv32)
    requires One(m) && And(v, m) != 0
    ensures And(v, m) == m
  {
  }
  lemma AndTrue(v: bv32, w: bv32, m: bv32)
    requires And(v, m) == m && And(w, m) == m
    ensures And(And(v, w), m) == m
  {
    assert (v & w) & m == m;
  }
  lemma AndFalse(v: bv32, w: bv32, m: bv32)
    requires And(And(v, w), m) != 0
    ensures And(v, m) != 0 && And(w, m) != 0
  {
  }
  lemma OrTrue(v: bv32, w: bv32, m: bv32)
    requires And(v, m) == 0 && And(w, m) == 0
    ensures And(Or(v, w), m) == 0
  {
    assert (v | w) & m == 0;
  }
  lemma OrLeft(v: bv32, w: bv32, m: bv32)
    requires And(v, m) == m && m != 0
    ensures And(Or(v, w), m) != 0 && And(Or(w, v), m) != 0
  {
    assert (v | w) & m == m;
  }
  lemma DropOver(v: bv32, w: bv32, m: bv32)
    requires And(w, m) == m
    ensures And(Drop(v, w), m) == 0
  {
    assert (v & !w) & m == 0;
  }

  lemma NotZero(m: bv32)
    requires One(m)
    ensures m != 0
  {
  }

  lemma BitAnd(v: bv32, w: bv32, m: bv32)
    requires One(m)
    ensures Bit(And(v, w), m) <==> Bit(v, m) && Bit(w, m)
  {
    hide And, One;
    NotZero(m);
    if Bit(v, m) && Bit(w, m) {
      Atomic(v, m);
      Atomic(w, m);
      AndTrue(v, w, m);
    } else if Bit(And(v, w), m) {
      AndFalse(v, w, m);
    }
  }

  lemma BitOr(v: bv32, w: bv32, m: bv32)
    requires One(m)
    ensures Bit(Or(v, w), m) <==> Bit(v, m) || Bit(w, m)
  {
    hide And, One, Or;
    NotZero(m);
    if Bit(v, m) {
      Atomic(v, m);
      OrLeft(v, w, m);
    } else if Bit(w, m) {
      Atomic(w, m);
      OrLeft(w, v, m);
    } else {
      OrTrue(v, w, m);
    }
  }

  lemma BitDrop(v: bv32, w: bv32, m: bv32)
    requires One(m)
    ensures Bit(Drop(v, w), m) <==> Bit(v, m) && !Bit(w, m)
  {
    hide And, One, Drop;
    NotZero(m);
    if Bit(w, m) {
      Atomic(w, m);
      DropOver(v, w, m);
    } else {
      DropApart(v, w, m);
    }
  }

  lemma KeepMeans(v: bv32, n: bv32, lock: bv32)
    ensures Keep(v, n, lock) == Or(And(v, lock), Drop(n, lock))
  {
    assert Drop(n, lock) == n & !lock && And(v, lock) == v & lock;
    assert Or(v & lock, n & !lock) == (v & lock) | (n & !lock);
  }

  lemma SetMeans(v: bv32, n: bv32, lock: bv32)
    ensures SetBits(v, n, lock) == Or(v, Drop(n, lock))
  {
    assert Drop(n, lock) == n & !lock;
    assert Or(v, n & !lock) == v | (n & !lock);
  }

  lemma ClearMeans(v: bv32, n: bv32, lock: bv32)
    ensures ClearBits(v, n, lock) == Drop(v, Drop(n, lock))
  {
    assert Drop(n, lock) == n & !lock;
    assert Drop(v, n & !lock) == v & !(n & !lock);
    assert v & !(n & !lock) == v & (!n | lock);
  }

  lemma AppliedBit(op: Op, v: bv32, n: bv32, lock: bv32, m: bv32)
    requires One(m)
    ensures Bit(Applied(op, v, n, lock), m) == Asked(op, Bit(lock, m), Bit(v, m), Bit(n, m))
  {
    hide Bit, One, And, Or, Drop, Keep, SetBits, ClearBits;
    KeepMeans(v, n, lock);
    SetMeans(v, n, lock);
    ClearMeans(v, n, lock);
    BitAnd(v, lock, m);
    BitDrop(n, lock, m);
    BitOr(And(v, lock), Drop(n, lock), m);
    BitOr(v, Drop(n, lock), m);
    BitDrop(v, Drop(n, lock), m);
  }

  // ---------------------------------------------------------------- reserved values

  function Mask(b: nat): bv32
    requires b < 8
  {
    if b == 0 then 1 else if b == 1 then 2 else if b == 2 then 4 else if b == 3 then 8
    else if b == 4 then 0x10 else if b == 5 then 0x20 else if b == 6 then 0x40 else 0x80
  }

  /** Bit b of byte j. */
  function At(j: nat, b: nat): bv32
    requires j < 4 && b < 8
  {
    if j == 0 then Mask(b) else if j == 1 then Mask(b) << 8 else if j == 2 then Mask(b) << 16 else Mask(b) << 24
  }

  lemma AtOne(j: nat, b: nat)
    requires j < 4 && b < 8
    ensures One(At(j, b))
  {
  }

  lemma AtRaz(j: nat, b: nat)
    requires j < 4 && b < 8
    ensures Bit(0x9F9F_9F9F, At(j, b)) <==> b != 5 && b != 6
  {
  }

  lemma RazBit(v: bv32, j: nat, b: nat)
    requires j < 4 && b < 8
    ensures Bit(And(v, 0x9F9F_9F9F), At(j, b)) <==> b != 5 && b != 6 && Bit(v, At(j, b))
  {
    hide And, Bit, At, One;
    AtOne(j, b);
    AtRaz(j, b);
    BitAnd(v, 0x9F9F_9F9F, At(j, b));
  }

  /** R and W of byte i. */
  function Pair(i: nat): bv32
    requires i < 4
  {
    if i == 0 then 0x3 else if i == 1 then 0x300 else if i == 2 then 0x3_0000 else 0x300_0000
  }

  lemma PairBits(i: nat, j: nat, b: nat)
    requires i < 4 && j < 4 && b < 8
    ensures Bit(Pair(i), At(j, b)) <==> i == j && b < 2
  {
    if i == 0 {
    } else if i == 1 {
    } else if i == 2 {
    } else {
    }
  }

  /** Two masks and their union. */
  predicate Apart(both: bv32, hi: bv32, lo: bv32) { both == hi | lo && hi & lo == 0 }

  lemma BothBits(c: bv32, both: bv32, hi: bv32, lo: bv32)
    requires Apart(both, hi, lo) && And(c, both) == hi
    ensures And(c, hi) == hi && And(c, lo) == 0
  {
    assert c & hi == hi && c & lo == 0;
  }

  lemma EachBit(c: bv32, both: bv32, hi: bv32, lo: bv32)
    requires Apart(both, hi, lo) && And(c, hi) == hi && And(c, lo) == 0
    ensures And(c, both) == hi
  {
    assert c & (hi | lo) == hi;
  }

  lemma PairApart(i: nat)
    requires i < 4
    ensures Apart(Pair(i), At(i, 1), At(i, 0))
  {
  }

  lemma PairBad(c: bv32, i: nat)
    requires i < 4
    ensures And(c, Pair(i)) == At(i, 1) <==> Bit(c, At(i, 1)) && !Bit(c, At(i, 0))
  {
    hide And, Pair, At, One, Apart;
    PairApart(i);
    AtOne(i, 1);
    NotZero(At(i, 1));
    if Bit(c, At(i, 1)) && !Bit(c, At(i, 0)) {
      Atomic(c, At(i, 1));
      EachBit(c, Pair(i), At(i, 1), At(i, 0));
    } else if And(c, Pair(i)) == At(i, 1) {
      BothBits(c, Pair(i), At(i, 1), At(i, 0));
    }
  }

  lemma ReservedBit(c: bv32, i: nat, j: nat, b: nat)
    requires i < 4 && j < 4 && b < 8
    ensures
      Bit(Reserved(c, Pair(i), At(i, 1)), At(j, b))
      <==> Bit(c, At(j, b)) && !(i == j && b < 2 && Bit(c, At(i, 1)) && !Bit(c, At(i, 0)))
  {
    hide And, Drop, Bit, At, Pair, One;
    PairBad(c, i);
    PairBits(i, j, b);
    AtOne(j, b);
    BitDrop(c, Pair(i), At(j, b));
  }

  lemma ReservedBits(c: bv32, i: nat, j: nat, b: nat)
    requires i < 4 && j < 4 && b < 8
    ensures
      var r := Reserved(c, Pair(i), At(i, 1));
      var bad := i == j && Bit(c, At(i, 1)) && !Bit(c, At(i, 0));
      && (Bit(r, At(j, b)) <==> Bit(c, At(j, b)) && !(b < 2 && bad))
      && (Bit(r, At(j, 0)) <==> Bit(c, At(j, 0)) && !bad)
      && (Bit(r, At(j, 1)) <==> Bit(c, At(j, 1)) && !bad)
  {
    hide Reserved, Bit, At, Pair;
    ReservedBit(c, i, j, b);
    ReservedBit(c, i, j, 0);
    ReservedBit(c, i, j, 1);
  }

  lemma PairValues()
    ensures Pair(0) == 0x3 && Pair(1) == 0x300 && Pair(2) == 0x3_0000 && Pair(3) == 0x300_0000
    ensures At(0, 1) == 0x2 && At(1, 1) == 0x200 && At(2, 1) == 0x2_0000 && At(3, 1) == 0x200_0000
  {
  }

  /** Bits 5 and 6 of a byte fall; without MML, W falls where R is clear; every other bit stays. */
  lemma LegalizedBit(v: bv32, mml: bool, j: nat, b: nat)
    requires j < 4 && b < 8
    ensures
      Bit(Legalized(v, mml), At(j, b))
      <==> b != 5 && b != 6 && Bit(v, At(j, b)) && !(b == 1 && !mml && !Bit(v, At(j, 0)))
  {
    PairValues();
    hide And, Reserved, Bit, At, Pair;
    RazBit(v, j, b);
    RazBit(v, j, 0);
    RazBit(v, j, 1);
    if !mml {
      var c := And(v, 0x9F9F_9F9F);
      var c1 := Reserved(c, 0x3, 0x2);
      var c2 := Reserved(c1, 0x300, 0x200);
      var c3 := Reserved(c2, 0x3_0000, 0x2_0000);
      ReservedBits(c, 0, j, b);
      ReservedBits(c1, 1, j, b);
      ReservedBits(c2, 2, j, b);
      ReservedBits(c3, 3, j, b);
    }
  }

  // ---------------------------------------------------------------- registers without reserved values

  /** Every bit of every register but the configuration words. */
  lemma NextBit(regs: seq<Cell>, t: Transaction, k: nat, m: bv32)
    requires k < |regs| && One(m) && !regs[k].kind.PmpCfg?
    ensures
      var c, r := regs[k], Next(regs, t)[k];
      && r.kind == c.kind && r.addr == c.addr
      && Bit(r.value, m)
         == if c.addr == t.addr && !c.kind.NonImp?
            then Asked(t.op, Bit(LockMask(regs, c), m), Bit(c.value, m), Bit(t.wdata, m))
            else Bit(c.value, m)
  {
    hide Bit, One, LockMask, Applied;
    AppliedBit(t.op, regs[k].value, t.wdata, LockMask(regs, regs[k]), m);
  }

  lemma NoLock(m: bv32)
    ensures !Bit(0, m) && (One(m) ==> Bit(0xFFFF_FFFF, m))
  {
  }

  /** Counter registers: the bits of a WARL mask never move, all others follow the operation. */
  lemma CounterBit(regs: seq<Cell>, t: Transaction, k: nat, m: bv32)
    requires k < |regs| && One(m) && regs[k].addr == t.addr
    requires regs[k].kind.Warl? || regs[k].kind.Base?
    ensures
      var c := regs[k];
      var held := c.kind.Warl? && Bit(c.kind.mask, m);
      var was, given, r := Bit(c.value, m), Bit(t.wdata, m), Bit(Next(regs, t)[k].value, m);
      && (held || t.op.Read? ==> r == was)
      && (!held && t.op.Write? ==> r == given)
      && (!held && t.op.Set? ==> r == (was || given))
      && (!held && t.op.Clear? ==> r == (was && !given))
  {
    NoLock(m);
    hide Bit, One, Next;
    NextBit(regs, t, k, m);
  }

  // ---------------------------------------------------------------- mseccfg

  lemma LockBitAt(v: bv32, j: nat)
    requires j < 4
    ensures LockBit(v, j) <==> Bit(v, At(j, 7))
  {
    if j == 0 {
    } else if j == 1 {
    } else if j == 2 {
    } else {
    }
  }

  lemma TorBytes(v: bv32)
    ensures TorMode(v, 0) <==> Bit(v, 0x8) && !Bit(v, 0x10)
    ensures TorMode(v, 1) <==> Bit(v, 0x800) && !Bit(v, 0x1000)
    ensures TorMode(v, 2) <==> Bit(v, 0x8_0000) && !Bit(v, 0x10_0000)
    ensures TorMode(v, 3) <==> Bit(v, 0x800_0000) && !Bit(v, 0x1000_0000)
  {
    assert v & 0x18 == 0x8 <==> v & 0x8 != 0 && v & 0x10 == 0;
    assert (v >> 8) & 0x18 == 0x8 <==> v & 0x800 != 0 && v & 0x1000 == 0;
    assert (v >> 16) & 0x18 == 0x8 <==> v & 0x8_0000 != 0 && v & 0x10_0000 == 0;
    assert (v >> 24) & 0x18 == 0x8 <==> v & 0x800_0000 != 0 && v & 0x1000_0000 == 0;
  }

  lemma TorMasks()
    ensures At(0, 3) == 0x8 && At(1, 3) == 0x800 && At(2, 3) == 0x8_0000 && At(3, 3) == 0x800_0000
    ensures At(0, 4) == 0x10 && At(1, 4) == 0x1000 && At(2, 4) == 0x10_0000 && At(3, 4) == 0x1000_0000
  {
  }

  lemma TorModeAt(v: bv32, j: nat)
    requires j < 4
    ensures TorMode(v, j) <==> Bit(v, At(j, 3)) && !Bit(v, At(j, 4))
  {
    TorMasks();
    hide TorMode, Bit, At;
    TorBytes(v);
  }

  lemma AnyByte(v: bv32)
    ensures AnyLockBit(v) <==> LockBit(v, 0) || LockBit(v, 1) || LockBit(v, 2) || LockBit(v, 3)
  {
  }

  /** Some implemented region has its lock bit set. */
  ghost predicate AnyRegion(regs: seq<Cell>, p: Params)
    requires |regs| == REGISTERS
  {
    exists i :: 0 <= i < 16 && Implemented(p, i) && Bit(Cfg(regs, i), At(i % 4, 7))
  }

  lemma RegionOfByte(regs: seq<Cell>, p: Params, k: nat, j: nat)
    requires Shape(regs, p) && 2 <= k < 6 && j < 4 && regs[k].kind.PmpCfg? && LockBit(regs[k].value, j)
    ensures AnyRegion(regs, p)
  {
    hide Bit, At, LockBit;
    LockBitAt(regs[k].value, j);
    var i := 4 * (k - 2) + j;
    assert i / 4 == k - 2 && i % 4 == j;
    assert Implemented(p, i);
  }

  lemma AnyLockedRegion(regs: seq<Cell>, p: Params)
    requires Shape(regs, p)
    ensures AnyPmpCfgsLocked(regs) <==> AnyRegion(regs, p)
  {
    hide Bit, At, AnyLockBit, LockBit;
    if AnyPmpCfgsLocked(regs) {
      var k :| 0 <= k < |regs| && PmpCfgAddress(regs[k].addr) && AnyLockBit(ReadOf(regs[k]));
      OnlyCfgAddresses(k);
      AnyByte(ReadOf(regs[k]));
      NoneOfZero();
      var j :| 0 <= j < 4 && LockBit(ReadOf(regs[k]), j);
      RegionOfByte(regs, p, k, j);
    }
    if AnyRegion(regs, p) {
      var i :| 0 <= i < 16 && Implemented(p, i) && Bit(Cfg(regs, i), At(i % 4, 7));
      LockBitAt(Cfg(regs, i), i % 4);
      AnyFromByte(Cfg(regs, i), i % 4);
      assert PmpCfgAddress(regs[2 + i / 4].addr) && AnyLockBit(ReadOf(regs[2 + i / 4]));
    }
  }

  lemma NoneOfZero()
    ensures !AnyLockBit(0)
  {
  }

  lemma SeccfgLock(v: bv32, any: bool)
    ensures Bit(MSeccfgLock(v, any), 1) <==> Bit(v, 1)
    ensures Bit(MSeccfgLock(v, any), 2) <==> Bit(v, 2)
    ensures Bit(MSeccfgLock(v, any), 4) <==> any && !Bit(v, 4)
  {
  }

  lemma SeccfgUpper(v: bv32, any: bool, m: bv32)
    requires m & 7 == 0 && m != 0
    ensures Bit(MSeccfgLock(v, any), m)
  {
  }

  /**
    mseccfg: MML (bit 0) and MMWP (bit 1) can be set and never cleared; RLB (bit 2) follows the operation
    unless it is 0 while a region is locked; the other bits stay.
   */
  lemma SeccfgWritten(regs: seq<Cell>, p: Params, t: Transaction, m: bv32)
    requires Shape(regs, p) && t.addr == CSR_MSECCFG && One(m)
    ensures
      var v, n, w := Seccfg(regs), t.wdata, Seccfg(Next(regs, t));
      var open := Bit(v, 4) || !AnyRegion(regs, p);
      && (t.op.Write? || t.op.Set? ==> Bit(w, 1) == (Bit(v, 1) || Bit(n, 1)))
      && (t.op.Write? || t.op.Set? ==> Bit(w, 2) == (Bit(v, 2) || Bit(n, 2)))
      && (t.op.Clear? || t.op.Read? ==> Bit(w, 1) == Bit(v, 1) && Bit(w, 2) == Bit(v, 2))
      && (t.op.Write? ==> Bit(w, 4) == (open && Bit(n, 4)))
      && (t.op.Set? ==> Bit(w, 4) == (Bit(v, 4) || (open && Bit(n, 4))))
      && (t.op.Clear? ==> Bit(w, 4) == (Bit(v, 4) && !Bit(n, 4)))
      && (t.op.Read? ==> Bit(w, 4) == Bit(v, 4))
      && (m & 7 == 0 ==> Bit(w, m) == Bit(v, m))
  {
    Ones();
    NotZero(m);
    hide Bit, One, Next, MSeccfgLock, AnyRegion, AnyPmpCfgsLocked, KindAt, AddrAt;
    AnyLockedRegion(regs, p);
    SeccfgIs(regs, p);
    var v, any := Seccfg(regs), AnyPmpCfgsLocked(regs);
    SeccfgLock(v, any);
    NextBit(regs, t, 0, 1);
    NextBit(regs, t, 0, 2);
    NextBit(regs, t, 0, 4);
    NextBit(regs, t, 0, m);
    if m & 7 == 0 {
      SeccfgUpper(v, any, m);
    }
  }

  lemma Ones()
    ensures One(1) && One(2) && One(4)
  {
  }

  lemma SeccfgIs(regs: seq<Cell>, p: Params)
    requires Shape(regs, p)
    ensures regs[0].kind == MSeccfg && regs[0].addr == CSR_MSECCFG
  {
  }

  // ---------------------------------------------------------------- configuration words

  lemma CfgLockBit(v: bv32, rlb: bool, j: nat, b: nat)
    requires j < 4 && b < 8
    ensures Bit(CfgLock(v, rlb), At(j, b)) <==> !rlb && Bit(v, At(j, 7))
  {
    if j == 0 {
    } else if j == 1 {
    } else if j == 2 {
    } else {
    }
  }

  /** What an operation asks of bit b of a configuration byte: nothing, if it is locked with RLB = 0. */
  predicate CfgAsked(regs: seq<Cell>, t: Transaction, i: nat, b: nat)
    requires |regs| == REGISTERS && i < 16 && b < 8
  {
    var v := Cfg(regs, i);
    Asked(t.op, Bit(v, At(i % 4, 7)) && !Bit(Seccfg(regs), 4), Bit(v, At(i % 4, b)), Bit(t.wdata, At(i % 4, b)))
  }

  lemma CfgNext(regs: seq<Cell>, p: Params, t: Transaction, i: nat)
    requires Shape(regs, p) && Implemented(p, i)
    requires t.addr == CSR_PMPCFG0 + i / 4 && !t.op.Read?
    ensures
      var v, mml, rlb := Cfg(regs, i), Bit(Seccfg(regs), 1), Bit(Seccfg(regs), 4);
      Cfg(Next(regs, t), i) == Legalized(Applied(t.op, v, t.wdata, CfgLock(v, rlb)), mml)
  {
    hide Bit, Applied, Legalized, CfgLock, ValueAt, Mml, Rlb;
    SeccfgValue(regs, p);
    SeccfgModes(Seccfg(regs));
    var k := 2 + i / 4;
    assert regs[k].kind == PmpCfg && regs[k].addr == t.addr;
  }

  /**
    Bit b of region i's configuration byte: bits 5 and 6 are zero, and without MML W falls where R ends
    up clear; every other bit is what the operation asks of it.
   */
  lemma CfgWritten(regs: seq<Cell>, p: Params, t: Transaction, i: nat, b: nat)
    requires Shape(regs, p) && Implemented(p, i) && b < 8
    requires t.addr == CSR_PMPCFG0 + i / 4 && !t.op.Read?
    ensures
      Bit(Cfg(Next(regs, t), i), At(i % 4, b))
      <==>
      b != 5 && b != 6 && CfgAsked(regs, t, i, b)
      && !(b == 1 && !Bit(Seccfg(regs), 1) && !CfgAsked(regs, t, i, 0))
  {
    hide Next, Bit, One, Applied, Legalized, CfgLock, Asked, At, AddrAt, KindAt;
    var v, j := Cfg(regs, i), i % 4;
    var mml, rlb := Bit(Seccfg(regs), 1), Bit(Seccfg(regs), 4);
    CfgNext(regs, p, t, i);
    LegalizedBit(Applied(t.op, v, t.wdata, CfgLock(v, rlb)), mml, j, b);
    CfgLockBit(v, rlb, j, b);
    CfgLockBit(v, rlb, j, 0);
    AtOne(j, b);
    AtOne(j, 0);
    AppliedBit(t.op, v, t.wdata, CfgLock(v, rlb), At(j, b));
    AppliedBit(t.op, v, t.wdata, CfgLock(v, rlb), At(j, 0));
  }

  lemma SeccfgModes(v: bv32)
    ensures Mml(v) == Bit(v, 1) && Mmwp(v) == Bit(v, 2) && Rlb(v) == Bit(v, 4)
  {
  }

  // ---------------------------------------------------------------- address registers

  /** Region i's address register is held: its own lock bit is set, or the next region is in TOR mode. */
  predicate AddrHeld(regs: seq<Cell>, p: Params, i: nat)
    requires |regs| == REGISTERS && i < 16
  {
    || Bit(Cfg(regs, i), At(i % 4, 7))
    || (i + 1 < 16 && Implemented(p, (i + 1) / 4 * 4)
        && Bit(Cfg(regs, i + 1), At((i + 1) % 4, 3)) && !Bit(Cfg(regs, i + 1), At((i + 1) % 4, 4)))
  }

  /** An operation on a word without locks. */
  function Free(op: Op, v: bv32, n: bv32): bv32 {
    match op
    case Read => v
    case Write => n
    case Set => Or(v, n)
    case Clear => Drop(v, n)
  }

  lemma AddrLockedIs(regs: seq<Cell>, p: Params, i: nat)
    requires Shape(regs, p) && Implemented(p, i)
    ensures AddrLocked(regs, i) <==> AddrHeld(regs, p, i)
  {
    hide ValueAt, LockBit, Bit, At, TorMode;
    CfgValue(regs, p, i);
    LockBitAt(Cfg(regs, i), i % 4);
    if i + 1 < 16 {
      CfgValue(regs, p, i + 1);
      TorModeAt(Cfg(regs, i + 1), (i + 1) % 4);
    } else {
      NoSuchRegister(regs, p);
    }
    ZeroNotTor((i + 1) % 4);
  }

  lemma FreeSet(v: bv32, n: bv32)
    ensures SetBits(v, n, 0) == Or(v, n)
  {
    assert v | (n & !0) == v | n;
  }

  lemma DropNothing(n: bv32)
    ensures Drop(n, 0) == n
  {
  }

  lemma FreeClear(v: bv32, n: bv32)
    ensures ClearBits(v, n, 0) == Drop(v, n)
  {
    hide ClearBits, Drop;
    ClearMeans(v, n, 0);
    DropNothing(n);
  }

  lemma AppliedFree(op: Op, v: bv32, n: bv32)
    ensures Applied(op, v, n, 0) == Free(op, v, n)
    ensures op.Read? ==> Free(op, v, n) == v
  {
    AppliedOpen(v, n);
    hide Keep, SetBits, ClearBits, Or, Drop;
    FreeSet(v, n);
    FreeClear(v, n);
  }

  /** Region i's address register: the whole word follows the operation, unless it is held. */
  lemma AddrWritten(regs: seq<Cell>, p: Params, t: Transaction, i: nat)
    requires Shape(regs, p) && Implemented(p, i) && t.addr == CSR_PMPADDR0 + i
    ensures
      Addr(Next(regs, t), i)
      == if AddrHeld(regs, p, i) then Addr(regs, i) else Free(t.op, Addr(regs, i), t.wdata)
  {
    hide AddrLocked, AddrHeld, Applied, Free;
    AddrLockedIs(regs, p, i);
    assert regs[6 + i].kind.PmpAddr? && regs[6 + i].addr % 16 == i;
    AppliedLockedWord(t.op, Addr(regs, i), t.wdata);
    AppliedFree(t.op, Addr(regs, i), t.wdata);
  }
}
