/** The register classes and the model that owns them, proved against the values they compute. */
module PmpRegisters {
  import opened PmpModel
  import opened PmpLocks

  /** One register. Its kind selects the behaviour of the source's derived class. */
  class Register {
    const kind: Kind
    const addr: nat
    const resetValue: bv32
    var value: bv32

    constructor (kind: Kind, addr: nat, resetValue: bv32)
      ensures this.kind == kind && this.addr == addr && this.resetValue == resetValue && value == 0
    {
      this.kind, this.addr, this.resetValue, value := kind, addr, resetValue, 0;
    }

    function AsCell(): Cell
      reads this
    {
      Cell(kind, addr, value)
    }

    method RegisterRead() returns (r: bv32)
      ensures r == ReadOf(AsCell())
    {
      r := if kind.NonImp? then 0 else value;
    }

    method RegisterReset()
      modifies this
      ensures value == if kind.Warl? then resetValue else 0
    {
      value := if kind.Warl? then resetValue else 0;
    }
  }

  function Cells(regs: seq<Register>): (s: seq<Cell>)
    reads set x | x in regs
    ensures |s| == |regs|
  {
    seq(|regs|, k requires 0 <= k < |regs| reads set x | x in regs => regs[k].AsCell())
  }

  /** A transaction's effect on one register, given the values of all. */
  ghost predicate OneStep(before: seq<Cell>, after: seq<Cell>, t: Transaction, done: nat)
    requires |before| == |after|
  {
    forall k | 0 <= k < |before| :: after[k] == if k < done then Next(before, t)[k] else before[k]
  }

  /** MSeccfgRegister::AnyPmpCfgsLocked */
  method AnyLocked(regs: seq<Register>) returns (any: bool)
    ensures any == AnyPmpCfgsLocked(Cells(regs))
  {
    hide AnyLockBit, PmpCfgAddress, ReadOf;
    var k := 0;
    while k < |regs|
      invariant 0 <= k <= |regs|
      invariant forall j | 0 <= j < k ::
                  !(PmpCfgAddress(Cells(regs)[j].addr) && AnyLockBit(ReadOf(Cells(regs)[j])))
    {
      if PmpCfgAddress(regs[k].addr) {
        var v := regs[k].RegisterRead();
        if AnyLockBit(v) {
          assert Cells(regs)[k] == regs[k].AsCell();
          return true;
        }
      }
      k := k + 1;
    }
    any := false;
  }

  /** Reads the register at an address; the last of several, zero if there is none. */
  method ReadAt(regs: seq<Register>, addr: nat) returns (v: bv32)
    ensures v == ValueAt(Cells(regs), addr)
  {
    hide ReadOf;
    v := 0;
    var k := 0;
    assert ValueAt(Cells(regs)[..0], addr) == 0;
    hide ValueAt, Cells;
    while k < |regs|
      invariant 0 <= k <= |regs| && v == ValueAt(Cells(regs)[..k], addr)
    {
      ValueAtStep(Cells(regs), k, addr);
      CellOf(regs, k);
      if regs[k].addr == addr {
        v := regs[k].RegisterRead();
      }
      k := k + 1;
    }
    assert Cells(regs)[..|regs|] == Cells(regs);
  }

  lemma ValueAtStep(s: seq<Cell>, k: nat, addr: nat)
    requires k < |s|
    ensures ValueAt(s[..k + 1], addr) == if s[k].addr == addr then ReadOf(s[k]) else ValueAt(s[..k], addr)
  {
    assert s[..k + 1][..k] == s[..k];
  }

  lemma CellOf(regs: seq<Register>, k: nat)
    requires k < |regs|
    ensures Cells(regs)[k] == regs[k].AsCell()
  {
  }

  /** GetLockMask of every class. */
  method GetLockMask(r: Register, regs: seq<Register>) returns (m: bv32)
    ensures m == LockMask(Cells(regs), r.AsCell())
  {
    hide Cells, ValueAt, CfgLock, MSeccfgLock, LockBit, TorMode, AnyPmpCfgsLocked;
    match r.kind
    case MSeccfg =>
      var any := AnyLocked(regs);
      m := MSeccfgLock(r.value, any);
    case PmpCfg =>
      var s := ReadAt(regs, CSR_MSECCFG);
      m := CfgLock(r.value, Rlb(s));
    case PmpAddr =>
      var region := r.addr % 16;
      var cfg := ReadAt(regs, CSR_PMPCFG0 + region / 4);
      var cfgPlus1 := ReadAt(regs, CSR_PMPCFG0 + (region + 1) / 4);
      m := if LockBit(cfg, region % 4) || TorMode(cfgPlus1, (region + 1) % 4) then 0xFFFF_FFFF else 0;
    case NonImp =>
      m := 0;
    case Warl(mask) =>
      m := mask;
    case Base =>
      m := 0;
  }

  /** The masked update. */
  method Masked(op: Op, value: bv32, newval: bv32, lock: bv32) returns (v: bv32)
    ensures v == Applied(op, value, newval, lock)
  {
    hide Keep, SetBits, ClearBits;
    match op
    case Read =>
      v := value;
    case Write =>
      v := Keep(value, newval, lock);
    case Set =>
      v := SetBits(value, newval, lock);
    case Clear =>
      v := ClearBits(value, newval, lock);
  }

  /** RegisterWrite, RegisterSet and RegisterClear of every class. */
  method Modify(r: Register, regs: seq<Register>, op: Op, newval: bv32)
    requires !op.Read? && !r.kind.NonImp?
    modifies r
    ensures r.value == NextValue(old(Cells(regs)), old(r.AsCell()), op, newval)
  {
    hide Cells, LockMask, ValueAt, Legalized, Mml, Applied;
    var lock := GetLockMask(r, regs);
    var v := Masked(op, r.value, newval, lock);
    if r.kind.PmpCfg? {
      var s := ReadAt(regs, CSR_MSECCFG);
      v := Legalized(v, Mml(s));
    }
    r.value := v;
  }

  /** ProcessTransaction: the addressed register performs the operation. */
  method ProcessTransaction(r: Register, regs: seq<Register>, t: Transaction) returns (matched: bool)
    modifies r
    ensures matched == (r.addr == t.addr)
    ensures matched ==> r.value == NextValue(old(Cells(regs)), old(r.AsCell()), t.op, t.wdata)
    ensures !matched ==> r.value == old(r.value)
  {
    hide Cells, LockMask, ValueAt, Legalized, Mml, Applied;
    if r.addr != t.addr {
      return false;
    }
    if !t.op.Read? && !r.kind.NonImp? {
      Modify(r, regs, t.op, t.wdata);
    }
    return true;
  }

  class RegisterModel {
    var registerMap: seq<Register>

    /** The registers are separate objects laid out in construction order, each with its reset value. */
    ghost predicate Valid(p: Params)
      reads this, set x | x in registerMap
    {
      && Shape(Cells(registerMap), p)
      && (forall k | 0 <= k < REGISTERS :: registerMap[k].resetValue == ResetValueAt(p, k))
      && forall j, k | 0 <= j < k < |registerMap| :: registerMap[j] != registerMap[k]
    }

    /** Every register's value moves as one step of the list; registers that do not match stay. */
    method NewTransaction(t: Transaction, ghost p: Params) returns (matched: bool)
      requires Valid(p)
      modifies registerMap
      ensures Valid(p) && registerMap == old(registerMap)
      ensures Cells(registerMap) == Next(old(Cells(registerMap)), t)
      ensures matched <==> exists k :: 0 <= k < |registerMap| && registerMap[k].addr == t.addr
    {
      hide NextValue, AddrAt, KindAt, ResetValueAt;
      ghost var before := Cells(registerMap);
      ShapeDistinct(before, p);
      matched := false;
      var k := 0;
      while k < |registerMap|
        invariant 0 <= k <= |registerMap|
        invariant OneStep(before, Cells(registerMap), t, k)
        invariant forall j | 0 <= j < k && registerMap[j].addr == t.addr :: matched
        invariant matched ==> exists j :: 0 <= j < k && registerMap[j].addr == t.addr
      {
        if registerMap[k].addr == t.addr {
          Untouched(before, Cells(registerMap), t, k);
        }
        var m := ProcessTransaction(registerMap[k], registerMap, t);
        matched := matched || m;
        k := k + 1;
      }
      NextShape(before, p, t);
    }

    /** Every register's own reset value. */
    method RegisterReset(ghost p: Params)
      requires Valid(p)
      modifies registerMap
      ensures Valid(p) && AfterReset(Cells(registerMap), p)
    {
      hide AddrAt, KindAt, ResetValueAt;
      var k := 0;
      while k < |registerMap|
        invariant 0 <= k <= |registerMap|
        invariant forall j | 0 <= j < k ::
                    registerMap[j].value == if registerMap[j].kind.Warl? then registerMap[j].resetValue else 0
      {
        registerMap[k].RegisterReset();
        k := k + 1;
      }
      OnlyWarlReset(p);
    }

    /** The first n registers of the layout exist, all zero. */
    ghost predicate Built(p: Params, n: nat)
      reads this, set x | x in registerMap
    {
      && |registerMap| == n
      && (forall k | 0 <= k < n :: registerMap[k].AsCell() == Cell(KindAt(p, k), AddrAt(k), 0))
      && (forall k | 0 <= k < n :: registerMap[k].resetValue == ResetValueAt(p, k))
      && (forall j, k | 0 <= j < k < n :: registerMap[j] != registerMap[k])
    }

    method Push(kind: Kind, addr: nat, resetValue: bv32, ghost p: Params)
      requires Built(p, |registerMap|)
      requires kind == KindAt(p, |registerMap|) && addr == AddrAt(|registerMap|)
      requires resetValue == ResetValueAt(p, |registerMap|)
      modifies `registerMap
      ensures Built(p, |old(registerMap)| + 1)
      ensures fresh(set x | x in registerMap && x !in old(registerMap))
    {
      hide AddrAt, KindAt, ResetValueAt;
      var r := new Register(kind, addr, resetValue);
      registerMap := registerMap + [r];
    }

    /** Instantiate all the registers. */
    constructor (p: Params)
      ensures Valid(p) && AfterConstruction(Cells(registerMap), p)
      ensures fresh(set x | x in registerMap)
    {
      registerMap := [];
      new;
      PushControls(p);
      PushAddresses(p);
      PushEvents(p);
      PushLow(p);
      PushHigh(p);
      AllBuilt(p);
    }

    lemma AllBuilt(p: Params)
      requires Built(p, REGISTERS)
      ensures Valid(p) && AfterConstruction(Cells(registerMap), p)
    {
      hide AddrAt, KindAt, ResetValueAt;
    }

    /** mseccfg and the configuration words. */
    method PushControls(p: Params)
      requires Built(p, 0)
      modifies `registerMap
      ensures Built(p, 6) && fresh(set x | x in registerMap)
    {
      Push(MSeccfg, CSR_MSECCFG, 0, p);
      Push(NonImp, CSR_MSECCFGH, 0, p);
      for i := 0 to 4
        invariant Built(p, 2 + i) && |registerMap| == 2 + i && fresh(set x | x in registerMap)
      {
        Push(if p.pmpEnable && i < p.regions / 4 then PmpCfg else NonImp, CSR_PMPCFG0 + i, 0, p);
      }
    }

    method PushAddresses(p: Params)
      requires Built(p, 6)
      modifies `registerMap
      ensures Built(p, 22) && fresh(set x | x in registerMap && x !in old(registerMap))
    {
      for i := 0 to 16
        invariant Built(p, 6 + i) && fresh(set x | x in registerMap && x !in old(registerMap))
      {
        Push(if p.pmpEnable && i < p.regions then PmpAddr else NonImp, CSR_PMPADDR0 + i, 0, p);
      }
    }

    /** mcountinhibit and the event selectors. */
    method PushEvents(p: Params)
      requires Built(p, 22)
      modifies `registerMap
      ensures Built(p, 52) && fresh(set x | x in registerMap && x !in old(registerMap))
    {
      Push(Warl(InhibitMask(p)), 0x320, InhibitReset(p), p);
      for i := 3 to 32
        invariant Built(p, 20 + i) && fresh(set x | x in registerMap && x !in old(registerMap))
      {
        if i < p.counters + 3 {
          Push(Warl(0xFFFF_FFFF), 0x320 + i, Bit32(i), p);
        } else {
          Push(NonImp, 0x320 + i, 0, p);
        }
      }
    }

    /** mcycle, minstret and the counters' low words. */
    method PushLow(p: Params)
      requires Built(p, 52)
      modifies `registerMap
      ensures Built(p, 83) && fresh(set x | x in registerMap && x !in old(registerMap))
    {
      Push(Base, 0xB00, 0, p);
      Push(Base, 0xB02, 0, p);
      for i := 3 to 32
        invariant Built(p, 51 + i) && fresh(set x | x in registerMap && x !in old(registerMap))
      {
        Push(if i < p.counters + 3 then Warl(LowMask(p)) else NonImp, 0xB00 + i, 0, p);
      }
    }

    /** The same for the high words. */
    method PushHigh(p: Params)
      requires Built(p, 83)
      modifies `registerMap
      ensures Built(p, REGISTERS) && fresh(set x | x in registerMap && x !in old(registerMap))
    {
      Push(Base, 0xB80, 0, p);
      Push(Base, 0xB82, 0, p);
      for i := 3 to 32
        invariant Built(p, 82 + i) && fresh(set x | x in registerMap && x !in old(registerMap))
      {
        Push(if i < p.counters + 3 then Warl(HighMask(p)) else NonImp, 0xB80 + i, 0, p);
      }
    }
  }

  /** Before its turn the list is as it was. */
  lemma Untouched(before: seq<Cell>, now: seq<Cell>, t: Transaction, k: nat)
    requires |before| == |now| && k < |before| && OneStep(before, now, t, k)
    requires Distinct(before) && before[k].addr == t.addr
    ensures now == before
  {
    hide NextValue;
  }

  /** Registers of the other kinds have reset value zero. */
  lemma OnlyWarlReset(p: Params)
    ensures forall k | 0 <= k < REGISTERS && !KindAt(p, k).Warl? :: ResetValueAt(p, k) == 0
  {
    hide InhibitMask, InhibitReset, LowMask, HighMask, Bit32;
  }
}
