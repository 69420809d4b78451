/**
  The register model's PMP part on values: lock masks, reserved values and one transaction on the
  register list. Values are 32-bit words; the list is in construction order.
 */
module PmpModel {

  datatype Op = Read | Set | Write | Clear
  datatype Kind = MSeccfg | PmpCfg | PmpAddr | NonImp | Warl(mask: bv32) | Base
  datatype Cell = Cell(kind: Kind, addr: nat, value: bv32)
  datatype Transaction = Transaction(op: Op, addr: nat, wdata: bv32)

  const CSR_PMPCFG0: nat := 0x3A0
  const CSR_PMPADDR0: nat := 0x3B0
  const CSR_MSECCFG: nat := 0x747
  const CSR_MSECCFGH: nat := 0x757

  // ---------------------------------------------------------------- words

  function And(v: bv32, w: bv32): bv32 { v & w }
  function Drop(v: bv32, w: bv32): bv32 { v & !w }

  function Keep(v: bv32, n: bv32, lock: bv32): bv32 { (v & lock) | (n & !lock) }
  function SetBits(v: bv32, n: bv32, lock: bv32): bv32 { v | (n & !lock) }
  function ClearBits(v: bv32, n: bv32, lock: bv32): bv32 { v & (!n | lock) }

  predicate Mml(v: bv32) { v & 1 != 0 }
  predicate Mmwp(v: bv32) { v & 2 != 0 }
  predicate Rlb(v: bv32) { v & 4 != 0 }

  /** Byte j moved to the bottom. */
  function ByteAt(v: bv32, j: nat): bv32 {
    if j == 0 then v else if j == 1 then v >> 8 else if j == 2 then v >> 16 else v >> 24
  }

  predicate LockBit(v: bv32, j: nat) { ByteAt(v, j) & 0x80 != 0 }
  predicate TorMode(v: bv32, j: nat) { ByteAt(v, j) & 0x18 == 0x8 }

  predicate AnyLockBit(v: bv32) { v & 0x8080_8080 != 0 }

  /** Bits 6:5 of each byte read as zero; without MML, W=1 with R=0 becomes W=R=0. */
  function Legalized(v: bv32, mml: bool): bv32 {
    var c := And(v, 0x9F9F_9F9F);
    if mml then c
    else Reserved(Reserved(Reserved(Reserved(c, 0x3, 0x2), 0x300, 0x200), 0x3_0000, 0x2_0000), 0x300_0000, 0x200_0000)
  }

  function Reserved(c: bv32, mask: bv32, bad: bv32): bv32 {
    if And(c, mask) == bad then Drop(c, mask) else c
  }

  // ---------------------------------------------------------------- lock masks

  function MSeccfgLock(v: bv32, anyLocked: bool): bv32 {
    0xFFFF_FFF8
    | (if anyLocked && !Rlb(v) then 4 else 0)
    | (if Mmwp(v) then 2 else 0)
    | (if Mml(v) then 1 else 0)
  }

  function CfgLock(v: bv32, rlb: bool): bv32 {
    if rlb then 0
    else
      (if v & 0x80 != 0 then 0xFF else 0)
      | (if v & 0x8000 != 0 then 0xFF00 else 0)
      | (if v & 0x80_0000 != 0 then 0xFF_0000 else 0)
      | (if v & 0x8000_0000 != 0 then 0xFF00_0000 else 0)
  }

  function ReadOf(c: Cell): bv32 { if c.kind.NonImp? then 0 else c.value }

  predicate PmpCfgAddress(addr: nat) { addr / 4 == CSR_PMPCFG0 / 4 }

  predicate AnyPmpCfgsLocked(regs: seq<Cell>) {
    exists k :: 0 <= k < |regs| && PmpCfgAddress(regs[k].addr) && AnyLockBit(ReadOf(regs[k]))
  }

  /** Value of the register at an address, zero if there is none. */
  function ValueAt(regs: seq<Cell>, addr: nat): bv32 {
    if regs == [] then 0
    else if regs[|regs| - 1].addr == addr then ReadOf(regs[|regs| - 1])
    else ValueAt(regs[..|regs| - 1], addr)
  }

  /** The region's lock bit, or the next region in TOR mode. */
  predicate AddrLocked(regs: seq<Cell>, region: nat) {
    || LockBit(ValueAt(regs, CSR_PMPCFG0 + region / 4), region % 4)
    || TorMode(ValueAt(regs, CSR_PMPCFG0 + (region + 1) / 4), (region + 1) % 4)
  }

  function LockMask(regs: seq<Cell>, c: Cell): bv32 {
    match c.kind
    case MSeccfg => MSeccfgLock(c.value, AnyPmpCfgsLocked(regs))
    case PmpCfg => CfgLock(c.value, Rlb(ValueAt(regs, CSR_MSECCFG)))
    case PmpAddr => if AddrLocked(regs, c.addr % 16) then 0xFFFF_FFFF else 0
    case NonImp => 0
    case Warl(mask) => mask
    case Base => 0
  }

  function Applied(op: Op, v: bv32, n: bv32, lock: bv32): bv32 {
    match op
    case Read => v
    case Write => Keep(v, n, lock)
    case Set => SetBits(v, n, lock)
    case Clear => ClearBits(v, n, lock)
  }

  /** What an operation leaves in register c. */
  function NextValue(regs: seq<Cell>, c: Cell, op: Op, n: bv32): bv32 {
    if op.Read? || c.kind.NonImp? then c.value
    else
      var v := Applied(op, c.value, n, LockMask(regs, c));
      if c.kind.PmpCfg? then Legalized(v, Mml(ValueAt(regs, CSR_MSECCFG))) else v
  }

  predicate Distinct(regs: seq<Cell>) {
    forall j, k | 0 <= j < k < |regs| :: regs[j].addr != regs[k].addr
  }

  /** The register a transaction addresses is the only one that changes. */
  function Next(regs: seq<Cell>, t: Transaction): (r: seq<Cell>)
    ensures |r| == |regs|
  {
    seq(|regs|, k requires 0 <= k < |regs| =>
      if regs[k].addr == t.addr then regs[k].(value := NextValue(regs, regs[k], t.op, t.wdata)) else regs[k])
  }
}
