/**
  The stack zeroiser with 33-bit memory words: one word per grant, from the top downwards, its
  progress readable and resumable through ZTOPC.
 */
module StkzModel {
  import opened Options
  import opened CapTypes
  import opened Bounds

  const WORDS: nat := 0x4000_0000

  datatype Fsm = Idle | Active | Abort

  /** A write to ZTOPC: address and expanded capability. */
  datatype ZtopWrite = ZtopWrite(wdata: U32, wfcap: FullCap)

  datatype Inputs = Inputs(write: Option<ZtopWrite>, unmaskedIntr: bool, reqDone: bool, respErr: bool)

  /** ptrw, ptrwNxt and basew are word addresses. */
  datatype State = State(fsm: Fsm, ptrw: nat, ptrwNxt: nat, basew: nat, rcap: RegCap, err: bool)

  function Word(addr: U32): (w: nat)
    ensures w < WORDS
  {
    addr / 4
  }

  predicate CapGood(w: ZtopWrite) {
    w.wfcap.valid && w.wfcap.top33 / 4 >= Word(w.wdata) && w.wfcap.perms.sd
  }

  predicate IsNull(w: ZtopWrite) { w.wfcap == NULL_FULL_CAP && w.wdata == 0 }

  /** Address at the base: nothing to zero, and the tag is cleared. */
  predicate NothingToDo(w: ZtopWrite) { CapGood(w) && Word(w.wdata) == Word(w.wfcap.base32) }

  predicate Starts(i: Inputs) {
    i.write.Some? && !IsNull(i.write.value) && CapGood(i.write.value)
    && Word(i.write.value.wdata) > Word(i.write.value.wfcap.base32)
  }

  predicate Done(z: State) { z.ptrwNxt <= z.basew }

  predicate Stops(i: Inputs) { i.unmaskedIntr || (i.write.Some? && IsNull(i.write.value)) }

  predicate Running(z: State) { !z.fsm.Idle? }

  predicate Grants(z: State, i: Inputs) { Running(z) && i.reqDone }

  function NextFsm(z: State, i: Inputs): Fsm {
    if z.fsm.Idle? && Starts(i) then Active
    else if z.fsm.Active? && Done(z) && i.reqDone then Idle
    else if z.fsm.Active? && Stops(i) && i.reqDone then Idle
    else if z.fsm.Active? && Stops(i) then Abort
    else if z.fsm.Abort? && i.reqDone then Idle
    else z.fsm
  }

  function WrittenCap(w: ZtopWrite): RegCap {
    var c := Full2RegCap(w.wfcap);
    if NothingToDo(w) then c.(valid := false) else c
  }

  /** The capability moved to word address p, untagged once everything is zero. */
  function MovedCap(c: RegCap, p: nat, finished: bool): RegCap
    requires p < WORDS
  {
    var cors := UpdateTempFields(c.top, c.base, Mid9(4 * p, c.exp));
    c.(topCor := cors.topCor, baseCor := cors.baseCor, valid := c.valid && !finished)
  }

  function Less(p: nat): nat { if p == 0 then WORDS - 1 else p - 1 }

  /** One clock edge. */
  function Next(z: State, i: Inputs): State
    requires z.ptrwNxt < WORDS
  {
    State(
      NextFsm(z, i),
      if i.write.Some? then Word(i.write.value.wdata) else if Grants(z, i) then z.ptrwNxt else z.ptrw,
      if Starts(i) then Less(Word(i.write.value.wdata))
      else if Grants(z, i) && !(Done(z) || Stops(i)) then Less(z.ptrwNxt)
      else z.ptrwNxt,
      if Starts(i) then Word(i.write.value.wfcap.base32) else z.basew,
      if i.write.Some? then WrittenCap(i.write.value)
      else if Grants(z, i) then MovedCap(z.rcap, z.ptrwNxt, Done(z))
      else z.rcap,
      if !Running(z) && Starts(i) then false else i.respErr || z.err)
  }

  /** The core holds back an access into the area still to be zeroed; the lower limit is a 16-byte line. */
  predicate Stalls(z: State, addr: U32) {
    Running(z) && addr / 16 >= 4 * z.basew / 16 && addr / 4 < z.ptrw
  }

  class Zeroizer {
    var fsm: Fsm
    var ptrw: nat
    var ptrwNxt: nat
    var basew: nat
    var rcap: RegCap
    var err: bool

    ghost predicate Valid()
      reads this
    {
      ptrwNxt < WORDS
    }

    ghost function Contents(): State
      reads this
    {
      State(fsm, ptrw, ptrwNxt, basew, rcap, err)
    }

    constructor ()
      ensures Valid() && Contents() == State(Idle, 0, 0, 0, NULL_REG_CAP, false)
    {
      fsm, ptrw, ptrwNxt, basew, rcap, err := Idle, 0, 0, 0, NULL_REG_CAP, false;
    }

    /** The state register. */
    method ClockFsm(i: Inputs, start: bool, done: bool, stop: bool)
      requires start == Starts(i) && done == Done(Contents()) && stop == Stops(i)
      modifies `fsm
      ensures fsm == NextFsm(old(Contents()), i)
    {
      hide Starts, Stops;
      if fsm.Idle? && start {
        fsm := Active;
      } else if fsm.Active? && done && i.reqDone {
        fsm := Idle;
      } else if fsm.Active? && stop && i.reqDone {
        fsm := Idle;
      } else if fsm.Active? && stop {
        fsm := Abort;
      } else if fsm.Abort? && i.reqDone {
        fsm := Idle;
      }
    }

    /** One clock edge. */
    method Clock(i: Inputs)
      requires Valid()
      modifies this
      ensures Valid() && Contents() == Next(old(Contents()), i)
    {
      hide CapGood, MovedCap, WrittenCap, IsNull, Word, NextFsm;
      var start := i.write.Some? && !IsNull(i.write.value) && CapGood(i.write.value)
      && Word(i.write.value.wdata) > Word(i.write.value.wfcap.base32);
      var done := ptrwNxt <= basew;
      var stop := i.unmaskedIntr || (i.write.Some? && IsNull(i.write.value));
      var active := !fsm.Idle?;

      ClockFsm(i, start, done, stop);
      if i.write.Some? {
        ptrw, rcap := Word(i.write.value.wdata), WrittenCap(i.write.value);
      } else if active && i.reqDone {
        ptrw, rcap := ptrwNxt, MovedCap(rcap, ptrwNxt, done);
      }
      if !active && start {
        err := false;
      } else if i.respErr {
        err := true;
      }
      if start {
        basew, ptrwNxt := Word(i.write.value.wfcap.base32), Less(Word(i.write.value.wdata));
      } else if active && i.reqDone && !(done || stop) {
        ptrwNxt := Less(ptrwNxt);
      }
    }
  }
}
