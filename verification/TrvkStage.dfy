/** The lookup stage's registers and the register file, proved against their models. */
module TrvkStage {
  import opened Options
  import opened CapTypes
  import opened TrvkModel

  /** One more operation into a three-deep pipeline. */
  function Shift<T>(s: seq<T>, x: T): (r: seq<T>)
    requires |s| == 3
    ensures |r| == 3 && r[0] == x && r[1] == s[0] && r[2] == s[1]
  {
    [x, s[0], s[1]]
  }

  class Stage {
    var cpuOpActive: bool
    var trsvAddr: nat
    var cpuOpValid: seq<bool>
    var tbreOpValid: seq<bool>
    var capGood: seq<bool>
    var trsvAddrQ: seq<nat>
    var inCap: RegCap
    var inData: U32
    var bitpos: nat
    var rangeOk1: bool
    var rangeOk2: bool
    var trvkStatus: bool
    var tsmapRdata: Word // output register of the shadow-map memory

    ghost predicate Valid()
      reads this
    {
      && |cpuOpValid| == |tbreOpValid| == |capGood| == |trsvAddrQ| == 3 && bitpos < 32
      && forall k | 0 <= k < 3 :: !(cpuOpValid[k] && tbreOpValid[k])
    }

    ghost predicate Busy(k: nat)
      requires Valid() && k < 3
      reads this
    {
      cpuOpValid[k] || tbreOpValid[k]
    }

    ghost function RegAt(k: nat): nat
      requires Valid() && k < 3
      reads this
    {
      if cpuOpValid[k] then trsvAddrQ[k] else 0
    }

    /** The operations that the registers hold between them. */
    ghost function Contents(): Pipeline
      requires Valid()
      reads this
    {
      Pipeline(
        if cpuOpActive then Some(trsvAddr) else None,
        if Busy(0) then Some(Op(cpuOpValid[0], RegAt(0), if capGood[0] then Some(Probe(inCap, inData)) else None))
        else None,
        if Busy(1) then Some(Verdict(cpuOpValid[1], RegAt(1), capGood[1] && rangeOk1 && tsmapRdata[bitpos])) else None,
        if Busy(2) then Some(Verdict(cpuOpValid[2], RegAt(2), trvkStatus && capGood[2] && rangeOk2)) else None)
    }

    constructor ()
      ensures Valid() && Contents() == Pipeline(None, None, None, None)
    {
      cpuOpActive, trsvAddr := false, 0;
      cpuOpValid, tbreOpValid, capGood := [false, false, false], [false, false, false], [false, false, false];
      trsvAddrQ, inCap, inData, bitpos := [0, 0, 0], NULL_REG_CAP, 0, 0;
      rangeOk1, rangeOk2, trvkStatus := false, false, false;
      tsmapRdata := seq(32, k => false);
    }

    /** Stages 1 and 2: index the map with the loaded capability's base, then pick its bit. */
    method ClockLookup(i: Inputs)
      requires Valid()
      modifies `trvkStatus, `rangeOk1, `rangeOk2, `bitpos, `tsmapRdata
      ensures bitpos < 32 && trvkStatus == old(tsmapRdata[bitpos]) && rangeOk2 == old(rangeOk1)
      ensures Busy(0) && capGood[0] ==> (rangeOk1 && tsmapRdata[bitpos]) == Revoked(Probe(inCap, inData), i.map_)
    {
      hide InRange, MapWord, MapBit;
      var probe := Probe(inCap, inData);
      trvkStatus, rangeOk2 := tsmapRdata[bitpos], rangeOk1;
      bitpos, rangeOk1 := MapBit(probe), InRange(probe);
      if (cpuOpValid[0] || tbreOpValid[0]) && capGood[0] {
        tsmapRdata := i.map_[MapWord(probe)];
      }
    }

    /** Stage 0: take in a response. */
    method ClockArrival(i: Inputs)
      requires Valid()
      modifies `inCap, `inData, `cpuOpValid, `tbreOpValid, `capGood, `trsvAddrQ, `cpuOpActive, `trsvAddr
      ensures Valid()
      ensures Contents().waiting == Next(old(Contents()), i).waiting
      ensures Contents().s0 == Arrival(old(Contents().waiting), i)
      ensures cpuOpValid[1..] == old(cpuOpValid[..2]) && tbreOpValid[1..] == old(tbreOpValid[..2])
      ensures capGood[1..] == old(capGood[..2]) && trsvAddrQ[1..] == old(trsvAddrQ[..2])
    {
      hide Revoked, Judge;
      var newCpu, newTbre, newGood := Latch(i);
      cpuOpValid, tbreOpValid := Shift(cpuOpValid, newCpu), Shift(tbreOpValid, newTbre);
      capGood, trsvAddrQ := Shift(capGood, newGood), Shift(trsvAddrQ, trsvAddr);
      Reserve(i);
    }

    /** Decode the response and register the loaded capability. */
    method Latch(i: Inputs) returns (newCpu: bool, newTbre: bool, newGood: bool)
      modifies `inCap, `inData
      ensures
        var op := Arrival(if cpuOpActive then Some(trsvAddr) else None, i);
        && !(newCpu && newTbre) && (op.Some? <==> newCpu || newTbre)
        && (op.Some? ==>
              op.value == Op(newCpu, if newCpu then trsvAddr else 0,
                             if newGood then Some(Probe(inCap, inData)) else None))
    {
      var lsuResp := i.response.Some? && i.response.value.Cpu?;
      var tbreResp := i.response.Some? && i.response.value.Tbre?;
      newCpu := cpuOpActive && lsuResp;
      newTbre := tbreResp && !i.response.value.isWrite;
      newGood := (newCpu || tbreResp) && !i.response.value.err && i.response.value.cap.valid;
      if (newCpu || newTbre) && !i.response.value.err {
        inCap, inData := i.response.value.cap, i.response.value.addr;
      }
    }

    /** The register that waits for its load. */
    method Reserve(i: Inputs)
      modifies `cpuOpActive, `trsvAddr
      ensures
        (if cpuOpActive then Some(trsvAddr) else None)
        == (if i.reserve.Some? then i.reserve
            else if CpuAnswers(i) || !old(cpuOpActive) then None
            else Some(old(trsvAddr)))
    {
      if i.reserve.Some? {
        cpuOpActive, trsvAddr := true, i.reserve.value;
      } else if i.response.Some? && i.response.value.Cpu? {
        cpuOpActive := false;
      }
    }

    /** One clock edge of the stage, and of the shadow map's memory beside it. */
    method Clock(i: Inputs)
      requires Valid()
      modifies this
      ensures Valid() && Contents() == Next(old(Contents()), i)
    {
      hide Revoked, Arrival;
      ClockLookup(i);
      ClockArrival(i);
    }
  }
}
