/**
  Load filter and register file in one machine. A monitor numbers the capability loads, notes which
  load's value each register holds, and takes every verdict from the shadow map itself.
 */
module TemporalSafety {
  import opened Options
  import opened CapTypes
  import opened TrvkModel
  import opened RegFileModel

  /** One capability load: where to, what came back, and what the shadow map said about it. */
  datatype Load = Load(reg: nat, err: bool, probe: Option<Probe>, cap: RegCap, verdict: Option<bool>)

  /** n0..n2 number the loads in the pipeline stages; held numbers the load a register's value is from. */
  datatype System = System(p: Pipeline, f: File, loads: seq<Load>, n0: nat, n1: nat, n2: nat, held: seq<Option<nat>>)

  datatype Cycle = Cycle(reserve: Option<nat>, response: Option<Response>, write: Option<Write>, map_: ShadowMap)

  function ToInputs(c: Cycle): Inputs { Inputs(c.reserve, c.response, c.map_) }

  /** A reserved load's data arrives. */
  predicate LoadArrives(s: System, c: Cycle) {
    CpuAnswers(ToInputs(c)) && s.p.waiting.Some?
  }

  predicate LoadWrites(s: System, c: Cycle) { LoadArrives(s, c) && !c.response.value.err }

  function Release(p: Pipeline): Option<RegFileModel.Release> {
    if p.s2.Some? && p.s2.value.cpu then Some(RegFileModel.Release(p.s2.value.reg, p.s2.value.revoked)) else None
  }

  function ToPorts(s: System, c: Cycle): Ports {
    Ports(if LoadWrites(s, c) then Some(Write(s.p.waiting.value, c.response.value.cap)) else c.write,
          c.reserve, Release(s.p))
  }

  /**
    The environment: an instruction stalls on a register that is not ready, one load at most awaits
    its response, and the write port serves a load's data alone.
   */
  predicate Legal(s: System, c: Cycle)
    requires Sized(s.f)
  {
    && (c.reserve.Some? ==>
          c.reserve.value < NREGS && ReadyOut(s.f, ToPorts(s, c), c.reserve.value)
          && (s.p.waiting.None? || CpuAnswers(ToInputs(c))))
    && (c.write.Some? ==>
          c.write.value.reg < NREGS && ReadyOut(s.f, ToPorts(s, c), c.write.value.reg) && !LoadWrites(s, c))
  }

  function NextHeld(s: System, c: Cycle): (h: seq<Option<nat>>)
    requires |s.held| == NREGS
    ensures |h| == NREGS
  {
    seq(NREGS, r requires 0 <= r < NREGS =>
      if LoadWrites(s, c) && s.p.waiting == Some(r) then Some(|s.loads|)
      else if c.write.Some? && c.write.value.reg == r && !LoadWrites(s, c) then None
      else s.held[r])
  }

  function Ruled(s: System, c: Cycle): seq<Load> {
    seq(|s.loads|, k requires 0 <= k < |s.loads| =>
      if k == s.n0 && s.p.s0.Some? && s.p.s0.value.cpu
      then s.loads[k].(verdict := Some(s.loads[k].probe.Some? && Revoked(s.loads[k].probe.value, c.map_)))
      else s.loads[k])
  }

  function NextLoads(s: System, c: Cycle): seq<Load> {
    Ruled(s, c)
    + if LoadArrives(s, c)
      then [Load(s.p.waiting.value, c.response.value.err, ProbeOf(c.response.value), c.response.value.cap, None)]
      else []
  }

  function Step(s: System, c: Cycle): System
    requires Sized(s.f) && |s.held| == NREGS
  {
    System(Next(s.p, ToInputs(c)), NextFile(s.f, ToPorts(s, c)), NextLoads(s, c),
           |s.loads|, s.n0, s.n1, NextHeld(s, c))
  }

  // ---------------------------------------------------------------- what every cycle keeps

  function One(b: bool): nat { if b then 1 else 0 }

  /** How many operations in flight name register r. */
  function InFlight(p: Pipeline, r: nat): nat {
    One(p.waiting == Some(r))
    + One(p.s0.Some? && p.s0.value.cpu && p.s0.value.reg == r)
    + One(p.s1.Some? && p.s1.value.cpu && p.s1.value.reg == r)
    + One(p.s2.Some? && p.s2.value.cpu && p.s2.value.reg == r)
  }

  ghost predicate Reserved(s: System)
    requires Sized(s.f)
  {
    forall r | 0 <= r < NREGS :: if Holds(r) then InFlight(s.p, r) == One(!s.f.ready[r]) else s.f.ready[r]
  }

  /** Load k is at a stage that names register reg. */
  predicate AtStage(s: System, k: nat, reg: nat) {
    && k < |s.loads| && s.loads[k].reg == reg && reg < NREGS
    && (s.loads[k].probe.Some? <==> !s.loads[k].err && s.loads[k].cap.valid)
  }

  /** A load that brought data still owns its register until its verdict is out. */
  predicate Owns(s: System, k: nat, reg: nat)
    requires |s.held| == NREGS && k < |s.loads|
  {
    Holds(reg) && !s.loads[k].err ==> s.held[reg] == Some(k)
  }

  predicate Stages(s: System)
    requires |s.held| == NREGS
  {
    var p := s.p;
    && (p.waiting.Some? ==> p.waiting.value < NREGS)
    && (p.s0.Some? && p.s0.value.cpu ==>
          AtStage(s, s.n0, p.s0.value.reg) && Owns(s, s.n0, p.s0.value.reg)
          && s.loads[s.n0].probe == p.s0.value.probe && s.loads[s.n0].verdict.None?)
    && (p.s1.Some? && p.s1.value.cpu ==>
          AtStage(s, s.n1, p.s1.value.reg) && Owns(s, s.n1, p.s1.value.reg)
          && s.loads[s.n1].verdict == Some(p.s1.value.revoked)
          && (p.s1.value.revoked ==> s.loads[s.n1].probe.Some?))
    && (p.s2.Some? && p.s2.value.cpu ==>
          AtStage(s, s.n2, p.s2.value.reg) && Owns(s, s.n2, p.s2.value.reg)
          && s.loads[s.n2].verdict == Some(p.s2.value.revoked)
          && (p.s2.value.revoked ==> s.loads[s.n2].probe.Some?))
  }

  /** Load k's own verdict has not reached the register file yet. */
  predicate Undelivered(s: System, k: nat) {
    || (s.p.s0.Some? && s.p.s0.value.cpu && s.n0 == k)
    || (s.p.s1.Some? && s.p.s1.value.cpu && s.n1 == k)
    || (s.p.s2.Some? && s.p.s2.value.cpu && s.n2 == k)
  }

  function Filtered(l: Load): RegCap {
    if l.verdict == Some(true) then Untagged(l.cap) else l.cap
  }

  /** A register holds what was loaded, filtered once the verdict is delivered. */
  predicate HeldRight(s: System, r: nat)
    requires Sized(s.f) && |s.held| == NREGS && r < NREGS
  {
    s.held[r].Some? ==>
      var k := s.held[r].value;
      && k < |s.loads| && s.loads[k].reg == r && !s.loads[k].err
      && (if Undelivered(s, k) then s.f.caps[r] == s.loads[k].cap
          else s.loads[k].verdict.Some? && s.f.caps[r] == Filtered(s.loads[k]))
  }

  ghost predicate Inv(s: System) {
    && Sized(s.f) && |s.held| == NREGS
    && Reserved(s) && Stages(s) && (forall r | 0 <= r < NREGS && Holds(r) :: HeldRight(s, r))
  }

  lemma StepReserved(s: System, c: Cycle)
    requires Inv(s) && Legal(s, c)
    ensures Reserved(Step(s, c))
  {
    hide HeldRight, Revoked, NextLoads, NextHeld;
    var s' := Step(s, c);
    forall r | 0 <= r < NREGS
      ensures if Holds(r) then InFlight(s'.p, r) == One(!s'.f.ready[r]) else s'.f.ready[r]
    {
      assert if Holds(r) then InFlight(s.p, r) == One(!s.f.ready[r]) else s.f.ready[r];
    }
  }

  lemma LoadsAt(s: System, c: Cycle, k: nat)
    requires k < |NextLoads(s, c)|
    ensures |NextLoads(s, c)| == |s.loads| + One(LoadArrives(s, c))
    ensures k < |s.loads| ==>
      NextLoads(s, c)[k] == s.loads[k].(verdict := NextLoads(s, c)[k].verdict)
      && NextLoads(s, c)[k].verdict == (if k == s.n0 && s.p.s0.Some? && s.p.s0.value.cpu
                                        then Some(s.loads[k].probe.Some? && Revoked(s.loads[k].probe.value, c.map_))
                                        else s.loads[k].verdict)
    ensures k >= |s.loads| ==>
      k == |s.loads| && LoadArrives(s, c)
      && NextLoads(s, c)[k] == Load(s.p.waiting.value, c.response.value.err, ProbeOf(c.response.value),
                                    c.response.value.cap, None)
  {
    hide Revoked, ProbeOf;
  }

  /** While an operation of stage 0 or 1 names a register, nothing else may write it. */
  lemma StillOwned(s: System, c: Cycle, r: nat)
    requires Inv(s) && Legal(s, c) && Holds(r) && r < NREGS
    requires (s.p.s0.Some? && s.p.s0.value.cpu && s.p.s0.value.reg == r)
      || (s.p.s1.Some? && s.p.s1.value.cpu && s.p.s1.value.reg == r)
    ensures NextHeld(s, c)[r] == s.held[r]
  {
    hide HeldRight, Revoked, NextLoads, Stages;
    assert InFlight(s.p, r) == One(!s.f.ready[r]);
  }

  lemma StepStages(s: System, c: Cycle)
    requires Inv(s) && Legal(s, c)
    ensures Stages(Step(s, c))
  {
    hide HeldRight, Revoked, NextLoads, NextHeld, Reserved, NextFile, InFlight;
    var s' := Step(s, c);
    LoadCount(s, c);
    if s'.p.s0.Some? && s'.p.s0.value.cpu {
      LoadsAt(s, c, |s.loads|);
      HeldNew(s, c);
    }
    if s'.p.s1.Some? && s'.p.s1.value.cpu {
      LoadsAt(s, c, s.n0);
      if Holds(s'.p.s1.value.reg) {
        StillOwned(s, c, s'.p.s1.value.reg);
      }
    }
    if s'.p.s2.Some? && s'.p.s2.value.cpu {
      LoadsAt(s, c, s.n1);
      if Holds(s'.p.s2.value.reg) {
        StillOwned(s, c, s'.p.s2.value.reg);
      }
      SomeOther(s, c);
    }
  }

  lemma LoadCount(s: System, c: Cycle)
    ensures |NextLoads(s, c)| == |s.loads| + One(LoadArrives(s, c))
  {
  }

  lemma HeldNew(s: System, c: Cycle)
    requires |s.held| == NREGS && LoadArrives(s, c) && s.p.waiting.value < NREGS
    ensures !c.response.value.err ==> NextHeld(s, c)[s.p.waiting.value] == Some(|s.loads|)
  {
  }

  /** The loads of two stages are different loads: one has its verdict. */
  lemma SomeOther(s: System, c: Cycle)
    requires Inv(s) && s.p.s1.Some? && s.p.s1.value.cpu
    ensures s.p.s0.Some? && s.p.s0.value.cpu ==> s.n0 != s.n1
  {
  }

  /** A load's data is written while its verdict is still to come. */
  lemma HeldArrives(s: System, c: Cycle, r: nat)
    requires Inv(s) && Legal(s, c) && Holds(r) && r < NREGS && LoadWrites(s, c) && s.p.waiting == Some(r)
    ensures HeldRight(Step(s, c), r)
  {
    hide Revoked, NextLoads, ProbeOf;
    LoadCount(s, c);
    LoadsAt(s, c, |s.loads|);
    assert InFlight(s.p, r) == One(!s.f.ready[r]);
  }

  /** A verdict that is already out is not changed, and belongs to no later stage. */
  lemma StepHeld(s: System, c: Cycle, r: nat)
    requires Inv(s) && Legal(s, c) && Holds(r) && r < NREGS
    ensures HeldRight(Step(s, c), r)
  {
    hide Revoked, NextLoads, ProbeOf;
    var s' := Step(s, c);
    if LoadWrites(s, c) && s.p.waiting == Some(r) {
      HeldArrives(s, c, r);
    } else if s'.held[r].Some? {
      LoadCount(s, c);
      assert HeldRight(s, r);
      LoadsAt(s, c, s'.held[r].value);
      assert InFlight(s.p, r) == One(!s.f.ready[r]);
    }
  }

  lemma StepInv(s: System, c: Cycle)
    requires Inv(s) && Legal(s, c)
    ensures Inv(Step(s, c))
  {
    hide Reserved, Stages, HeldRight, Legal, Next, NextFile, NextLoads;
    StepReserved(s, c);
    StepStages(s, c);
    forall r | 0 <= r < NREGS && Holds(r)
      ensures HeldRight(Step(s, c), r)
    {
      StepHeld(s, c, r);
    }
  }

  // ---------------------------------------------------------------- whole runs

  predicate Reset(s: System) {
    && s.p == Pipeline(None, None, None, None)
    && s.f == File(seq(NREGS, r => NULL_REG_CAP), seq(NREGS, r => true))
    && s.loads == [] && s.held == seq(NREGS, r => None)
  }

  ghost predicate LegalRun(s: System, cycles: seq<Cycle>)
    decreases |cycles|
  {
    cycles == [] ||
    (Sized(s.f) && |s.held| == NREGS && Legal(s, cycles[0]) && LegalRun(Step(s, cycles[0]), cycles[1..]))
  }

  ghost function Run(s: System, cycles: seq<Cycle>): System
    requires LegalRun(s, cycles)
    decreases |cycles|
  {
    if cycles == [] then s else Run(Step(s, cycles[0]), cycles[1..])
  }

  lemma {:induction false} RunInv(s: System, cycles: seq<Cycle>)
    requires Inv(s) && LegalRun(s, cycles)
    ensures Inv(Run(s, cycles))
    decreases |cycles|
  {
    hide Inv, Legal, Step;
    if cycles != [] {
      StepInv(s, cycles[0]);
      RunInv(Step(s, cycles[0]), cycles[1..]);
    }
  }

  lemma ResetInv(s: System)
    requires Reset(s)
    ensures Inv(s)
  {
  }

  /** In every run a register is not ready exactly while one operation in flight names it, never two. */
  lemma ReservationExact(s: System, cycles: seq<Cycle>, r: nat)
    requires Reset(s) && LegalRun(s, cycles) && Holds(r) && r < NREGS
    ensures
      var e := Run(s, cycles);
      Sized(e.f) && (if e.f.ready[r] then InFlight(e.p, r) == 0 else InFlight(e.p, r) == 1)
  {
    hide Run, LegalRun, Stages, HeldRight, InFlight;
    ResetInv(s);
    RunInv(s, cycles);
    var e := Run(s, cycles);
    assert InFlight(e.p, r) == One(!e.f.ready[r]);
  }

  /**
    In every run, a ready register that still holds what a capability load brought presents that
    capability with its tag exactly when the shadow map did not say revoked, and the map has said.
   */
  lemma NoRevokedTagRead(s: System, cycles: seq<Cycle>, c: Cycle, r: nat)
    requires Reset(s) && LegalRun(s, cycles) && Holds(r) && r < NREGS
    requires
      var e := Run(s, cycles);
      Sized(e.f) && |e.held| == NREGS && e.held[r].Some? && ReadyOut(e.f, ToPorts(e, c), r)
    ensures
      var e := Run(s, cycles);
      var k := e.held[r].value;
      && k < |e.loads| && e.loads[k].reg == r && e.loads[k].verdict.Some?
      && Presented(e.f, ToPorts(e, c), r) == e.loads[k].cap.(valid := e.loads[k].cap.valid && !e.loads[k].verdict.value)
  {
    hide Run, LegalRun;
    ResetInv(s);
    RunInv(s, cycles);
    var e := Run(s, cycles);
    assert InFlight(e.p, r) == One(!e.f.ready[r]);
    assert HeldRight(e, r);
  }

  /** Verdicts, once given, stand. */
  lemma VerdictStands(s: System, c: Cycle, k: nat)
    requires Inv(s) && Legal(s, c) && k < |s.loads| && s.loads[k].verdict.Some?
    ensures k < |Step(s, c).loads| && Step(s, c).loads[k] == s.loads[k]
  {
    hide NextFile, NextHeld, HeldRight, Reserved, Revoked;
    LoadCount(s, c);
    LoadsAt(s, c, k);
  }

  // ---------------------------------------------------------------- single registers

  /** The verdict that reaches the register file in this cycle revokes what is meant for register r. */
  predicate RevokedNow(s: System, r: nat) {
    s.p.s2.Some? && s.p.s2.value.cpu && s.p.s2.value.reg == r && s.p.s2.value.revoked
  }

  /**
    A register takes the data of an error-free load reserved for it, or else what the write port gives
    it, or keeps its value; and a verdict that revokes it in that very cycle takes the tag of any of
    these.
   */
  lemma RegisterStep(s: System, c: Cycle, r: nat)
    requires Inv(s) && Legal(s, c) && Holds(r) && r < NREGS
    ensures
      var w := if s.p.waiting == Some(r) && LoadWrites(s, c) then c.response.value.cap
               else if c.write.Some? && c.write.value.reg == r then c.write.value.cap
               else s.f.caps[r];
      Step(s, c).f.caps[r] == w.(valid := w.valid && !RevokedNow(s, r))
  {
    hide Reserved, Stages, HeldRight, Next, NextLoads, NextReady;
  }

  /** A register is not ready from the cycle that reserves it to the one that delivers its verdict. */
  lemma ReadyStep(s: System, c: Cycle, r: nat)
    requires Inv(s) && Legal(s, c) && Holds(r) && r < NREGS
    ensures
      var delivered := s.p.s2.Some? && s.p.s2.value.cpu && s.p.s2.value.reg == r;
      && (ReadyOut(s.f, ToPorts(s, c), r) <==> s.f.ready[r] || delivered)
      && (Step(s, c).f.ready[r] <==> (s.f.ready[r] || delivered) && c.reserve != Some(r))
  {
    hide Reserved, Stages, HeldRight, Next, NextLoads, NextCap;
  }
}
