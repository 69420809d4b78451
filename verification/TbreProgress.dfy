/**
  A walk ends: a measure falls with every event of the engine or its environment and never rises,
  and a walk with nothing left to wait for always moves.
 */
module TbreProgress {
  import opened TbreModel
  import opened TbreSafety

  /** Loads still to be granted. */
  function LoadsLeft(s: System): nat {
    if !s.w.phase.Loading? then 0
    else if s.w.cur == COUNTER - 1 then s.regs.end + 2
    else if s.regs.end > s.w.cur then s.regs.end - s.w.cur + 1
    else 1
  }

  function Weight(b: bool): nat { if b then 1 else 0 }

  /** Each kind of pending work, weighted by how many events it can still cause. */
  function Measure(s: System): nat {
    var n := |s.w.q|;
    7 * LoadsLeft(s)
    + (if s.w.looked <= s.w.answered <= n then 5 * (n - s.w.answered) + 4 * (s.w.answered - s.w.looked) else 0)
    + 3 * s.w.looked
    + Weight(s.bus.StorePending?) + Weight(s.w.sched.NoReq?) + Weight(!s.w.phase.Idle?)
  }

  /** Something happens in this cycle. */
  predicate Moves(s: System, c: Cycle)
    requires Shaped(s.w)
  {
    var i := ToInputs(c);
    || c.granted || c.response.Some? || c.lookup.Some? || Pops(s.w, i)
    || NextPhase(s.w, i) != s.w.phase || NextSched(s.w, i) != s.w.sched
  }

  lemma LoadsLeftFall(s: System, c: Cycle)
    requires Inv(s) && Legal(s, c) && s.w.phase.Loading? && s.regs.end < COUNTER - 1
    ensures LoadsLeft(Step(s, c)) == LoadsLeft(s) - if LoadGrant(s.w, ToInputs(c)) then 1 else 0
  {
    hide NextQueue, NextVisits, NextSched, NextRevoked, EngineWrite, CpuWrite, Tracked, Decided, Fresh;
    hide Agrees, Accounted;
    hide InOrder, OnBus, Filled, Requesting, NextBus;
  }

  /** While a walk is on, the measure never rises, and it falls whenever anything moves. */
  lemma StepProgress(s: System, c: Cycle)
    requires Inv(s) && Legal(s, c) && !s.w.phase.Idle? && s.regs.end < COUNTER - 1
    ensures Measure(Step(s, c)) <= Measure(s)
    ensures Moves(s, c) ==> Measure(Step(s, c)) < Measure(s)
  {
    hide NextQueue, NextVisits, NextRevoked, EngineWrite, CpuWrite, Tracked, Decided, Fresh, Agrees;
    hide Accounted;
    hide InOrder, Filled, Revokes, LoadsLeft, Read;
    var i := ToInputs(c);
    LegalAllowed(s, c);
    NextSize(s.w, i);
    NextShaped(s.w, i);
    if s.w.phase.Loading? {
      LoadsLeftFall(s, c);
    } else {
      assert LoadsLeft(s) == 0 == LoadsLeft(Step(s, c)) by { NoLoadsLeft(s, c); }
    }
  }

  lemma NoLoadsLeft(s: System, c: Cycle)
    requires Shaped(s.w) && s.w.phase.Draining?
    ensures LoadsLeft(s) == 0 == LoadsLeft(Step(s, c))
  {
    hide NextQueue, NextVisits, NextRevoked, EngineWrite, CpuWrite, Filled, NextSched;
  }

  /** A walk in which nothing moves is waiting for the LSU to grant or answer, or for a shadow bit. */
  lemma NeverStuck(s: System, c: Cycle)
    requires Inv(s) && Legal(s, c) && !s.w.phase.Idle?
    ensures Moves(s, c) || Requesting(s.w, ToInputs(c)) || !s.bus.Free? || s.w.looked < s.w.answered
  {
    hide Tracked, Decided, Fresh, Agrees, Accounted, InOrder, Filled, Revokes;
  }

  /** The cycles of a run in which something moves, up to the end of the walk. */
  ghost function MovesIn(s: System, cycles: seq<Cycle>): nat
    requires LegalRun(s, cycles)
    decreases |cycles|
  {
    if cycles == [] || s.w.phase.Idle? then 0
    else Weight(Moves(s, cycles[0])) + MovesIn(Step(s, cycles[0]), cycles[1..])
  }

  ghost predicate Finishes(s: System, cycles: seq<Cycle>)
    requires LegalRun(s, cycles)
    decreases |cycles|
  {
    s.w.phase.Idle? || (cycles != [] && Finishes(Step(s, cycles[0]), cycles[1..]))
  }

  lemma {:induction false} MovesBounded(s: System, cycles: seq<Cycle>)
    requires Inv(s) && LegalRun(s, cycles) && (!s.w.phase.Idle? ==> s.regs.end < COUNTER - 1)
    ensures MovesIn(s, cycles) <= Measure(s)
    ensures !s.w.phase.Idle? && !Finishes(s, cycles) ==> MovesIn(s, cycles) < Measure(s)
    decreases |cycles|
  {
    hide Inv, Legal, Step, Measure, Moves, Shaped;
    if s.w.phase.Idle? {
    } else if cycles == [] {
      MeasurePositive(s);
    } else {
      var s' := Step(s, cycles[0]);
      StepInv(s, cycles[0]);
      StepProgress(s, cycles[0]);
      RegistersHeld(s, cycles[0]);
      MovesBounded(s', cycles[1..]);
      assert MovesIn(s, cycles) == Weight(Moves(s, cycles[0])) + MovesIn(s', cycles[1..]);
      assert Finishes(s, cycles) == Finishes(s', cycles[1..]);
    }
  }

  lemma MeasurePositive(s: System)
    requires !s.w.phase.Idle?
    ensures Measure(s) > 0
  {
  }

  lemma RegistersHeld(s: System, c: Cycle)
    requires Shaped(s.w) && !s.w.phase.Idle?
    ensures Step(s, c).regs == s.regs
  {
  }

  /** A run that moves as often as the measure allows has brought the walk back to IDLE. */
  lemma WalkTerminates(s: System, cycles: seq<Cycle>)
    requires Inv(s) && LegalRun(s, cycles) && !s.w.phase.Idle? && s.regs.end < COUNTER - 1
    requires MovesIn(s, cycles) >= Measure(s)
    ensures Finishes(s, cycles)
  {
    hide Inv, LegalRun, Measure, MovesIn, Finishes;
    MovesBounded(s, cycles);
  }

  /** In IDLE the FIFOs are empty and no request is made. */
  lemma IdleIsQuiet(s: System, c: Cycle)
    requires Inv(s) && Legal(s, c) && s.w.phase.Idle?
    ensures s.w.q == [] && s.w.answered == 0 && s.w.looked == 0 && !Requesting(s.w, ToInputs(c)) && !s.bus.LoadPending?
  {
    hide Tracked, Decided, Fresh, Agrees, Accounted, InOrder, Filled, Revokes;
  }

  lemma AllOnesStep(s: System, c: Cycle)
    requires Inv(s) && Legal(s, c) && s.w.phase.Loading? && s.regs.end == COUNTER - 1
    ensures Step(s, c).w.phase.Loading? && Step(s, c).regs.end == COUNTER - 1
  {
    hide NextQueue, NextVisits, NextRevoked, EngineWrite, CpuWrite, Tracked, Decided, Fresh, Agrees;
    hide Accounted;
    hide InOrder, Filled, Revokes, NextSched, Requesting, OnBus;
  }

  /** With an end register of all ones a walk that has begun stays in its loading phase in every run. */
  lemma {:induction false} AllOnesNeverEnds(s: System, cycles: seq<Cycle>)
    requires Inv(s) && LegalRun(s, cycles) && s.w.phase.Loading? && s.regs.end == COUNTER - 1
    ensures Run(s, cycles).w.phase.Loading? && !Finishes(s, cycles)
    decreases |cycles|
  {
    hide Inv, Legal, Step;
    if cycles != [] {
      StepInv(s, cycles[0]);
      AllOnesStep(s, cycles[0]);
      AllOnesNeverEnds(Step(s, cycles[0]), cycles[1..]);
    }
  }

  /** A response error is recorded until the next walk begins. */
  lemma ErrorStep(s: System, c: Cycle)
    requires Shaped(s.w)
    ensures
      Step(s, c).w.err <==>
        !(s.w.phase.Idle? && c.go) && (s.w.err || (c.response.Some? && c.response.value.err))
  {
    hide NextQueue, NextVisits, NextRevoked, EngineWrite, CpuWrite, NextBus, NextPhase, NextSched, Pops, Shaped;
  }

  /** No cycle of the run begins a walk. */
  ghost predicate NoneBegins(s: System, cycles: seq<Cycle>)
    requires LegalRun(s, cycles)
    decreases |cycles|
  {
    cycles == [] || (!(s.w.phase.Idle? && cycles[0].go) && NoneBegins(Step(s, cycles[0]), cycles[1..]))
  }

  predicate AnswersWithError(c: Cycle) { c.response.Some? && c.response.value.err }

  /** Until the next walk begins the error output is set exactly when it was, or a response was an error. */
  lemma {:induction false} ErrorExact(s: System, cycles: seq<Cycle>)
    requires LegalRun(s, cycles) && NoneBegins(s, cycles)
    ensures Run(s, cycles).w.err <==> s.w.err || exists k :: 0 <= k < |cycles| && AnswersWithError(cycles[k])
    decreases |cycles|
  {
    hide Legal, Step;
    if cycles != [] {
      var s' := Step(s, cycles[0]);
      ErrorStep(s, cycles[0]);
      ErrorExact(s', cycles[1..]);
      if k :| 0 <= k < |cycles| && AnswersWithError(cycles[k]) {
        assert k > 0 ==> AnswersWithError(cycles[1..][k - 1]);
      }
    }
  }

  // ---------------------------------------------------------------- requests and turns

  /** The oldest undecided granule is completely known and due to lose its tag. */
  predicate HeadDue(s: System) {
    s.w.looked > 0 && s.undecided < |s.visits| && Due(s.visits[s.undecided])
  }

  lemma HeadWanted(s: System)
    requires Inv(s)
    ensures StoreWanted(s.w) <==> HeadDue(s)
  {
    hide Decided, Fresh, Agrees, Accounted, InOrder, LoadsUntagged, OnBus, Filled;
    if s.w.looked > 0 {
      assert Mirrors(s.w.q[0], s.visits[s.undecided], true, true);
    }
  }

  /**
    The engine requests an access exactly in a load turn, or in a store turn with a head that is due,
    when no access of its own is under way, or one is answered in this very cycle and no wait is asked for.
   */
  lemma RequestExact(s: System, c: Cycle)
    requires Inv(s) && Legal(s, c)
    ensures
      Requesting(s.w, ToInputs(c)) <==>
        && (s.w.sched.LoadReq? || (s.w.sched.StoreReq? && HeadDue(s)))
        && (s.bus.Free? || (c.response.Some? && !c.addWait))
  {
    hide Tracked, Decided, Fresh, Agrees, Accounted, InOrder, LoadsUntagged, Filled, HeadDue, StoreWanted;
    HeadWanted(s);
  }

  /** The load granted in this cycle is the walk's last. */
  predicate LastGrant(s: System) {
    s.w.phase.Loading? && (if s.w.cur == 0x1F_FFFF then 0 else s.w.cur + 1) > s.regs.end
  }

  /**
    Turns: loads go first while there are any and the queue has room; the grant that takes the last room,
    or is the last of the walk, hands over to a head that is due; a store turn lasts until the store is
    granted or the head is not due, and then loads go on.
   */
  lemma TurnTaken(s: System, c: Cycle)
    requires Inv(s) && Legal(s, c)
    ensures
      var now, next := s.w.sched, Step(s, c).w.sched;
      var over := c.granted && (|s.w.q| >= 3 || LastGrant(s));
      && (now.NoReq? && s.w.phase.Loading? && |s.w.q| < 4 ==> next.LoadReq?)
      && (now.NoReq? && !(s.w.phase.Loading? && |s.w.q| < 4) ==> next == if HeadDue(s) then StoreReq else NoReq)
      && (now.LoadReq? ==> next == if !over then LoadReq else if HeadDue(s) then StoreReq else NoReq)
      && (now.StoreReq? ==>
            next == if !c.granted && HeadDue(s) then StoreReq
                    else if s.w.phase.Loading? then LoadReq else NoReq)
  {
    hide Tracked, Decided, Fresh, Agrees, Accounted, InOrder, LoadsUntagged, Filled, HeadDue, StoreWanted, OnBus;
    hide NextQueue, NextVisits, NextRevoked, EngineWrite, CpuWrite, NextBus, Pops;
    HeadWanted(s);
  }
}
