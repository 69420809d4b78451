/**
  Zeroising a stack through any number of interruptions. A campaign begins when a capability is
  written to ZTOPC and goes on through every write-back of what ZTOPC reads.
 */
module StkzSafety {
  import opened Options
  import opened Bits
  import opened CapTypes
  import opened Bounds
  import opened StkzModel

  /** Word addresses [base, top) to be zeroed, under a capability with bounds [4 * base, capTop). */
  datatype Campaign = Campaign(base: nat, top: nat, capTop: nat)

  /**
    campaign: what ZTOPC stands for, until something else is written to it; last: the campaign the
    engine was last started on; wiped: the words it has stored zero to since that campaign began.
   */
  datatype System = System(z: State, campaign: Option<Campaign>, last: Option<Campaign>, wiped: set<nat>)

  /** A register written to ZTOPC. */
  datatype Written = Written(cap: RegCap, addr: U32)

  /** access: a load or store of the core that is not held back. */
  datatype Cycle = Cycle(write: Option<Written>, unmaskedIntr: bool, reqDone: bool, respErr: bool, access: Option<U32>)

  function ToInputs(c: Cycle): Inputs {
    Inputs(if c.write.Some?
           then Some(ZtopWrite(c.write.value.addr, Reg2FullCap(c.write.value.cap, c.write.value.addr))) else None,
           c.unmaskedIntr, c.reqDone, c.respErr)
  }

  /** Grants answer requests, ZTOPC is given word-aligned well-formed capabilities, and only NULL while running. */
  predicate Legal(s: System, c: Cycle) {
    && (c.reqDone ==> Running(s.z))
    && (c.access.Some? ==> !Stalls(s.z, c.access.value))
    && (c.write.Some? ==>
          var w := c.write.value;
          && (Running(s.z) ==> IsNull(ToInputs(c).write.value))
          && (w.cap.valid ==> WellFormed(w.cap, w.addr) && w.addr % 4 == 0 && Base32(w.cap, w.addr) % 4 == 0))
  }

  /** The write puts back what ZTOPC reads. */
  predicate WritesBack(s: System, c: Cycle) {
    c.write.Some? && c.write.value.cap == s.z.rcap && c.write.value.addr == 4 * s.z.ptrw
  }

  function NextCampaign(s: System, c: Cycle): Option<Campaign> {
    if c.write.None? then s.campaign
    else if !Starts(ToInputs(c)) then None
    else if s.campaign.Some? && WritesBack(s, c) then s.campaign
    else
      var f := ToInputs(c).write.value.wfcap;
      Some(Campaign(Word(f.base32), Word(c.write.value.addr), f.top33))
  }

  function NextWiped(s: System, c: Cycle): set<nat> {
    if Starts(ToInputs(c)) && !(s.campaign.Some? && WritesBack(s, c)) then {}
    else if Grants(s.z, ToInputs(c)) then s.wiped + {s.z.ptrwNxt}
    else s.wiped
  }

  function Step(s: System, c: Cycle): System
    requires s.z.ptrwNxt < WORDS
  {
    System(Next(s.z, ToInputs(c)), NextCampaign(s, c),
           if Starts(ToInputs(c)) then NextCampaign(s, c) else s.last, NextWiped(s, c))
  }

  // ---------------------------------------------------------------- what every cycle keeps

  /** ZTOPC reads back as the campaign's capability at the progress pointer, tagged until all is done. */
  predicate ReadsBack(s: System, k: Campaign) {
    && k.base <= s.z.ptrw <= k.top < WORDS && 4 * k.top <= k.capTop
    && Encodes(s.z.rcap, 4 * s.z.ptrw, 4 * k.base, k.capTop)
    && ExpandPerms(s.z.rcap.cperms).sd
    && (s.z.rcap.valid <==> s.z.ptrw > k.base)
  }

  predicate Tracks(s: System, k: Campaign) {
    s.z.basew == k.base && (Running(s.z) ==> s.z.ptrw > k.base && s.z.ptrwNxt == s.z.ptrw - 1)
  }

  /** Exactly the words from the progress pointer up are zeroed. */
  ghost predicate WipedFrom(s: System, k: Campaign) {
    forall w: nat :: w in s.wiped <==> s.z.ptrw <= w < k.top
  }

  /** The store that is pending, and all stores made, are inside the bounds last given. */
  ghost predicate Confined(s: System) {
    && (s.campaign.Some? ==> s.last == s.campaign)
    && (Running(s.z) ==> s.last.Some? && s.z.basew == s.last.value.base <= s.z.ptrwNxt < s.last.value.top)
    && (s.last.Some? ==> 4 * s.last.value.top <= s.last.value.capTop)
    && (forall w: nat | w in s.wiped :: s.last.Some? && s.last.value.base <= w < s.last.value.top)
  }

  ghost predicate Tracked(s: System) {
    && s.z.ptrwNxt < WORDS && s.z.ptrw < WORDS
    && (s.campaign.Some? ==>
          ReadsBack(s, s.campaign.value) && Tracks(s, s.campaign.value) && WipedFrom(s, s.campaign.value))
  }

  ghost predicate Inv(s: System) { Tracked(s) && Confined(s) }

  /** Moving the capability down inside its window keeps its bounds. */
  lemma MovedEncodes(c: RegCap, p: nat, base: nat, top: nat, finished: bool)
    requires p + 1 < WORDS && base <= 4 * p && Encodes(c, 4 * (p + 1), base, top)
    ensures Encodes(MovedCap(c, p, finished), 4 * p, base, top)
  {
    hide Low, Shr, Scale, UpdateTempFields;
  }

  lemma Grant(s: System, c: Cycle)
    requires Tracked(s) && Legal(s, c) && s.campaign.Some? && c.write.None? && c.reqDone
    ensures Tracked(Step(s, c)) && Step(s, c).z.ptrw == s.z.ptrw - 1
  {
    hide Encodes, MovedCap;
    var k := s.campaign.value;
    MovedEncodes(s.z.rcap, s.z.ptrwNxt, 4 * k.base, k.capTop, Done(s.z));
    MovedFlags(s.z.rcap, s.z.ptrwNxt, Done(s.z));
  }

  lemma MovedFlags(c: RegCap, p: nat, finished: bool)
    requires p < WORDS
    ensures MovedCap(c, p, finished).valid == (c.valid && !finished)
    ensures MovedCap(c, p, finished).cperms == c.cperms
  {
  }

  lemma Quiet(s: System, c: Cycle)
    requires Tracked(s) && Legal(s, c) && s.campaign.Some? && c.write.None? && !c.reqDone
    ensures Tracked(Step(s, c))
  {
    hide Encodes, MovedCap;
  }

  /** A starting write, new or resumed. */
  lemma Start(s: System, c: Cycle)
    requires Tracked(s) && Legal(s, c) && c.write.Some? && Starts(ToInputs(c))
    ensures Tracked(Step(s, c))
  {
    hide Low, Shr, Scale, UpdateTempFields, GetBound33, MovedCap, Encodes;
    var w := c.write.value;
    assert !Running(s.z);
    assert Encodes(w.cap, w.addr, Base32(w.cap, w.addr), Top33(w.cap, w.addr));
    var k := Step(s, c).campaign.value;
    if s.campaign.Some? && WritesBack(s, c) {
      Readback(s);
    }
  }

  /** What ZTOPC reads decodes to the campaign's bounds. */
  lemma Readback(s: System)
    requires Tracked(s) && s.campaign.Some?
    ensures
      var k := s.campaign.value;
      && WellFormed(s.z.rcap, 4 * s.z.ptrw)
      && Base32(s.z.rcap, 4 * s.z.ptrw) == 4 * k.base && Top33(s.z.rcap, 4 * s.z.ptrw) == k.capTop
  {
    hide Low, Shr, Scale, UpdateTempFields, GetBound33, MovedCap, Encodes;
    Decode(s.z.rcap, 4 * s.z.ptrw, 4 * s.campaign.value.base, s.campaign.value.capTop);
  }

  lemma StepTracked(s: System, c: Cycle)
    requires Tracked(s) && Legal(s, c)
    ensures Tracked(Step(s, c))
  {
    hide ReadsBack, Tracks, WipedFrom, IsNull, CapGood, Encodes, WellFormed, MovedCap, WrittenCap;
    if c.write.Some? && Starts(ToInputs(c)) {
      Start(s, c);
    } else if s.campaign.Some? && c.write.None? {
      if c.reqDone {
        Grant(s, c);
      } else {
        Quiet(s, c);
      }
    }
  }

  lemma StartConfined(s: System, c: Cycle)
    requires Inv(s) && Legal(s, c) && Starts(ToInputs(c))
    ensures Confined(Step(s, c))
  {
    hide WipedFrom, Encodes, WellFormed, MovedCap, WrittenCap, GetBound33, Base32, Top33, ExpandPerms;
    if s.campaign.Some? && WritesBack(s, c) {
      Readback(s);
    }
  }

  lemma StepConfined(s: System, c: Cycle)
    requires Inv(s) && Legal(s, c)
    ensures Confined(Step(s, c))
  {
    hide Tracked, IsNull, CapGood, WellFormed, MovedCap, WrittenCap, Base32, Top33;
    if Starts(ToInputs(c)) {
      StartConfined(s, c);
    } else {
      hide Starts;
    }
  }

  lemma StepInv(s: System, c: Cycle)
    requires Inv(s) && Legal(s, c)
    ensures Inv(Step(s, c))
  {
    hide Tracked, Confined, Legal, Step;
    StepTracked(s, c);
    StepConfined(s, c);
  }

  // ---------------------------------------------------------------- whole runs

  ghost predicate LegalRun(s: System, cycles: seq<Cycle>)
    decreases |cycles|
  {
    cycles == [] || (s.z.ptrwNxt < WORDS && Legal(s, cycles[0]) && LegalRun(Step(s, cycles[0]), cycles[1..]))
  }

  ghost function Run(s: System, cycles: seq<Cycle>): System
    requires LegalRun(s, cycles)
    decreases |cycles|
  {
    if cycles == [] then s else Run(Step(s, cycles[0]), cycles[1..])
  }

  predicate Reset(s: System) {
    s.z == State(Idle, 0, 0, 0, NULL_REG_CAP, false) && s.campaign.None? && s.last.None? && s.wiped == {}
  }

  lemma {:induction false} RunInv(s: System, cycles: seq<Cycle>)
    requires Inv(s) && LegalRun(s, cycles)
    ensures Inv(Run(s, cycles))
    decreases |cycles|
  {
    hide Inv, Legal, Step;
    if cycles != [] {
      StepInv(s, cycles[0]);
      RunInv(Step(s, cycles[0]), cycles[1..]);
    }
  }

  /**
    After any number of interruptions and write-backs: the words zeroed so far are exactly those
    from the progress pointer up; the tag is gone exactly when that is the whole stack; and what
    ZTOPC reads still has the campaign's bounds.
   */
  lemma ResumableZeroing(s: System, cycles: seq<Cycle>)
    requires Reset(s) && LegalRun(s, cycles) && Run(s, cycles).campaign.Some?
    ensures
      var e := Run(s, cycles);
      var k := e.campaign.value;
      && WipedFrom(e, k)
      && (!e.z.rcap.valid <==> e.z.ptrw == k.base)
      && (!e.z.rcap.valid <==> forall w: nat :: w in e.wiped <==> k.base <= w < k.top)
      && 4 * e.z.ptrw < 0x1_0000_0000
      && Base32(e.z.rcap, 4 * e.z.ptrw) == 4 * k.base && Top33(e.z.rcap, 4 * e.z.ptrw) == k.capTop
  {
    hide Encodes, Run, LegalRun, Base32, Top33;
    RunInv(s, cycles);
    var e := Run(s, cycles);
    Readback(e);
    if e.z.ptrw > e.campaign.value.base {
      assert e.campaign.value.base !in e.wiped;
    }
  }

  /**
    The engine stores nowhere but inside the bounds it was last given: what it has stored, and the
    store it asks for while it runs, pending after a NULL write included.
   */
  lemma StoresInside(s: System, cycles: seq<Cycle>, w: nat)
    requires Reset(s) && LegalRun(s, cycles)
    requires w in Run(s, cycles).wiped || (Running(Run(s, cycles).z) && w == Run(s, cycles).z.ptrwNxt)
    ensures
      var e := Run(s, cycles);
      e.last.Some? && e.last.value.base <= w < e.last.value.top && 4 * w + 4 <= e.last.value.capTop
  {
    hide Encodes, Run, LegalRun;
    RunInv(s, cycles);
  }

  /** A write-back of what ZTOPC reads starts the engine again exactly when words are left to zero. */
  lemma WriteBackResumes(s: System, c: Cycle)
    requires Inv(s) && Legal(s, c) && s.campaign.Some? && s.z.fsm.Idle? && WritesBack(s, c)
    ensures Starts(ToInputs(c)) <==> s.z.ptrw > s.campaign.value.base
    ensures Starts(ToInputs(c)) ==>
      Step(s, c).campaign == s.campaign && Step(s, c).wiped == s.wiped && Running(Step(s, c).z)
  {
    hide Low, Shr, Scale, UpdateTempFields, GetBound33, MovedCap, Encodes;
    Readback(s);
  }

  /** The core's accesses never fall among the words still to be zeroed while the engine runs. */
  lemma AccessesStayOut(s: System, c: Cycle)
    requires Inv(s) && Legal(s, c) && s.campaign.Some? && Running(s.z) && c.access.Some?
    ensures !(s.campaign.value.base <= c.access.value / 4 < s.z.ptrw)
  {
    hide ReadsBack, WipedFrom, IsNull;
  }

  /** The word after the one at addr, as the core's address increments. */
  function SecondWord(addr: U32): nat { (addr / 4 + 1) % WORDS }

  /** Both words of the access are to be kept out of [base, progress). */
  predicate InArea(z: State, w: nat) { z.basew <= w < z.ptrw }

  /**
    Exactly when the second word of an access that was let through falls among the words still to be
    zeroed: the access starts in the last word below a base that is 16-byte aligned.
   */
  lemma SecondWordExact(z: State, addr: U32)
    requires Running(z) && !Stalls(z, addr) && z.ptrw < WORDS
    ensures
      InArea(z, SecondWord(addr))
      <==> z.basew % 4 == 0 && SecondWord(addr) == z.basew && z.basew < z.ptrw
  {
    var a := addr / 4;
    assert a < WORDS && addr / 16 == a / 4 && 4 * z.basew / 16 == z.basew / 4;
    assert 4 * (z.basew / 4) <= z.basew && 4 * (a / 4) <= a <= 4 * (a / 4) + 3;
    if a + 1 == WORDS {
    } else {
      assert SecondWord(addr) == a + 1;
    }
  }

  /**
    Exactly when the range test, which rounds the base down to a 16-byte line, is 0 for the first word
    and 1 for the second: the second is the first word of the base's line, with words left to zero.
   */
  lemma SecondWordInRange(z: State, addr: U32)
    requires Running(z) && !Stalls(z, addr) && z.ptrw < WORDS
    ensures Stalls(z, 4 * SecondWord(addr)) <==> SecondWord(addr) == z.basew / 4 * 4 && SecondWord(addr) < z.ptrw
  {
    var a, w := addr / 4, SecondWord(addr);
    assert a < WORDS && addr / 16 == a / 4 && 4 * z.basew / 16 == z.basew / 4 && 4 * w / 16 == w / 4 && 4 * w / 4 == w;
    if a + 1 == WORDS {
      assert w == 0;
    } else {
      assert w == a + 1;
    }
  }

  /** An 8-byte aligned access never meets either condition. */
  lemma SecondWordAligned(z: State, addr: U32)
    requires Running(z) && !Stalls(z, addr) && z.ptrw < WORDS && addr % 8 == 0
    ensures !InArea(z, SecondWord(addr)) && !Stalls(z, 4 * SecondWord(addr))
  {
    var q := addr / 8;
    assert addr / 4 == 2 * q && SecondWord(addr) == 2 * q + 1;
    SecondWordExact(z, addr);
    SecondWordInRange(z, addr);
  }

  /** Bytes 16 to 32, with all data permissions. */
  const STACK_CAP := RegCap(true, 0, false, 0, 32, 16, 0, CPerms(true, true, true, true, true, true), false)

  const FIRST: System := System(State(Idle, 0, 0, 0, NULL_REG_CAP, false), None, None, {})

  /** ZTOPC is written with base 16 and address 32; then the core accesses address 14. */
  const START_STACK := Cycle(Some(Written(STACK_CAP, 32)), false, false, false, None)
  const ACCESS_14 := Cycle(None, false, false, false, Some(14))

  lemma StackCapDecodes()
    ensures WellFormed(STACK_CAP, 32) && Base32(STACK_CAP, 32) == 16 && Top33(STACK_CAP, 32) == 32
  {
    hide And, Or, GetBound33;
    assert Shr(32, 0) == 32 && Shr(16, 0) == 16 && Low(32, 0) == 0 && Low(16, 0) == 0 && Scale(511, 0) == 511;
    assert Scale(512, 0) == 512;
    Decode(STACK_CAP, 32, 16, 32);
  }

  lemma StackExpands()
    ensures
      var f := Reg2FullCap(STACK_CAP, 32);
      f.valid && f.base32 == 16 && f.top33 == 32 && f.perms.sd && Full2RegCap(f) == STACK_CAP
  {
    hide Base32, Top33, WellFormed;
    StackCapDecodes();
  }

  /** A starting write in IDLE. */
  lemma NextStarted(z: State, i: Inputs)
    requires z.fsm.Idle? && z.ptrwNxt < WORDS && i.write.Some? && Starts(i)
    ensures
      var w := i.write.value;
      Next(z, i) == State(Active, Word(w.wdata), Less(Word(w.wdata)), Word(w.wfcap.base32), WrittenCap(w), false)
  {
    hide Starts, MovedCap, WrittenCap, Less, Word;
  }

  lemma StackStarting(f: FullCap)
    requires f.valid && f.base32 == 16 && f.top33 == 32 && f.perms.sd && Full2RegCap(f) == STACK_CAP
    ensures
      var i := Inputs(Some(ZtopWrite(32, f)), false, false, false);
      Starts(i) && WrittenCap(i.write.value) == STACK_CAP
  {
    hide Full2RegCap;
  }

  lemma StackLegal()
    ensures Reset(FIRST) && Legal(FIRST, START_STACK)
  {
    hide Base32, Top33, WellFormed, Reg2FullCap, IsNull;
    StackCapDecodes();
  }

  lemma StackStarts()
    ensures Reset(FIRST) && Legal(FIRST, START_STACK)
    ensures Step(FIRST, START_STACK).z == State(Active, 8, 7, 4, STACK_CAP, false)
  {
    hide Base32, Top33, WellFormed, Reg2FullCap, Full2RegCap, MovedCap, Next, Starts, WrittenCap, Legal, Reset;
    StackLegal();
    StackExpands();
    StackStarting(Reg2FullCap(STACK_CAP, 32));
    NextStarted(FIRST.z, ToInputs(START_STACK));
  }

  /** The zeroiser at address 32 of a stack based at 16 lets an access to 14 through. */
  lemma Lets14Through(s: System)
    requires s.z == State(Active, 8, 7, 4, STACK_CAP, false)
    ensures Legal(s, ACCESS_14) && InArea(s.z, SecondWord(14))
  {
    hide Base32, Top33, WellFormed, Reg2FullCap, IsNull;
  }

  /** A run of legal cycles, one at a time. */
  lemma RunOn(s: System, c: Cycle, rest: seq<Cycle>)
    requires s.z.ptrwNxt < WORDS && Legal(s, c) && LegalRun(Step(s, c), rest)
    ensures LegalRun(s, [c] + rest) && Run(s, [c] + rest) == Run(Step(s, c), rest)
  {
    hide Legal, Step;
    assert ([c] + rest)[0] == c && ([c] + rest)[1..] == rest;
  }

  /** A reachable case: a cycle after reset a misaligned access is let through, and its second word is to be zeroed. */
  lemma SecondWordOfMisaligned()
    ensures Reset(FIRST) && LegalRun(FIRST, [START_STACK] + ([ACCESS_14] + []))
    ensures
      var s := Step(FIRST, START_STACK);
      Running(s.z) && Legal(s, ACCESS_14) && InArea(s.z, SecondWord(ACCESS_14.access.value))
  {
    hide Step, Run, LegalRun, Reset, Legal, SecondWord, InArea;
    StackStarts();
    var s1 := Step(FIRST, START_STACK);
    Lets14Through(s1);
    Ends(Step(s1, ACCESS_14));
    RunOn(s1, ACCESS_14, []);
    RunOn(FIRST, START_STACK, [ACCESS_14] + []);
  }

  lemma Ends(s: System)
    ensures LegalRun(s, []) && Run(s, []) == s
  {
  }

  /** Every grant zeroes one more word; without a stop the engine runs to the base. */
  lemma GrantMovesDown(s: System, c: Cycle)
    requires Inv(s) && Legal(s, c) && s.campaign.Some? && c.write.None? && c.reqDone
    ensures
      var s' := Step(s, c);
      && s'.z.ptrw == s.z.ptrw - 1
      && (s.z.fsm.Active? && !c.unmaskedIntr ==> (Running(s'.z) <==> s'.z.ptrw > s.campaign.value.base))
  {
    hide Encodes, MovedCap;
  }

  /** A stop request is obeyed: at once if a store is granted in that cycle, else with the next grant. */
  lemma StopObeyed(s: System, c: Cycle)
    requires s.z.ptrwNxt < WORDS && Running(s.z)
    ensures s.z.fsm.Abort? && c.reqDone ==> !Running(Step(s, c).z)
    ensures s.z.fsm.Active? && Stops(ToInputs(c)) ==> Step(s, c).z.fsm == if c.reqDone then Idle else Abort
  {
    hide MovedCap, WrittenCap, IsNull;
  }

  /** Writing the NULL register is writing NULL. */
  lemma NullIsNull()
    ensures IsNull(ZtopWrite(0, Reg2FullCap(NULL_REG_CAP, 0)))
  {
    hide And, Or, GetBound33;
    assert Shr(0, 0) == 0 && Low(0, 0) == 0 && Scale(511, 0) == 511 && Scale(512, 0) == 512;
    Decode(NULL_REG_CAP, 0, 0, 0);
  }

  lemma NullMoved(p: nat, finished: bool)
    requires p < WORDS
    ensures MovedCap(NULL_REG_CAP, p, finished) == NULL_REG_CAP
  {
    hide Mid9;
  }

  /** What a NULL write leaves while its stop is pending, and after. */
  lemma {:induction false} NullSettles(s: System, rest: seq<Cycle>)
    requires s.z.ptrwNxt < WORDS && !s.z.fsm.Active? && s.z.rcap == NULL_REG_CAP && s.z.ptrw == 0
    requires LegalRun(s, rest) && forall k | 0 <= k < |rest| :: rest[k].write.None?
    ensures
      var e := Run(s, rest).z;
      e.fsm.Idle? ==> e.rcap == NULL_REG_CAP && e.ptrw == if s.z.fsm.Idle? then 0 else s.z.ptrwNxt
    decreases |rest|
  {
    hide MovedCap, WrittenCap, IsNull, CapGood, UpdateTempFields;
    NullMoved(s.z.ptrwNxt, Done(s.z));
    if rest != [] {
      var s1 := Step(s, rest[0]);
      if s1.z.ptrw == 0 && s1.z.fsm == s.z.fsm {
        NullSettles(s1, rest[1..]);
      } else {
        IdleStays(s1, rest[1..]);
      }
    }
  }

  /** Nothing happens to ZTOPC in IDLE without a write. */
  lemma {:induction false} IdleStays(s: System, rest: seq<Cycle>)
    requires s.z.ptrwNxt < WORDS && s.z.fsm.Idle? && LegalRun(s, rest)
    requires forall k | 0 <= k < |rest| :: rest[k].write.None?
    ensures Run(s, rest).z.rcap == s.z.rcap && Run(s, rest).z.ptrw == s.z.ptrw
    decreases |rest|
  {
    hide MovedCap, WrittenCap, IsNull, CapGood, UpdateTempFields;
    if rest != [] {
      IdleStays(Step(s, rest[0]), rest[1..]);
    }
  }

  /**
    A NULL written while the engine runs, once the engine has stopped: ZTOPC reads as the NULL
    capability, and at address 0 exactly when a store was granted in the cycle of the write or the
    store that was pending was itself the one to address 0. Otherwise that store puts its own address
    back.
   */
  lemma NullReadback(s: System, stop: Cycle, rest: seq<Cycle>)
    requires Running(s.z) && LegalRun(s, [stop] + rest)
    requires stop.write.Some? && IsNull(ToInputs(stop).write.value)
    requires forall k | 0 <= k < |rest| :: rest[k].write.None?
    requires Run(s, [stop] + rest).z.fsm.Idle?
    ensures
      var e := Run(s, [stop] + rest).z;
      && e.rcap == NULL_REG_CAP
      && e.ptrw == (if stop.reqDone then 0 else s.z.ptrwNxt)
      && (e.ptrw == 0 && e.rcap == NULL_REG_CAP <==> stop.reqDone || s.z.ptrwNxt == 0)
  {
    hide MovedCap, UpdateTempFields;
    var cs := [stop] + rest;
    assert cs[0] == stop && cs[1..] == rest;
    var s1 := Step(s, stop);
    NullSettles(s1, rest);
  }

  const WRITE_NULL := Cycle(Some(Written(NULL_REG_CAP, 0)), false, false, false, None)
  const GRANT := Cycle(None, false, true, false, None)

  /** A reachable case: the engine started, NULL written before any grant, then one grant; ZTOPC reads address 28. */
  lemma NullNotReadBack()
    ensures LegalRun(FIRST, [START_STACK] + ([WRITE_NULL] + ([GRANT] + [])))
    ensures
      var e := Run(FIRST, [START_STACK] + ([WRITE_NULL] + ([GRANT] + []))).z;
      e.fsm.Idle? && 4 * e.ptrw == 28
  {
    hide Run, LegalRun, Reset, MovedCap, WrittenCap, Base32, Top33, WellFormed;
    StackStarts();
    NullIsNull();
    var s1 := Step(FIRST, START_STACK);
    assert s1.z == State(Active, 8, 7, 4, STACK_CAP, false);
    hide IsNull, CapGood;
    var s2 := Step(s1, WRITE_NULL);
    assert s2.z.fsm == Abort && s2.z.ptrwNxt == 7;
    var s3 := Step(s2, GRANT);
    Ends(s3);
    RunOn(s2, GRANT, []);
    RunOn(s1, WRITE_NULL, [GRANT] + []);
    RunOn(FIRST, START_STACK, [WRITE_NULL] + ([GRANT] + []));
  }

  // ---------------------------------------------------------------- starting, stalling and errors

  /**
    Exactly the accesses held back while the engine runs: those between the 16-byte line of the base
    and the progress pointer.
   */
  lemma StallExact(z: State, addr: U32)
    ensures Stalls(z, addr) <==> !z.fsm.Idle? && z.basew / 4 * 16 <= addr < 4 * z.ptrw
  {
    assert 4 * z.basew / 16 == z.basew / 4;
  }

  /**
    A capability written to ZTOPC starts the engine exactly when it is tagged with SD, and there is a
    whole word between its base and its address, which may be its top but not above it.
   */
  lemma StartsExactly(c: Cycle)
    requires c.write.Some?
    ensures
      var w := c.write.value;
      Starts(ToInputs(c))
      <==>
      && w.cap.valid && ExpandPerms(w.cap.cperms).sd
      && Base32(w.cap, w.addr) / 4 < w.addr / 4 <= Top33(w.cap, w.addr) / 4
  {
    hide ExpandPerms, Base32, Top33;
  }

  /** A response error is recorded until the engine is started out of idle. */
  lemma ErrorStep(s: System, c: Cycle)
    requires s.z.ptrwNxt < WORDS
    ensures
      Step(s, c).z.err <==>
        !(s.z.fsm.Idle? && c.write.Some? && Starts(ToInputs(c))) && (s.z.err || c.respErr)
  {
    hide MovedCap, WrittenCap, IsNull, CapGood, Word, Less;
  }

  /** No cycle of the run starts the engine. */
  ghost predicate NoStart(s: System, cycles: seq<Cycle>)
    requires LegalRun(s, cycles)
    decreases |cycles|
  {
    cycles == [] || (!(s.z.fsm.Idle? && Starts(ToInputs(cycles[0]))) && NoStart(Step(s, cycles[0]), cycles[1..]))
  }

  /** Between starts the error output is set exactly when it was, or some response was an error. */
  lemma {:induction false} ErrorExact(s: System, cycles: seq<Cycle>)
    requires LegalRun(s, cycles) && NoStart(s, cycles)
    ensures Run(s, cycles).z.err <==> s.z.err || exists k :: 0 <= k < |cycles| && cycles[k].respErr
    decreases |cycles|
  {
    hide Legal, Step, Starts;
    if cycles != [] {
      var s' := Step(s, cycles[0]);
      ErrorStep(s, cycles[0]);
      ErrorExact(s', cycles[1..]);
      if k :| 0 <= k < |cycles| && cycles[k].respErr {
        assert k > 0 ==> cycles[1..][k - 1].respErr;
      }
    }
  }
}
