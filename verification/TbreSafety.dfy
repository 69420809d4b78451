/**
  The revocation engine beside a CPU on one tagged memory. A monitor that sees only the bus keeps
  the memory as the CPU alone would have left it, and one record per granule the engine has loaded.
 */
module TbreSafety {
  import opened Options
  import opened TbreModel

  const MEMORY: nat := 0x100 * COUNTER

  /** The engine's access under way, if any; a load carries what memory held when it was granted. */
  datatype Bus = Free | LoadPending(value: Granule) | StorePending

  /**
    A CPU store, of which the engine snoops the address of the last part only. `written` is None when a
    check stopped it. A misaligned store that crosses into the snooped granule has written `first` to
    the granule before; no access of the engine is granted between the two parts.
   */
  datatype CpuStore = CpuStore(granule: nat, written: Option<Granule>, first: Option<Granule>)

  /**
    hit: a CPU store was snooped before the tag was cleared; missed: one was performed unsnooped before
    then; overwritten: one was performed after.
   */
  datatype Visit = Visit(addr: nat, value: Granule, err: bool, shadow: bool,
                         hit: bool, missed: bool, cleared: bool, overwritten: bool)

  datatype Registers = Registers(startHi: nat, start: nat, end: nat)

  datatype Cycle = Cycle(go: bool, addWait: bool, regs: Registers, granted: bool,
                         response: Option<Response>, lookup: Option<bool>, store: Option<CpuStore>)

  datatype System = System(w: Walk, bus: Bus, regs: Registers, mem: seq<Granule>, cpu: seq<Granule>,
                           visits: seq<Visit>, undecided: nat, revoked: map<nat, nat>)

  function ToInputs(c: Cycle): Inputs {
    Inputs(c.go, c.addWait, c.regs.startHi, c.regs.start, c.regs.end, c.granted, c.response, c.lookup,
           if c.store.Some? then Some(c.store.value.granule) else None)
  }

  predicate Fits(r: Registers) { r.startHi < 0x100 && r.start < COUNTER && r.end < COUNTER }

  /** The environment: exclusive grants of asserted requests, answers in order, registers held while walking. */
  predicate Legal(s: System, c: Cycle) {
    && Fits(c.regs)
    && (!s.w.phase.Idle? ==> c.regs == s.regs)
    && (c.granted ==> Requesting(s.w, ToInputs(c)) && c.store.None?)
    && (c.response.Some? ==> !s.bus.Free? && (c.response.value.isWrite <==> s.bus.StorePending?))
    && (c.response.Some? && s.bus.LoadPending? && !c.response.value.err ==> c.response.value.rdata == s.bus.value)
    && (c.lookup.Some? ==> s.w.looked < s.w.answered)
    && (c.store.Some? ==> c.store.value.granule < MEMORY)
  }

  function At(s: System, addr: nat): nat { GranuleAt(s.regs.startHi, addr) }

  function Write(m: seq<Granule>, g: nat, v: Granule): (r: seq<Granule>)
    ensures |r| == |m|
  {
    if g < |m| then m[g := v] else m
  }

  function Read(m: seq<Granule>, g: nat): Granule { if g < |m| then m[g] else Granule(false, 0) }

  /** The granule below, at which a store that crosses into g begins. */
  function Before(g: nat): nat { if g == 0 then MEMORY - 1 else g - 1 }

  /** The CPU writes granule g and the engine does not see it. */
  predicate Unsnooped(c: Cycle, g: nat) {
    c.store.Some? && c.store.value.first.Some? && g == Before(c.store.value.granule)
  }

  predicate Snooped(c: Cycle, g: nat) { c.store.Some? && c.store.value.granule == g }

  predicate Writes(c: Cycle, g: nat) {
    Unsnooped(c, g) || (Snooped(c, g) && c.store.value.written.Some?)
  }

  /** What the CPU leaves in granule g. */
  function Stored(c: Cycle, g: nat): Granule
    requires Writes(c, g)
  {
    if Snooped(c, g) && c.store.value.written.Some? then c.store.value.written.value else c.store.value.first.value
  }

  function CpuWrite(m: seq<Granule>, c: Cycle): (r: seq<Granule>)
    ensures |r| == |m|
  {
    if c.store.None? then m
    else
      var st := c.store.value;
      var m1 := if st.first.Some? then Write(m, Before(st.granule), st.first.value) else m;
      if st.written.Some? then Write(m1, st.granule, st.written.value) else m1
  }

  function Rewritten(c: Cycle): set<nat> {
    if c.store.None? then {}
    else (if c.store.value.first.Some? then {Before(c.store.value.granule)} else {})
         + if c.store.value.written.Some? then {c.store.value.granule} else {}
  }

  /** The engine's store on the bus: no tag, and the data in the FIFO head. */
  function EngineWrite(s: System, c: Cycle): (r: seq<Granule>)
    requires Shaped(s.w)
    ensures |r| == |s.mem|
  {
    if StoreGrant(s.w, ToInputs(c)) && s.w.q[0].loaded.Some?
    then Write(s.mem, At(s, s.w.q[0].addr), Granule(false, s.w.q[0].loaded.value.granule.data))
    else s.mem
  }

  function NextVisit(s: System, c: Cycle, k: nat): Visit
    requires k < |s.visits|
  {
    var i := ToInputs(c);
    var v := s.visits[k];
    var v1 := if Answers(i) && k == s.undecided + s.w.answered then v.(err := i.response.value.err) else v;
    var v2 := if i.lookup.Some? && k == s.undecided + s.w.looked then v1.(shadow := i.lookup.value) else v1;
    var v3 := if StoreGrant(s.w, i) && k == s.undecided then v2.(cleared := true) else v2;
    if v.cleared then v3.(overwritten := v.overwritten || Writes(c, At(s, v.addr)))
    else v3.(hit := v.hit || Snooped(c, At(s, v.addr)), missed := v.missed || Unsnooped(c, At(s, v.addr)))
  }

  function NextVisits(s: System, c: Cycle): seq<Visit> {
    seq(|s.visits|, k requires 0 <= k < |s.visits| => NextVisit(s, c, k))
    + if LoadGrant(s.w, ToInputs(c))
      then [Visit(s.w.cur, Read(s.mem, At(s, s.w.cur)), false, false, false, false, false, false)] else []
  }

  function NextRevoked(s: System, c: Cycle): map<nat, nat>
    requires Shaped(s.w)
  {
    if StoreGrant(s.w, ToInputs(c)) then s.revoked[At(s, s.w.q[0].addr) := s.undecided]
    else s.revoked - Rewritten(c)
  }

  function NextBus(s: System, c: Cycle): Bus {
    if LoadGrant(s.w, ToInputs(c)) then LoadPending(Read(s.mem, At(s, s.w.cur)))
    else if StoreGrant(s.w, ToInputs(c)) then StorePending
    else if c.response.Some? then Free
    else s.bus
  }

  /** One clock cycle of engine, memory and monitor. A walk starts the records afresh. */
  function Step(s: System, c: Cycle): System
    requires Shaped(s.w)
  {
    var i := ToInputs(c);
    var w' := Next(s.w, i);
    var mem' := CpuWrite(EngineWrite(s, c), c);
    if s.w.phase.Idle? && c.go then
      System(w', NextBus(s, c), c.regs, mem', mem', [], 0, map[])
    else
      System(w', NextBus(s, c), s.regs, mem', CpuWrite(s.cpu, c),
             NextVisits(s, c), s.undecided + Popped(s.w, i), NextRevoked(s, c))
  }

  // ---------------------------------------------------------------- what every cycle keeps

  /** A queue entry mirrors its visit. */
  predicate Mirrors(e: Entry, v: Visit, answered: bool, looked: bool) {
    && e.addr == v.addr && v.addr < COUNTER && e.valid == !v.hit && !v.cleared && !v.overwritten
    && (answered ==> e.loaded.Some? && e.loaded.value.err == v.err
                     && (!v.err ==> e.loaded.value.granule == v.value))
    && (looked ==> e.shadow == Some(v.shadow))
  }

  ghost predicate Tracked(s: System) {
    && |s.visits| == s.undecided + |s.w.q|
    && (forall k | 0 <= k < |s.w.q| ::
          Mirrors(s.w.q[k], s.visits[s.undecided + k], k < s.w.answered, k < s.w.looked))
  }

  /** The granule is due to lose its tag. */
  predicate Due(v: Visit) {
    v.value.tag && !v.err && v.shadow && !v.hit
  }

  ghost predicate Decided(s: System) {
    s.undecided <= |s.visits| && forall k | 0 <= k < s.undecided :: s.visits[k].cleared == Due(s.visits[k])
  }

  predicate OnBus(s: System) {
    && Fits(s.regs)
    && (s.w.waiting <==> !s.bus.Free?)
    && (s.bus.LoadPending? <==> s.w.answered < |s.w.q|)
    && (s.bus.LoadPending? ==> |s.visits| > 0 && s.bus.value == s.visits[|s.visits| - 1].value)
  }

  /** What the engine would write back is what is there, but for updates it missed. */
  ghost predicate Fresh(s: System) {
    && |s.mem| == MEMORY && |s.cpu| == MEMORY && s.undecided <= |s.visits|
    && (forall k | s.undecided <= k < |s.visits| ::
          At(s, s.visits[k].addr) < MEMORY
          && (s.visits[k].hit || s.visits[k].missed
              || s.mem[At(s, s.visits[k].addr)].data == s.visits[k].value.data))
  }

  /** The visit that last cleared g's tag had missed an update of g. */
  predicate Stale(s: System, g: nat) {
    g in s.revoked && s.revoked[g] < |s.visits| && s.visits[s.revoked[g]].missed
  }

  /** The data of granule g: the CPU's, unless such a visit wrote its own back over it. */
  function DataAt(s: System, g: nat): nat
    requires g < |s.cpu|
  {
    if Stale(s, g) then s.visits[s.revoked[g]].value.data else s.cpu[g].data
  }

  /** Memory is the CPU's own memory, less the tags in `revoked` and the data written back over. */
  ghost predicate Agrees(s: System) {
    && |s.mem| == MEMORY && |s.cpu| == MEMORY
    && (forall g | 0 <= g < MEMORY :: s.mem[g] == Granule(s.cpu[g].tag && g !in s.revoked, DataAt(s, g)))
  }

  /** A granule whose tag is cleared loads untagged until a CPU store rewrites it. */
  ghost predicate LoadsUntagged(s: System) {
    forall k | s.undecided <= k < |s.visits| :: At(s, s.visits[k].addr) in s.revoked ==> !s.visits[k].value.tag
  }

  /** `revoked` names the visit that cleared a granule's tag, as long as no CPU store has rewritten the granule. */
  ghost predicate Accounted(s: System) {
    && (forall g | g in s.revoked :: s.revoked[g] < |s.visits| && At(s, s.visits[s.revoked[g]].addr) == g
                                     && s.visits[s.revoked[g]].cleared && !s.visits[s.revoked[g]].overwritten)
    && (forall k | 0 <= k < |s.visits| && s.visits[k].cleared && !s.visits[k].overwritten ::
          At(s, s.visits[k].addr) in s.revoked && s.revoked[At(s, s.visits[k].addr)] == k)
  }

  /** How many granules a walk visits: the counter wraps when it starts at its last value. */
  function Total(r: Registers): nat {
    if r.start == COUNTER - 1 then r.end + 2 else if r.end > r.start then r.end - r.start + 1 else 1
  }

  function Nth(r: Registers, k: nat): (addr: nat)
    ensures addr < COUNTER
  {
    (r.start + k) % COUNTER
  }

  /** Loads go out in ascending order from the start; only an end register of all ones never ends. */
  ghost predicate InOrder(s: System) {
    && (forall k | 0 <= k < |s.visits| :: s.visits[k].addr == Nth(s.regs, k))
    && (s.w.phase.Loading? ==> s.w.cur == Nth(s.regs, |s.visits|))
    && (s.regs.end < COUNTER - 1 ==>
          && (s.w.phase.Loading? ==> |s.visits| < Total(s.regs))
          && (s.w.phase.Draining? ==> |s.visits| == Total(s.regs))
          && (s.w.phase.Idle? && |s.visits| > 0 ==> |s.visits| == Total(s.regs)))
  }

  ghost predicate Inv(s: System) {
    && Shaped(s.w) && OnBus(s) && Tracked(s) && Decided(s) && Fresh(s) && Agrees(s) && Accounted(s)
    && LoadsUntagged(s) && InOrder(s)
  }

  lemma LegalAllowed(s: System, c: Cycle)
    requires Shaped(s.w) && OnBus(s) && Legal(s, c)
    ensures Allowed(s.w, ToInputs(c))
  {
    hide Requesting, Filled;
  }

  predicate Starts(s: System, c: Cycle) { s.w.phase.Idle? && c.go }

  lemma StepOnBus(s: System, c: Cycle)
    requires Inv(s) && Legal(s, c)
    ensures OnBus(Step(s, c))
  {
    hide NextQueue, Filled, StoreWanted, Tracked, Decided, Fresh, Agrees, Accounted, InOrder, NextVisit;
    hide NextRevoked;
    hide CpuWrite, EngineWrite, NextPhase, NextSched, Revokes;
    LegalAllowed(s, c);
    NextSize(s.w, ToInputs(c));
    var s' := Step(s, c);
    if s'.bus.LoadPending? && !LoadGrant(s.w, ToInputs(c)) {
      assert |s.visits| > 0;
      VisitKeeps(s, c, |s.visits| - 1);
    }
  }

  lemma VisitKeeps(s: System, c: Cycle, k: nat)
    requires k < |s.visits|
    ensures NextVisit(s, c, k).addr == s.visits[k].addr && NextVisit(s, c, k).value == s.visits[k].value
  {
    hide At, Snooped, Unsnooped, Writes, StoreGrant, Answers;
  }

  lemma VisitsAt(s: System, c: Cycle, k: nat)
    requires k < |NextVisits(s, c)|
    ensures k < |s.visits| ==> NextVisits(s, c)[k] == NextVisit(s, c, k)
    ensures k >= |s.visits| ==>
      k == |s.visits| && LoadGrant(s.w, ToInputs(c))
      && NextVisits(s, c)[k] == Visit(s.w.cur, Read(s.mem, At(s, s.w.cur)), false, false, false, false, false, false)
  {
    hide NextVisit;
  }

  lemma StepTracked(s: System, c: Cycle)
    requires Inv(s) && Legal(s, c)
    ensures Tracked(Step(s, c))
  {
    hide NextQueue, NextVisits, NextEntry, NextVisit, NextPhase, NextSched, Filled, StoreWanted;
    hide Decided, Fresh, Agrees, Accounted, InOrder, NextRevoked, CpuWrite, EngineWrite;
    hide Requesting, Pops;
    LegalAllowed(s, c);
    var i := ToInputs(c);
    NextSize(s.w, i);
    VisitCount(s, c);
    var s' := Step(s, c);
    forall k | 0 <= k < |s'.w.q|
      ensures Mirrors(s'.w.q[k], s'.visits[s'.undecided + k], k < s'.w.answered, k < s'.w.looked)
    {
      NextAt(s.w, i, k);
      VisitsAt(s, c, s'.undecided + k);
      EntryStep(s, c, k);
    }
  }

  lemma VisitCount(s: System, c: Cycle)
    ensures |NextVisits(s, c)| == |s.visits| + if LoadGrant(s.w, ToInputs(c)) then 1 else 0
  {
  }

  lemma EntryStep(s: System, c: Cycle, k: nat)
    requires Inv(s) && Legal(s, c)
    requires k + Popped(s.w, ToInputs(c)) <= |s.w.q|
    ensures
      var i := ToInputs(c);
      var j := k + Popped(s.w, i);
      var answered := k < Next(s.w, i).answered;
      var looked := k < Next(s.w, i).looked;
      if j < |s.w.q| then
        Mirrors(NextEntry(s.w, i, j), NextVisit(s, c, s.undecided + j), answered, looked)
      else
        s.w.cur < COUNTER && !answered && !looked
  {
    hide NextQueue, NextPhase, NextSched, Filled, Decided, Fresh, Agrees, Accounted, InOrder, GranuleAt;
    LegalAllowed(s, c);
  }

  /** Pops happens exactly when the head's fate is settled: stored, or not due. */
  lemma HeadDecided(s: System, c: Cycle)
    requires Inv(s) && Legal(s, c) && Pops(s.w, ToInputs(c))
    ensures s.undecided < |s.visits|
    ensures NextVisit(s, c, s.undecided).cleared == Due(NextVisit(s, c, s.undecided))
  {
    hide NextQueue, NextPhase, NextSched, Decided, Fresh, Agrees, Accounted, InOrder, GranuleAt;
    LegalAllowed(s, c);
    assert Mirrors(s.w.q[0], s.visits[s.undecided], true, true);
  }

  /** A decided visit stays as decided. */
  lemma VisitDecided(s: System, c: Cycle, k: nat)
    requires Inv(s) && Legal(s, c) && k < s.undecided
    ensures NextVisit(s, c, k).cleared == Due(NextVisit(s, c, k))
  {
    hide NextQueue, NextPhase, NextSched, Tracked, Fresh, Agrees, Accounted, InOrder, GranuleAt, Filled;
  }

  /**
    The snoop port also sees stores that a capability check refused: such a store changes nothing
    in memory, yet the engine then leaves the granule's tag alone.
   */
  lemma RefusedStoreSparesTag(s: System, c: Cycle, k: nat)
    requires Inv(s) && Legal(s, c) && s.undecided <= k < |s.visits|
    requires c.store == Some(CpuStore(At(s, s.visits[k].addr), None, None))
    ensures !Due(NextVisit(s, c, k)) && Step(s, c).mem == s.mem
  {
    hide NextQueue, NextPhase, NextSched, Filled, StoreWanted, GranuleAt, Agrees, Accounted, InOrder;
    hide Decided, NextVisits;
    assert Mirrors(s.w.q[k - s.undecided], s.visits[k], k - s.undecided < s.w.answered, k - s.undecided < s.w.looked);
  }

  lemma StepDecided(s: System, c: Cycle)
    requires Inv(s) && Legal(s, c)
    ensures Decided(Step(s, c))
  {
    hide NextQueue, NextVisits, NextVisit, NextPhase, NextSched, Filled, Pops, StoreWanted, Due;
    hide Fresh, Agrees, Accounted, InOrder, NextRevoked, CpuWrite, EngineWrite, Requesting;
    hide Mirrors, OnBus;
    var i := ToInputs(c);
    var s' := Step(s, c);
    VisitCount(s, c);
    if Pops(s.w, i) {
      HeadDecided(s, c);
    }
    if !Starts(s, c) {
      forall k | 0 <= k < s'.undecided
        ensures s'.visits[k].cleared == Due(s'.visits[k])
      {
        VisitsAt(s, c, k);
        if k < s.undecided {
          VisitDecided(s, c, k);
        }
      }
    }
  }

  /**
    The engine's own store clears the head's tag. It leaves every word's data as it was, unless an
    update of the head went unsnooped.
   */
  lemma EngineWriteEffect(s: System, c: Cycle)
    requires Inv(s) && Legal(s, c)
    ensures
      var m := EngineWrite(s, c);
      if StoreGrant(s.w, ToInputs(c)) then
        && s.w.looked > 0 && s.undecided < |s.visits| && At(s, s.w.q[0].addr) < MEMORY
        && s.w.q[0].addr == s.visits[s.undecided].addr
        && (var g, v := At(s, s.w.q[0].addr), s.visits[s.undecided];
            && v.value.tag
            && m == s.mem[g := Granule(false, v.value.data)] && (!v.missed ==> v.value.data == s.mem[g].data))
      else m == s.mem
  {
    hide NextQueue, NextPhase, NextSched, Decided, Agrees, Accounted, InOrder, GranuleAt;
    LegalAllowed(s, c);
    if StoreGrant(s.w, ToInputs(c)) {
      assert Mirrors(s.w.q[0], s.visits[s.undecided], true, true);
    }
  }

  lemma CpuWriteAt(m: seq<Granule>, c: Cycle, g: nat)
    requires g < |m| == MEMORY
    ensures CpuWrite(m, c)[g] == if Writes(c, g) then Stored(c, g) else m[g]
    ensures g in Rewritten(c) <==> Writes(c, g)
  {
  }

  /** At most FIFO_SIZE visits are undecided, so no two of them are of one granule. */
  lemma UndecidedApart(s: System, k: nat)
    requires Inv(s) && s.undecided < k < |s.visits|
    ensures s.visits[k].addr != s.visits[s.undecided].addr
  {
    hide OnBus, Decided, Fresh, Agrees, Accounted, Filled, Mirrors;
    assert k - s.undecided < FIFO_SIZE;
  }

  lemma StepFresh(s: System, c: Cycle)
    requires Inv(s) && Legal(s, c)
    ensures Fresh(Step(s, c))
  {
    hide NextQueue, NextVisits, NextVisit, NextPhase, NextSched, Filled, Pops, StoreWanted, EngineWrite, GranuleAt;
    hide Agrees, Accounted, InOrder, NextRevoked, Requesting, Mirrors, OnBus, Decided;
    hide NextEntry, CpuWrite, Nth;
    var i := ToInputs(c);
    var s' := Step(s, c);
    VisitCount(s, c);
    LegalAllowed(s, c);
    NextSize(s.w, i);
    if !Starts(s, c) {
      forall k | s'.undecided <= k < |s'.visits|
        ensures At(s', s'.visits[k].addr) < MEMORY
        ensures
          var v := s'.visits[k];
          v.hit || v.missed || s'.mem[At(s', v.addr)].data == v.value.data
      {
        VisitsAt(s, c, k);
        AddressFits(s, s.w.cur);
        if k < |s.visits| {
          VisitFresh(s, c, k);
        } else {
          LoadedFresh(s, c);
        }
      }
    }
  }

  lemma AddressFits(s: System, addr: nat)
    requires Fits(s.regs) && addr < COUNTER
    ensures At(s, addr) < MEMORY
  {
  }

  /** A granted load reads what is there after the cycle. */
  lemma LoadedFresh(s: System, c: Cycle)
    requires Inv(s) && Legal(s, c) && LoadGrant(s.w, ToInputs(c))
    ensures At(s, s.w.cur) < MEMORY && Step(s, c).mem == s.mem
  {
    hide NextQueue, NextPhase, NextSched, Filled, Pops, StoreWanted, NextVisits, NextRevoked;
    hide Tracked, Agrees, Accounted, InOrder, Decided, NextBus;
  }

  /** A visit is marked when the CPU store that spoils it is performed. */
  lemma VisitMarked(s: System, c: Cycle, k: nat)
    requires Inv(s) && s.undecided <= k < |s.visits|
    ensures
      var v := NextVisit(s, c, k);
      && v.addr == s.visits[k].addr && v.value == s.visits[k].value
      && (v.hit <==> s.visits[k].hit || Snooped(c, At(s, v.addr)))
      && (v.missed <==> s.visits[k].missed || Unsnooped(c, At(s, v.addr)))
  {
    hide NextQueue, NextPhase, NextSched, Filled, Pops, StoreWanted, EngineWrite, GranuleAt, Agrees, Accounted;
    hide InOrder, Snooped, Unsnooped, Writes;
    assert Mirrors(s.w.q[k - s.undecided], s.visits[k], k - s.undecided < s.w.answered, k - s.undecided < s.w.looked);
  }

  lemma VisitFresh(s: System, c: Cycle, k: nat)
    requires Inv(s) && Legal(s, c) && Step(s, c).undecided <= k < |s.visits| && !Starts(s, c)
    ensures
      var v := NextVisit(s, c, k);
      && v.addr == s.visits[k].addr && At(s, v.addr) < MEMORY
      && (v.hit || v.missed || Step(s, c).mem[At(s, v.addr)].data == v.value.data)
  {
    hide NextQueue, NextPhase, NextSched, Filled, StoreWanted, EngineWrite, GranuleAt, Agrees, Accounted, Revokes;
    hide InOrder, NextRevoked, NextBus, NextVisits, NextVisit, CpuWrite, OnBus, Decided, Mirrors;
    var g := At(s, s.visits[k].addr);
    VisitMarked(s, c, k);
    EngineWriteEffect(s, c);
    CpuWriteAt(EngineWrite(s, c), c, g);
    if StoreGrant(s.w, ToInputs(c)) {
      UndecidedApartAt(s, k);
    }
  }

  lemma VisitAddress(s: System, k: nat)
    requires InOrder(s) && k < |s.visits|
    ensures s.visits[k].addr < COUNTER
  {
    hide Nth;
  }

  lemma StepAgrees(s: System, c: Cycle)
    requires Inv(s) && Legal(s, c)
    ensures Agrees(Step(s, c))
  {
    hide NextQueue, NextVisits, NextVisit, NextPhase, NextSched, Filled, Pops, StoreWanted, EngineWrite, GranuleAt;
    hide Accounted, InOrder, Requesting, Mirrors, OnBus, Decided, NextEntry, Fresh, Tracked, LoadsUntagged;
    hide NextRevoked, CpuWrite, NextBus, DataAt;
    var s' := Step(s, c);
    if Starts(s, c) {
      StartAgrees(s, c);
    } else {
      forall g | 0 <= g < MEMORY
        ensures s'.mem[g] == Granule(s'.cpu[g].tag && g !in s'.revoked, DataAt(s', g))
      {
        GranuleAgrees(s, c, g);
      }
    }
  }

  lemma StartAgrees(s: System, c: Cycle)
    requires Shaped(s.w) && Starts(s, c) && |s.mem| == MEMORY
    ensures Agrees(Step(s, c))
  {
    hide Shaped, Next, NextVisits, NextRevoked, NextBus, EngineWrite, CpuWrite;
  }

  /** The engine clears granule g in this cycle. */
  predicate Clears(s: System, c: Cycle, g: nat)
    requires Shaped(s.w)
  {
    StoreGrant(s.w, ToInputs(c)) && At(s, s.w.q[0].addr) == g
  }

  /** How the record of a cleared granule moves. */
  lemma RevokedStep(s: System, c: Cycle, g: nat)
    requires Inv(s) && Legal(s, c) && !Starts(s, c)
    ensures
      var s' := Step(s, c);
      && (g in s'.revoked <==> Clears(s, c, g) || (g in s.revoked && !Writes(c, g)))
      && (g in s'.revoked ==>
            s'.revoked[g] < |s.visits| && s'.revoked[g] < |s'.visits|
            && s'.revoked[g] == (if Clears(s, c, g) then s.undecided else s.revoked[g])
            && s'.visits[s'.revoked[g]].value == s.visits[s'.revoked[g]].value
            && s'.visits[s'.revoked[g]].missed == s.visits[s'.revoked[g]].missed)
  {
    hide NextQueue, NextVisits, NextVisit, NextPhase, NextSched, Filled, Pops, StoreWanted, EngineWrite, GranuleAt;
    hide InOrder, Requesting, Mirrors, OnBus, Decided, NextEntry, Fresh, Tracked, CpuWrite, Agrees, LoadsUntagged;
    hide Rewritten, Writes, Stored, NextBus;
    var s' := Step(s, c);
    VisitCount(s, c);
    EngineWriteEffect(s, c);
    RewrittenIs(s, c);
    if StoreGrant(s.w, ToInputs(c)) {
      GrantIsQuiet(s, c, g);
    }
    if g in s'.revoked {
      VisitsAt(s, c, s'.revoked[g]);
      VisitMarks(s, c, s'.revoked[g]);
      VisitKeeps(s, c, s'.revoked[g]);
    }
  }

  lemma GranuleAgrees(s: System, c: Cycle, g: nat)
    requires Inv(s) && Legal(s, c) && !Starts(s, c) && g < MEMORY
    ensures
      var s' := Step(s, c);
      s'.mem[g] == Granule(s'.cpu[g].tag && g !in s'.revoked, DataAt(s', g))
  {
    hide NextQueue, NextVisits, NextVisit, NextPhase, NextSched, Filled, Pops, StoreWanted, EngineWrite, GranuleAt;
    hide InOrder, Requesting, Mirrors, OnBus, Decided, NextEntry, Fresh, Tracked, CpuWrite, NextRevoked;
    hide Rewritten, Writes, Stored, NextBus;
    EngineWriteEffect(s, c);
    CpuWriteAt(EngineWrite(s, c), c, g);
    CpuWriteAt(s.cpu, c, g);
    RevokedStep(s, c, g);
    if StoreGrant(s.w, ToInputs(c)) {
      GrantIsQuiet(s, c, g);
    }
  }

  /** The CPU writes nothing in a cycle in which the engine is granted. */
  lemma GrantIsQuiet(s: System, c: Cycle, g: nat)
    requires Legal(s, c) && c.granted
    ensures !Writes(c, g)
  {
  }

  lemma StepAccounted(s: System, c: Cycle)
    requires Inv(s) && Legal(s, c)
    ensures Accounted(Step(s, c))
  {
    hide NextQueue, NextVisits, NextPhase, NextSched, Filled, Pops, StoreWanted, EngineWrite, GranuleAt;
    hide InOrder, Requesting, Mirrors, OnBus, NextEntry, Fresh, Tracked, Agrees, Decided, NextVisit;
    hide CpuWrite, NextBus, Writes, Rewritten;
    var i := ToInputs(c);
    var s' := Step(s, c);
    VisitCount(s, c);
    EngineWriteEffect(s, c);
    RewrittenIs(s, c);
    if !Starts(s, c) {
      forall g | g in s'.revoked
        ensures s'.revoked[g] < |s'.visits| && At(s', s'.visits[s'.revoked[g]].addr) == g
        ensures s'.visits[s'.revoked[g]].cleared && !s'.visits[s'.revoked[g]].overwritten
      {
        VisitsAt(s, c, s'.revoked[g]);
        VisitMarks(s, c, s'.revoked[g]);
      }
      forall k | 0 <= k < |s'.visits| && s'.visits[k].cleared && !s'.visits[k].overwritten
        ensures At(s', s'.visits[k].addr) in s'.revoked && s'.revoked[At(s', s'.visits[k].addr)] == k
      {
        VisitsAt(s, c, k);
        VisitMarks(s, c, k);
      }
    }
  }

  lemma RewrittenIs(s: System, c: Cycle)
    ensures forall g: nat :: g in Rewritten(c) <==> Writes(c, g)
  {
  }

  /** How a visit's marks move. */
  lemma VisitMarks(s: System, c: Cycle, k: nat)
    requires Inv(s) && Legal(s, c) && k < |s.visits|
    ensures
      var v := NextVisit(s, c, k);
      var store := StoreGrant(s.w, ToInputs(c));
      && v.addr == s.visits[k].addr
      && (v.cleared <==> s.visits[k].cleared || (store && k == s.undecided))
      && (store ==> forall g: nat :: !Writes(c, g))
      && (v.overwritten <==> s.visits[k].overwritten || (s.visits[k].cleared && Writes(c, At(s, v.addr))))
      && (v.missed <==> s.visits[k].missed || (!s.visits[k].cleared && Unsnooped(c, At(s, v.addr))))
      && (store && k == s.undecided ==> !v.overwritten && v.missed == s.visits[k].missed)
  {
    hide NextQueue, NextPhase, NextSched, Filled, Pops, StoreWanted, EngineWrite, GranuleAt, Agrees, Accounted;
    hide InOrder;
    LegalAllowed(s, c);
    if StoreGrant(s.w, ToInputs(c)) && k == s.undecided {
      assert Mirrors(s.w.q[0], s.visits[s.undecided], true, true);
    }
  }

  lemma StepLoadsUntagged(s: System, c: Cycle)
    requires Inv(s) && Legal(s, c)
    ensures LoadsUntagged(Step(s, c))
  {
    hide NextQueue, NextVisits, NextPhase, NextSched, Filled, StoreWanted, EngineWrite, GranuleAt, NextRevoked;
    hide InOrder, Requesting, Mirrors, NextEntry, Fresh, Tracked, Decided, NextVisit, Accounted;
    hide CpuWrite, NextBus, Writes, Agrees;
    var s' := Step(s, c);
    VisitCount(s, c);
    LegalAllowed(s, c);
    NextSize(s.w, ToInputs(c));
    EngineWriteEffect(s, c);
    if !Starts(s, c) {
      forall k | s'.undecided <= k < |s'.visits| && At(s', s'.visits[k].addr) in s'.revoked
        ensures !s'.visits[k].value.tag
      {
        VisitsAt(s, c, k);
        RevokedStep(s, c, At(s, s'.visits[k].addr));
        if k < |s.visits| {
          VisitKeeps(s, c, k);
          if StoreGrant(s.w, ToInputs(c)) {
            UndecidedApartAt(s, k);
          }
        } else {
          RevokedUntagged(s, s.w.cur);
        }
      }
    }
  }

  lemma UndecidedApartAt(s: System, k: nat)
    requires Inv(s) && s.undecided < k < |s.visits|
    ensures At(s, s.visits[k].addr) != At(s, s.visits[s.undecided].addr)
  {
    hide Shaped, OnBus, Tracked, Decided, Fresh, Agrees, Accounted, LoadsUntagged, InOrder;
    UndecidedApart(s, k);
  }

  lemma RevokedUntagged(s: System, addr: nat)
    requires Agrees(s) && Fits(s.regs) && addr < COUNTER && At(s, addr) in s.revoked
    ensures !Read(s.mem, At(s, addr)).tag
  {
    hide DataAt;
  }

  lemma StepInOrder(s: System, c: Cycle)
    requires Inv(s) && Legal(s, c)
    ensures InOrder(Step(s, c))
  {
    hide NextQueue, NextVisits, NextVisit, NextSched, Filled, Pops, StoreWanted, EngineWrite, GranuleAt;
    hide Requesting, Mirrors, OnBus, NextEntry, Fresh, Tracked, Agrees, Decided, Accounted, CpuWrite, NextRevoked;
    hide NextBus;
    var i := ToInputs(c);
    var s' := Step(s, c);
    VisitCount(s, c);
    if !Starts(s, c) {
      forall k | 0 <= k < |s'.visits|
        ensures s'.visits[k].addr == Nth(s.regs, k)
      {
        VisitsAt(s, c, k);
        if k < |s.visits| {
          VisitKeeps(s, c, k);
        }
      }
    }
  }

  lemma StepInv(s: System, c: Cycle)
    requires Inv(s) && Legal(s, c)
    ensures Inv(Step(s, c))
  {
    hide Shaped, OnBus, Tracked, Decided, Fresh, Agrees, Accounted, LoadsUntagged, InOrder, Legal, Allowed, Next;
    LegalAllowed(s, c);
    NextShaped(s.w, ToInputs(c));
    StepOnBus(s, c);
    StepTracked(s, c);
    StepDecided(s, c);
    StepFresh(s, c);
    StepAgrees(s, c);
    StepAccounted(s, c);
    StepLoadsUntagged(s, c);
    StepInOrder(s, c);
  }

  // ---------------------------------------------------------------- whole runs

  predicate Reset(s: System) {
    && s.w == ResetWalk() && s.bus.Free? && Fits(s.regs)
    && |s.mem| == MEMORY && s.cpu == s.mem
    && s.visits == [] && s.undecided == 0 && s.revoked == map[]
  }

  /** The states a system goes through; it stops at the first cycle the environment does not allow. */
  ghost predicate LegalRun(s: System, cycles: seq<Cycle>)
    decreases |cycles|
  {
    cycles == [] || (Shaped(s.w) && Legal(s, cycles[0]) && LegalRun(Step(s, cycles[0]), cycles[1..]))
  }

  ghost function Run(s: System, cycles: seq<Cycle>): System
    requires LegalRun(s, cycles)
    decreases |cycles|
  {
    if cycles == [] then s else Run(Step(s, cycles[0]), cycles[1..])
  }

  /**
    The result of a finished walk. Every granule from start to end was loaded once, in ascending
    order. A tag was cleared on exactly those whose error-free load was tagged with shadow bit 1 and
    which no snooped CPU store hit in between.
   */
  ghost predicate WalkedAll(s: System) {
    |s.visits| == Total(s.regs) && forall k | 0 <= k < |s.visits| :: s.visits[k].addr == Nth(s.regs, k)
  }

  ghost predicate ClearedExactlyDue(s: System) {
    forall k | 0 <= k < |s.visits| :: s.visits[k].cleared == Due(s.visits[k])
  }

  ghost predicate TagLost(s: System, g: nat) {
    exists k :: 0 <= k < |s.visits| && s.visits[k].cleared && !s.visits[k].overwritten && At(s, s.visits[k].addr) == g
  }

  ghost predicate NoUpdateLost(s: System) {
    && |s.mem| == MEMORY && |s.cpu| == MEMORY
    && forall g | 0 <= g < MEMORY :: s.mem[g] == Granule(s.cpu[g].tag && !TagLost(s, g), s.cpu[g].data)
  }

  /** The visit cleared a tag and, having missed an update, wrote its own data back; nothing has mended it since. */
  predicate Buries(v: Visit) { v.cleared && v.missed && !v.overwritten }

  /** Such a visit of g wrote back other data than the CPU left there. */
  ghost predicate UpdateLost(s: System, g: nat)
    requires g < |s.cpu|
  {
    exists k :: 0 <= k < |s.visits| && Buries(s.visits[k]) && At(s, s.visits[k].addr) == g
                && s.visits[k].value.data != s.cpu[g].data
  }

  /** Memory is what the CPU alone left, less exactly the tags cleared and the updates lost. */
  ghost predicate MemoryKnown(s: System) {
    && |s.mem| == MEMORY && |s.cpu| == MEMORY
    && (forall g | 0 <= g < MEMORY ::
          (s.mem[g].tag <==> s.cpu[g].tag && !TagLost(s, g))
          && (s.mem[g].data == s.cpu[g].data <==> !UpdateLost(s, g)))
    && (forall k | 0 <= k < |s.visits| && Buries(s.visits[k]) ::
          Read(s.mem, At(s, s.visits[k].addr)) == Granule(false, s.visits[k].value.data))
  }

  /** A bus monitor's check: no granule whose visit is undecided is written unsnooped. */
  ghost predicate Watched(s: System, c: Cycle) {
    forall k | s.undecided <= k < |s.visits| :: !Unsnooped(c, At(s, s.visits[k].addr))
  }

  ghost predicate WatchedRun(s: System, cycles: seq<Cycle>)
    requires LegalRun(s, cycles)
    decreases |cycles|
  {
    cycles != [] ==> Watched(s, cycles[0]) && WatchedRun(Step(s, cycles[0]), cycles[1..])
  }

  ghost predicate NoneMissed(s: System) {
    forall k | 0 <= k < |s.visits| && (s.undecided <= k || s.visits[k].cleared) :: !s.visits[k].missed
  }

  lemma {:induction false} RunInv(s: System, cycles: seq<Cycle>)
    requires Inv(s) && LegalRun(s, cycles)
    ensures Inv(Run(s, cycles))
    decreases |cycles|
  {
    hide Inv, Legal, Step;
    if cycles != [] {
      StepInv(s, cycles[0]);
      RunInv(Step(s, cycles[0]), cycles[1..]);
    }
  }

  lemma ResetInv(s: System)
    requires Reset(s)
    ensures Inv(s)
  {
  }

  lemma StepNoneMissed(s: System, c: Cycle)
    requires Inv(s) && Legal(s, c) && NoneMissed(s) && Watched(s, c)
    ensures NoneMissed(Step(s, c))
  {
    hide NextQueue, NextVisits, NextVisit, NextPhase, NextSched, Filled, StoreWanted, EngineWrite, GranuleAt;
    hide NextRevoked, InOrder, Requesting, Mirrors, OnBus, Fresh, Agrees, Decided, Accounted, CpuWrite, NextBus;
    hide Rewritten, Writes, Unsnooped, LoadsUntagged, NextEntry, Tracked;
    var s' := Step(s, c);
    VisitCount(s, c);
    if !Starts(s, c) {
      forall k | 0 <= k < |s'.visits| && (s'.undecided <= k || s'.visits[k].cleared)
        ensures !s'.visits[k].missed
      {
        VisitsAt(s, c, k);
        if k < |s.visits| {
          VisitMarks(s, c, k);
        }
      }
    }
  }

  lemma {:induction false} RunNoneMissed(s: System, cycles: seq<Cycle>)
    requires Inv(s) && LegalRun(s, cycles) && NoneMissed(s) && WatchedRun(s, cycles)
    ensures NoneMissed(Run(s, cycles))
    decreases |cycles|
  {
    hide Inv, Legal, Step, Watched, NoneMissed;
    if cycles != [] {
      StepInv(s, cycles[0]);
      StepNoneMissed(s, cycles[0]);
      RunNoneMissed(Step(s, cycles[0]), cycles[1..]);
    }
  }

  lemma RevokedIsLost(s: System)
    requires Accounted(s)
    ensures forall g | 0 <= g < MEMORY :: g in s.revoked <==> TagLost(s, g)
  {
    hide GranuleAt;
    forall g | 0 <= g < MEMORY
      ensures g in s.revoked <==> TagLost(s, g)
    {
      if g in s.revoked {
        assert At(s, s.visits[s.revoked[g]].addr) == g;
      }
    }
  }

  lemma RevokedKnown(s: System)
    requires Accounted(s) && Agrees(s) && InOrder(s) && Fits(s.regs)
    ensures MemoryKnown(s)
  {
    hide InOrder, GranuleAt, TagLost;
    RevokedIsLost(s);
    forall g | 0 <= g < MEMORY
      ensures s.mem[g].data == s.cpu[g].data <==> !UpdateLost(s, g)
    {
      LossKnown(s, g);
    }
    forall k | 0 <= k < |s.visits| && Buries(s.visits[k])
      ensures Read(s.mem, At(s, s.visits[k].addr)) == Granule(false, s.visits[k].value.data)
    {
      VisitAddress(s, k);
      AddressFits(s, s.visits[k].addr);
    }
  }

  lemma LossKnown(s: System, g: nat)
    requires Accounted(s) && Agrees(s) && g < MEMORY
    ensures s.mem[g].data == s.cpu[g].data <==> !UpdateLost(s, g)
  {
    hide GranuleAt;
    if UpdateLost(s, g) {
      var k :| 0 <= k < |s.visits| && Buries(s.visits[k]) && At(s, s.visits[k].addr) == g
               && s.visits[k].value.data != s.cpu[g].data;
      assert Stale(s, g);
    } else if Stale(s, g) {
      assert Buries(s.visits[s.revoked[g]]);
    }
  }

  /**
    What memory holds at every moment of every run. An update is lost exactly where the engine wrote
    back a granule after missing a store to it, with other data, and no CPU store has rewritten it.
   */
  lemma RunExact(s: System, cycles: seq<Cycle>)
    requires Reset(s) && LegalRun(s, cycles)
    ensures
      var e := Run(s, cycles);
      && MemoryKnown(e) && Decided(e)
      && (NoUpdateLost(e) <==> forall g | 0 <= g < MEMORY :: !UpdateLost(e, g))
  {
    hide Shaped, Tracked, Fresh, Accounted, InOrder, LoadsUntagged, TagLost, Run, LegalRun, Decided, UpdateLost, Fits;
    hide Agrees;
    ResetInv(s);
    RunInv(s, cycles);
    RevokedKnown(Run(s, cycles));
  }

  /** At every moment of a run under that check no CPU update is lost, and what is decided was decided rightly. */
  lemma RunSafe(s: System, cycles: seq<Cycle>)
    requires Reset(s) && LegalRun(s, cycles) && WatchedRun(s, cycles)
    ensures NoUpdateLost(Run(s, cycles)) && Decided(Run(s, cycles))
  {
    hide Inv, LegalRun, Run, WatchedRun, Decided, NoUpdateLost, TagLost;
    ResetInv(s);
    RunExact(s, cycles);
    RunNoneMissed(s, cycles);
  }

  /** Whenever a run is back in IDLE after a walk, the walk is complete and exact. */
  lemma WalkComplete(s: System, cycles: seq<Cycle>)
    requires Reset(s) && LegalRun(s, cycles)
    requires
      var e := Run(s, cycles);
      e.w.phase.Idle? && e.visits != [] && e.regs.end < COUNTER - 1
    ensures WalkedAll(Run(s, cycles)) && ClearedExactlyDue(Run(s, cycles)) && MemoryKnown(Run(s, cycles))
    ensures WatchedRun(s, cycles) ==> NoUpdateLost(Run(s, cycles))
  {
    hide WatchedRun, MemoryKnown, OnBus, Fresh, Accounted, Agrees, TagLost, Run, LegalRun, Due, Total;
    hide Nth, NoUpdateLost;
    ResetInv(s);
    RunInv(s, cycles);
    RunExact(s, cycles);
    if WatchedRun(s, cycles) {
      RunSafe(s, cycles);
    }
  }

  /** Within one lap no granule is visited twice. */
  lemma VisitedOnce(r: Registers, j: nat, k: nat)
    requires Fits(r) && r.end < COUNTER - 1 && j < k < Total(r)
    ensures Nth(r, j) != Nth(r, k) && Nth(r, k) < COUNTER
    ensures r.start < COUNTER - 1 ==> Nth(r, j) < Nth(r, k)
  {
  }

  /**
    The granules of a finished walk, as byte addresses: 8-byte granules of the 16-megabyte region of the
    start register, from the start on. All of them up to the end register, or one if that is not behind
    the start; from the region's last granule on, the counter wraps and the walk goes on to the end.
   */
  lemma WalkedGranules(s: System, cycles: seq<Cycle>, k: nat)
    requires Reset(s) && LegalRun(s, cycles)
    requires
      var e := Run(s, cycles);
      e.w.phase.Idle? && k < |e.visits| && e.regs.end < COUNTER - 1
    ensures
      var e := Run(s, cycles);
      var start, end := e.regs.start, e.regs.end;
      && 8 * At(e, e.visits[k].addr) == 0x100_0000 * e.regs.startHi + 8 * ((start + k) % 0x20_0000)
      && |e.visits| == if start == 0x1F_FFFF then end + 2 else if end > start then end - start + 1 else 1
  {
    hide OnBus, Fresh, Accounted, Agrees, Run, LegalRun, Filled, Tracked, Decided, LoadsUntagged;
    ResetInv(s);
    RunInv(s, cycles);
  }
}
