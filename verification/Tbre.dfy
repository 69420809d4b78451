/**
  The background revocation engine as a queue machine. A granule is 8 bytes with one tag; the walk
  counter and the FIFO addresses keep bits 23:3 of an address, bits 31:24 come from the start address.
 */
module TbreModel {
  import opened Options

  const FIFO_SIZE: nat := 4
  const COUNTER: nat := 0x20_0000 // the walk counter has 21 bits

  datatype Granule = Granule(tag: bool, data: nat)

  datatype Phase = Idle | Loading | Draining
  datatype Sched = NoReq | LoadReq | StoreReq

  /** A load request on its way through the three FIFOs. */
  datatype Entry = Entry(addr: nat, valid: bool, loaded: Option<Loaded>, shadow: Option<bool>)
  datatype Loaded = Loaded(err: bool, granule: Granule)

  /** q holds the requests from oldest to newest; `answered` have their data, `looked` their shadow bit. */
  datatype Walk = Walk(phase: Phase, sched: Sched, cur: nat, waiting: bool, err: bool,
                       q: seq<Entry>, answered: nat, looked: nat)

  datatype Response = Response(isWrite: bool, err: bool, rdata: Granule)

  /** One cycle's inputs: control registers, LSU grant and response, snooped store, shadow lookup. */
  datatype Inputs = Inputs(go: bool, addWait: bool, startHi: nat, start: nat, end: nat,
                           granted: bool, response: Option<Response>, lookup: Option<bool>,
                           snoop: Option<nat>)

  /** Sizes and schedule: at most one load is unanswered, SCH_LOAD has room, SCH_STORE has a head. */
  predicate Scheduled(w: Walk) {
    && w.looked <= w.answered <= |w.q| <= FIFO_SIZE && |w.q| <= w.answered + 1
    && w.cur < COUNTER
    && (w.answered < |w.q| ==> w.waiting)
    && (w.sched.LoadReq? ==> w.phase.Loading? && |w.q| < FIFO_SIZE)
    && (w.sched.StoreReq? ==> w.looked > 0)
    && (w.phase.Idle? ==> |w.q| == 0 && w.sched.NoReq?)
  }

  /** The FIFOs fill from the oldest entry on. */
  predicate Filled(q: seq<Entry>, answered: nat, looked: nat) {
    && (forall k | 0 <= k < |q| :: q[k].loaded.Some? == (k < answered))
    && (forall k | 0 <= k < |q| :: q[k].shadow.Some? == (k < looked))
  }

  predicate Shaped(w: Walk) {
    Scheduled(w) && Filled(w.q, w.answered, w.looked)
  }

  /** The entry asks for its tag to be cleared. */
  predicate Revokes(e: Entry) {
    e.valid && e.loaded.Some? && e.loaded.value.granule.tag && !e.loaded.value.err && e.shadow == Some(true)
  }

  predicate StoreWanted(w: Walk) {
    0 < w.looked <= |w.q| && Revokes(w.q[0])
  }

  /** tbre_lsu_req_o */
  predicate Requesting(w: Walk, i: Inputs) {
    && (w.sched.LoadReq? || (w.sched.StoreReq? && StoreWanted(w)))
    && (!w.waiting || (i.response.Some? && !i.addWait))
  }

  predicate LoadGrant(w: Walk, i: Inputs) { w.sched.LoadReq? && i.granted }
  predicate StoreGrant(w: Walk, i: Inputs) { w.sched.StoreReq? && i.granted }

  function Bump(cur: nat): nat { if cur + 1 == COUNTER then 0 else cur + 1 }

  predicate LastLoad(w: Walk, i: Inputs) { Bump(w.cur) > i.end }

  function NextPhase(w: Walk, i: Inputs): Phase {
    if w.phase.Idle? && i.go then Loading
    else if w.phase.Loading? && LoadGrant(w, i) && LastLoad(w, i) then Draining
    else if w.phase.Draining? && |w.q| == 0 then Idle
    else w.phase
  }

  function NextSched(w: Walk, i: Inputs): Sched {
    var lastRoom := |w.q| >= FIFO_SIZE - 1 || NextPhase(w, i).Draining?;
    var storeOver := StoreGrant(w, i) || !StoreWanted(w);
    match w.sched
    case NoReq =>
      if w.phase.Loading? && |w.q| < FIFO_SIZE then LoadReq else if StoreWanted(w) then StoreReq else NoReq
    case LoadReq =>
      if LoadGrant(w, i) && lastRoom then if StoreWanted(w) then StoreReq else NoReq else LoadReq
    case StoreReq =>
      if storeOver then if w.phase.Loading? then LoadReq else NoReq else StoreReq
  }

  /** fifo_rd_en: the head is stored, or needs no store. */
  predicate Pops(w: Walk, i: Inputs) {
    w.looked > 0 && (StoreGrant(w, i) || !StoreWanted(w))
  }

  function GranuleAt(hi: nat, addr: nat): nat { hi * COUNTER + addr }

  predicate Answers(i: Inputs) { i.response.Some? && !i.response.value.isWrite }

  /** What one clock edge does to entry k. */
  function NextEntry(w: Walk, i: Inputs, k: nat): Entry
    requires k < |w.q|
  {
    var e := w.q[k];
    var e1 := if i.snoop == Some(GranuleAt(i.startHi, e.addr)) then e.(valid := false) else e;
    var e2 := if Answers(i) && k == w.answered
              then e1.(loaded := Some(Loaded(i.response.value.err, i.response.value.rdata))) else e1;
    if i.lookup.Some? && k == w.looked then e2.(shadow := i.lookup) else e2
  }

  function Touched(w: Walk, i: Inputs): (q: seq<Entry>)
    ensures |q| == |w.q|
  {
    seq(|w.q|, k requires 0 <= k < |w.q| => NextEntry(w, i, k))
  }

  function NextQueue(w: Walk, i: Inputs): seq<Entry> {
    var grown := Touched(w, i) + if LoadGrant(w, i) then [Entry(w.cur, true, None, None)] else [];
    if Pops(w, i) && |grown| > 0 then grown[1..] else grown
  }

  /** One clock edge. */
  function Next(w: Walk, i: Inputs): Walk
    requires Shaped(w)
  {
    var popped := if Pops(w, i) then 1 else 0;
    Walk(
      NextPhase(w, i),
      NextSched(w, i),
      if w.phase.Idle? && i.go then i.start else if LoadGrant(w, i) then Bump(w.cur) else w.cur,
      if i.granted && !w.sched.NoReq? then true else if i.response.Some? then false else w.waiting,
      if w.phase.Idle? && i.go then false else if i.response.Some? && i.response.value.err then true else w.err,
      NextQueue(w, i),
      w.answered + (if Answers(i) then 1 else 0) - popped,
      w.looked + (if i.lookup.Some? then 1 else 0) - popped)
  }

  /** What the LSU and the shadow-map pipeline may do in a cycle. */
  predicate Allowed(w: Walk, i: Inputs) {
    && i.startHi < 0x100 && i.start < COUNTER && i.end < COUNTER
    && (i.granted ==> Requesting(w, i) && i.snoop.None?)
    && (i.response.Some? ==> w.waiting && (i.response.value.isWrite <==> w.answered == |w.q|))
    && (i.lookup.Some? ==> w.looked < w.answered)
  }

  lemma NextSize(w: Walk, i: Inputs)
    requires Shaped(w) && Allowed(w, i)
    ensures |NextQueue(w, i)| == |w.q| + (if LoadGrant(w, i) then 1 else 0) - if Pops(w, i) then 1 else 0
  {
    hide NextEntry, StoreWanted, Requesting;
  }

  lemma NextScheduled(w: Walk, i: Inputs)
    requires Shaped(w) && Allowed(w, i)
    ensures Scheduled(Next(w, i))
  {
    hide NextQueue, Revokes, Filled, GranuleAt;
    NextSize(w, i);
  }

  function Popped(w: Walk, i: Inputs): nat { if Pops(w, i) then 1 else 0 }

  /** Entry k of the next queue is an old entry moved up, or the request just granted. */
  lemma NextAt(w: Walk, i: Inputs, k: nat)
    requires Shaped(w) && k < |NextQueue(w, i)|
    ensures k + Popped(w, i) < |w.q| ==> NextQueue(w, i)[k] == NextEntry(w, i, k + Popped(w, i))
    ensures k + Popped(w, i) >= |w.q| ==> LoadGrant(w, i) && NextQueue(w, i)[k] == Entry(w.cur, true, None, None)
  {
    hide NextEntry, StoreWanted, Filled;
  }

  lemma NextFilled(w: Walk, i: Inputs)
    requires Shaped(w) && Allowed(w, i)
    ensures Filled(Next(w, i).q, Next(w, i).answered, Next(w, i).looked)
  {
    hide NextQueue, NextPhase, NextSched, StoreWanted, Requesting, GranuleAt, Pops, LoadGrant;
    var n := Next(w, i);
    forall k | 0 <= k < |n.q|
      ensures n.q[k].loaded.Some? == (k < n.answered) && n.q[k].shadow.Some? == (k < n.looked)
    {
      NextAt(w, i, k);
    }
  }

  lemma NextShaped(w: Walk, i: Inputs)
    requires Shaped(w) && Allowed(w, i)
    ensures Shaped(Next(w, i))
  {
    hide NextQueue, NextPhase, NextSched, Allowed, Scheduled, Filled;
    NextScheduled(w, i);
    NextFilled(w, i);
  }

  function ResetWalk(): Walk { Walk(Idle, NoReq, 0, false, false, [], 0, 0) }
}
