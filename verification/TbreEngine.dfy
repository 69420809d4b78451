/**
  The revocation engine's registers: three FIFO memories that share a read pointer, with write
  pointers one bit wider than an index. Proved to be the queue machine of TbreModel.
 */
module TbreEngine {
  import opened Options
  import opened TbreModel

  const PTR_RANGE: nat := 8 // 2 * FIFO_SIZE

  datatype ReqItem = ReqItem(valid: bool, addr8: nat)
  datatype CapItem = CapItem(err: bool, granule: Granule)

  /** A write pointer minus the read pointer, in pointer width. */
  function Ahead(ptr: nat, rd: nat): int {
    if ptr >= rd then ptr - rd else ptr + PTR_RANGE - rd
  }

  function Advance(ptr: nat): nat { if ptr + 1 == PTR_RANGE then 0 else ptr + 1 }

  function Slot(rd: nat, k: nat): nat { (rd + k) % FIFO_SIZE }

  datatype Memories = Memories(req: seq<ReqItem>, cap: seq<CapItem>, shdw: seq<bool>)

  predicate Sized(m: Memories) {
    |m.req| == FIFO_SIZE && |m.cap| == FIFO_SIZE && |m.shdw| == FIFO_SIZE
  }

  /** The k-th oldest entry. */
  function EntryAt(m: Memories, rd: nat, answered: nat, looked: nat, k: nat): Entry
    requires Sized(m)
  {
    var s := Slot(rd, k);
    Entry(m.req[s].addr8, m.req[s].valid,
          if k < answered then Some(Loaded(m.cap[s].err, m.cap[s].granule)) else None,
          if k < looked then Some(m.shdw[s]) else None)
  }

  function Queue(m: Memories, rd: nat, n: nat, answered: nat, looked: nat): (q: seq<Entry>)
    requires Sized(m)
    ensures |q| == n
  {
    seq(n, k requires 0 <= k < n => EntryAt(m, rd, answered, looked, k))
  }

  function ResponseItem(i: Inputs): CapItem
    requires Answers(i)
  {
    CapItem(i.response.value.err, i.response.value.rdata)
  }

  /** What a clock edge writes to slot s, with the write pointers before the edge. */
  predicate Written(m: Memories, m': Memories, i: Inputs, loadGnt: bool, cur: nat,
                    req: nat, cap: nat, shdw: nat, s: nat)
    requires Sized(m) && Sized(m') && s < FIFO_SIZE
  {
    && m'.req[s] == (if loadGnt && s == req % FIFO_SIZE then ReqItem(true, cur)
                     else if i.snoop == Some(GranuleAt(i.startHi, m.req[s].addr8)) then m.req[s].(valid := false)
                     else m.req[s])
    && m'.cap[s] == (if Answers(i) && s == cap % FIFO_SIZE then ResponseItem(i) else m.cap[s])
    && m'.shdw[s] == (if i.lookup.Some? && s == shdw % FIFO_SIZE then i.lookup.value else m.shdw[s])
  }

  lemma SlotsDiffer(rd: nat, j: nat, k: nat)
    requires j < FIFO_SIZE && k < FIFO_SIZE
    ensures Slot(rd, j) < FIFO_SIZE && (Slot(rd, j) == Slot(rd, k) <==> j == k)
  {
  }

  lemma PointerSlot(ptr: nat, rd: nat)
    requires ptr < PTR_RANGE && rd < PTR_RANGE
    ensures 0 <= Ahead(ptr, rd) < PTR_RANGE && ptr % FIFO_SIZE == Slot(rd, Ahead(ptr, rd))
  {
  }


  lemma AdvanceSlot(rd: nat, k: nat)
    requires rd < PTR_RANGE
    ensures Slot(Advance(rd), k) == Slot(rd, k + 1)
  {
  }

  /** The entries seen from the old read pointer after the edge. */
  lemma EntryWritten(m: Memories, m': Memories, i: Inputs, w: Walk, rd: nat, req: nat, cap: nat, shdw: nat, k: nat)
    requires Sized(m) && Sized(m') && rd < PTR_RANGE && req < PTR_RANGE && cap < PTR_RANGE && shdw < PTR_RANGE
    requires Shaped(w) && Allowed(w, i)
    requires Ahead(req, rd) == |w.q| && Ahead(cap, rd) == w.answered && Ahead(shdw, rd) == w.looked
    requires w.q == Queue(m, rd, |w.q|, w.answered, w.looked)
    requires forall s | 0 <= s < FIFO_SIZE :: Written(m, m', i, LoadGrant(w, i), w.cur, req, cap, shdw, s)
    requires k < |w.q| + if LoadGrant(w, i) then 1 else 0
    ensures
      EntryAt(m', rd, w.answered + (if Answers(i) then 1 else 0), w.looked + (if i.lookup.Some? then 1 else 0), k)
      == (if k < |w.q| then NextEntry(w, i, k) else Entry(w.cur, true, None, None))
  {
    hide Slot, Ahead, Filled, Requesting, GranuleAt, StoreWanted;
    PointerSlot(req, rd);
    PointerSlot(cap, rd);
    PointerSlot(shdw, rd);
    SlotsDiffer(rd, k, k);
    if |w.q| < FIFO_SIZE {
      SlotsDiffer(rd, k, |w.q|);
    }
    if w.answered < FIFO_SIZE {
      SlotsDiffer(rd, k, w.answered);
    }
    if w.looked < FIFO_SIZE {
      SlotsDiffer(rd, k, w.looked);
    }
    assert Written(m, m', i, LoadGrant(w, i), w.cur, req, cap, shdw, Slot(rd, k));
    if k < |w.q| {
      assert w.q[k] == EntryAt(m, rd, w.answered, w.looked, k);
    }
  }

  /** The whole edge, on values: memories and pointers move exactly as the queue does. */
  lemma QueueStep(m: Memories, m': Memories, i: Inputs, w: Walk, rd: nat, req: nat, cap: nat, shdw: nat)
    requires Sized(m) && Sized(m') && rd < PTR_RANGE && req < PTR_RANGE && cap < PTR_RANGE && shdw < PTR_RANGE
    requires Shaped(w) && Allowed(w, i)
    requires Ahead(req, rd) == |w.q| && Ahead(cap, rd) == w.answered && Ahead(shdw, rd) == w.looked
    requires w.q == Queue(m, rd, |w.q|, w.answered, w.looked)
    requires forall s | 0 <= s < FIFO_SIZE :: Written(m, m', i, LoadGrant(w, i), w.cur, req, cap, shdw, s)
    ensures
      var w' := Next(w, i);
      var rd' := if Pops(w, i) then Advance(rd) else rd;
      w'.q == Queue(m', rd', |w'.q|, w'.answered, w'.looked)
  {
    hide Slot, Ahead, Written, Allowed, EntryAt, NextEntry, NextPhase, NextSched, NextQueue, Pops, LoadGrant, Scheduled;
    hide Advance;
    var w' := Next(w, i);
    var rd' := if Pops(w, i) then Advance(rd) else rd;
    NextSize(w, i);
    NextShaped(w, i);
    forall k | 0 <= k < |w'.q|
      ensures w'.q[k] == EntryAt(m', rd', w'.answered, w'.looked, k)
    {
      NextAt(w, i, k);
      EntryWritten(m, m', i, w, rd, req, cap, shdw, k + Popped(w, i));
      EntryMoved(m', rd, w'.answered, w'.looked, k);
    }
  }

  lemma EntryMoved(m: Memories, rd: nat, answered: nat, looked: nat, k: nat)
    requires Sized(m) && rd < PTR_RANGE
    ensures EntryAt(m, Advance(rd), answered, looked, k) == EntryAt(m, rd, answered + 1, looked + 1, k + 1)
  {
    AdvanceSlot(rd, k);
  }

  /** Pointers before and after an edge. */
  datatype Pointers = Pointers(rd: nat, req: nat, cap: nat, shdw: nat)

  function AdvancePointers(p: Pointers, pop: bool, push: bool, answer: bool, lookup: bool): Pointers {
    Pointers(if pop then Advance(p.rd) else p.rd, if push then Advance(p.req) else p.req,
             if answer then Advance(p.cap) else p.cap, if lookup then Advance(p.shdw) else p.shdw)
  }

  /** The pointers delimit the queue of w. */
  ghost predicate Delimits(p: Pointers, m: Memories, w: Walk)
    requires Sized(m)
  {
    && p.rd < PTR_RANGE && p.req < PTR_RANGE && p.cap < PTR_RANGE && p.shdw < PTR_RANGE
    && Ahead(p.req, p.rd) == |w.q| && Ahead(p.cap, p.rd) == w.answered && Ahead(p.shdw, p.rd) == w.looked
    && w.q == Queue(m, p.rd, |w.q|, w.answered, w.looked)
  }

  lemma DelimitsNext(p: Pointers, m: Memories, m': Memories, w: Walk, i: Inputs)
    requires Sized(m) && Sized(m') && Shaped(w) && Allowed(w, i) && Delimits(p, m, w)
    requires forall s | 0 <= s < FIFO_SIZE :: Written(m, m', i, LoadGrant(w, i), w.cur, p.req, p.cap, p.shdw, s)
    ensures
      Delimits(AdvancePointers(p, Pops(w, i), LoadGrant(w, i), Answers(i), i.lookup.Some?), m', Next(w, i))
  {
    hide Written, Queue, Filled, NextQueue, NextPhase, NextSched, StoreWanted, Advance, Ahead, GranuleAt;
    QueueStep(m, m', i, w, p.rd, p.req, p.cap, p.shdw);
    NextSize(w, i);
    NextShaped(w, i);
    AdvanceAll(p.rd, p.req, p.cap, p.shdw);
  }

  ghost predicate SameSlot(m: Memories, m': Memories, s: nat)
    requires Sized(m) && Sized(m') && s < FIFO_SIZE
  {
    m'.req[s] == m.req[s] && m'.cap[s] == m.cap[s] && m'.shdw[s] == m.shdw[s]
  }

  ghost predicate SameElsewhere(m: Memories, m': Memories, s: nat)
    requires Sized(m) && Sized(m')
  {
    forall t | 0 <= t < FIFO_SIZE && t != s :: SameSlot(m, m', t)
  }

  /** Writing slot s keeps the slots below written and those above as they were. */
  lemma WrittenStep(m: Memories, b: Memories, m': Memories, i: Inputs, loadGnt: bool,
                    cur: nat, req: nat, cap: nat, shdw: nat, s: nat)
    requires Sized(m) && Sized(b) && Sized(m') && s < FIFO_SIZE
    requires forall t | 0 <= t < s :: Written(m, b, i, loadGnt, cur, req, cap, shdw, t)
    requires forall t | s <= t < FIFO_SIZE :: SameSlot(m, b, t)
    requires Written(b, m', i, loadGnt, cur, req, cap, shdw, s) && SameElsewhere(b, m', s)
    ensures forall t | 0 <= t <= s :: Written(m, m', i, loadGnt, cur, req, cap, shdw, t)
    ensures forall t | s < t < FIFO_SIZE :: SameSlot(m, m', t)
  {
    hide GranuleAt, Answers;
    forall t | 0 <= t <= s
      ensures Written(m, m', i, loadGnt, cur, req, cap, shdw, t)
    {
      if t == s {
        assert SameSlot(m, b, s);
      } else {
        assert SameSlot(b, m', t) && Written(m, b, i, loadGnt, cur, req, cap, shdw, t);
      }
    }
    forall t | s < t < FIFO_SIZE
      ensures SameSlot(m, m', t)
    {
      assert SameSlot(m, b, t) && SameSlot(b, m', t);
    }
  }

  lemma SlotWritten(m: Memories, m': Memories, i: Inputs, loadGnt: bool, cur: nat,
                    req: nat, cap: nat, shdw: nat, s: nat)
    requires Sized(m) && s < FIFO_SIZE
    requires
      m' == Memories(
        m.req[s := if loadGnt && s == req % FIFO_SIZE then ReqItem(true, cur)
        else if i.snoop == Some(GranuleAt(i.startHi, m.req[s].addr8)) then m.req[s].(valid := false)
        else m.req[s]],
        m.cap[s := if Answers(i) && s == cap % FIFO_SIZE then ResponseItem(i) else m.cap[s]],
        m.shdw[s := if i.lookup.Some? && s == shdw % FIFO_SIZE then i.lookup.value else m.shdw[s]])
    ensures Sized(m') && Written(m, m', i, loadGnt, cur, req, cap, shdw, s) && SameElsewhere(m, m', s)
  {
    hide GranuleAt, Answers, ResponseItem;
  }

  class Engine {
    var fsm: Phase
    var sch: Sched
    var curLoadAddr8: nat
    var waitResp: bool
    var errOut: bool
    var rdPtr: nat
    var reqPtr: nat
    var capPtr: nat
    var shdwPtr: nat
    const reqMem: array<ReqItem>
    const capMem: array<CapItem>
    const shdwMem: array<bool>

    ghost function Fifos(): Memories
      reads reqMem, capMem, shdwMem
    {
      Memories(reqMem[..], capMem[..], shdwMem[..])
    }

    /** Pointer order: rd <= shdw <= cap <= req <= rd + FIFO_SIZE, in pointer width. */
    ghost predicate Ordered()
      reads this
    {
      && rdPtr < PTR_RANGE && reqPtr < PTR_RANGE && capPtr < PTR_RANGE && shdwPtr < PTR_RANGE
      && 0 <= Ahead(shdwPtr, rdPtr) <= Ahead(capPtr, rdPtr) <= Ahead(reqPtr, rdPtr) <= FIFO_SIZE
    }

    /** The queue the pointers delimit. */
    ghost function Ptrs(): Pointers
      reads this
    {
      Pointers(rdPtr, reqPtr, capPtr, shdwPtr)
    }

    ghost function Contents(): Walk
      requires Sized(Fifos()) && Ordered()
      reads this, reqMem, capMem, shdwMem
    {
      var answered, looked := Ahead(capPtr, rdPtr), Ahead(shdwPtr, rdPtr);
      Walk(fsm, sch, curLoadAddr8, waitResp, errOut,
           Queue(Fifos(), rdPtr, Ahead(reqPtr, rdPtr), answered, looked), answered, looked)
    }

    ghost predicate Valid()
      reads this, reqMem, capMem, shdwMem
    {
      Sized(Fifos()) && Ordered() && Shaped(Contents())
    }

    constructor ()
      ensures Valid() && Contents() == ResetWalk()
      ensures fresh(reqMem) && fresh(capMem) && fresh(shdwMem)
    {
      fsm, sch, curLoadAddr8, waitResp, errOut := Idle, NoReq, 0, false, false;
      rdPtr, reqPtr, capPtr, shdwPtr := 0, 0, 0, 0;
      reqMem := new ReqItem[FIFO_SIZE](k => ReqItem(false, 0));
      capMem := new CapItem[FIFO_SIZE](k => CapItem(false, Granule(false, 0)));
      shdwMem := new bool[FIFO_SIZE](k => false);
    }

    /** One slot's flip-flops: a write, or a snooped CPU store that spoils the address. */
    method ClockSlot(i: Inputs, loadGnt: bool, s: nat)
      requires Sized(Fifos()) && s < FIFO_SIZE
      modifies reqMem, capMem, shdwMem
      ensures Sized(Fifos())
      ensures Written(old(Fifos()), Fifos(), i, loadGnt, curLoadAddr8, reqPtr, capPtr, shdwPtr, s)
      ensures SameElsewhere(old(Fifos()), Fifos(), s)
    {
      hide GranuleAt, Answers, Written, SameElsewhere;
      ghost var m := Fifos();
      var r := if loadGnt && s == reqPtr % FIFO_SIZE then ReqItem(true, curLoadAddr8)
      else if i.snoop == Some(GranuleAt(i.startHi, reqMem[s].addr8)) then reqMem[s].(valid := false)
      else reqMem[s];
      var c := if Answers(i) && s == capPtr % FIFO_SIZE then ResponseItem(i) else capMem[s];
      var d := if i.lookup.Some? && s == shdwPtr % FIFO_SIZE then i.lookup.value else shdwMem[s];
      reqMem[s], capMem[s], shdwMem[s] := r, c, d;
      assert Fifos() == Memories(m.req[s := r], m.cap[s := c], m.shdw[s := d]);
      SlotWritten(m, Fifos(), i, loadGnt, curLoadAddr8, reqPtr, capPtr, shdwPtr, s);
    }

    method ClockFifos(i: Inputs, loadGnt: bool)
      requires Sized(Fifos())
      modifies reqMem, capMem, shdwMem
      ensures Sized(Fifos())
      ensures forall s | 0 <= s < FIFO_SIZE ::
                Written(old(Fifos()), Fifos(), i, loadGnt, curLoadAddr8, reqPtr, capPtr, shdwPtr, s)
    {
      hide GranuleAt;
      ghost var m := Fifos();
      var s := 0;
      while s < FIFO_SIZE
        invariant s <= FIFO_SIZE && Sized(Fifos())
        invariant forall t | 0 <= t < s :: Written(m, Fifos(), i, loadGnt, curLoadAddr8, reqPtr, capPtr, shdwPtr, t)
        invariant forall t | s <= t < FIFO_SIZE :: SameSlot(m, Fifos(), t)
      {
        ghost var before := Fifos();
        ClockSlot(i, loadGnt, s);
        WrittenStep(m, before, Fifos(), i, loadGnt, curLoadAddr8, reqPtr, capPtr, shdwPtr, s);
        s := s + 1;
      }
    }

    /** store_req_valid, from the FIFO head. */
    method StoreReqValid() returns (valid: bool)
      requires Valid()
      ensures valid == StoreWanted(Contents())
    {
      var notEmpty := reqPtr != rdPtr && capPtr != rdPtr && shdwPtr != rdPtr;
      var head := rdPtr % FIFO_SIZE;
      valid := notEmpty && capMem[head].granule.tag && shdwMem[head] && reqMem[head].valid && !capMem[head].err;
      if notEmpty {
        assert Contents().q[0] == EntryAt(Fifos(), rdPtr, Ahead(capPtr, rdPtr), Ahead(shdwPtr, rdPtr), 0);
      }
    }

    /** Walk state machine and load/store scheduler. */
    method Arbitrate(i: Inputs, storeValid: bool) returns (fsmNext: Phase, schNext: Sched)
      requires Valid() && storeValid == StoreWanted(Contents())
      ensures fsmNext == NextPhase(Contents(), i) && schNext == NextSched(Contents(), i)
    {
      hide Queue, Shaped, StoreWanted, Ahead;
      var osReqCnt := Ahead(reqPtr, rdPtr);
      var loadGnt := sch.LoadReq? && i.granted;
      var storeGnt := sch.StoreReq? && i.granted;
      fsmNext := fsm;
      if fsm.Idle? && i.go {
        fsmNext := Loading;
      } else if fsm.Loading? && loadGnt && Bump(curLoadAddr8) > i.end {
        fsmNext := Draining;
      } else if fsm.Draining? && osReqCnt == 0 {
        fsmNext := Idle;
      }

      schNext := sch;
      match sch
      case NoReq =>
        if fsm.Loading? && !(osReqCnt >= FIFO_SIZE) {
          schNext := LoadReq;
        } else if storeValid {
          schNext := StoreReq;
        }
      case LoadReq =>
        if loadGnt && (osReqCnt >= FIFO_SIZE - 1 || fsmNext.Draining?) {
          schNext := if storeValid then StoreReq else NoReq;
        }
      case StoreReq =>
        if storeGnt || !storeValid {
          schNext := if fsm.Loading? then LoadReq else NoReq;
        }
    }

    /** One clock edge. */
    method Clock(i: Inputs)
      requires Valid() && Allowed(Contents(), i)
      modifies this, reqMem, capMem, shdwMem
      ensures Valid() && Contents() == Next(old(Contents()), i)
    {
      hide Written, Queue, Filled, StoreWanted, NextQueue, NextPhase, NextSched, Advance, Ahead, Delimits, Allowed;
      hide Scheduled, AdvancePointers, Pops;
      ghost var w, m, p := Contents(), Fifos(), Ptrs();
      Outline();
      var loadGnt, storeGnt, rdEn, fsmNext, schNext := Combinational(i);
      ClockFifos(i, loadGnt);
      DelimitsNext(p, m, Fifos(), w, i);
      NextShaped(w, i);
      ClockRegisters(i, loadGnt, storeGnt);
      ClockPointers(i, loadGnt, rdEn);
      fsm, sch := fsmNext, schNext;
      Delimited(Next(w, i));
    }

    /** Grants, FIFO read enable and next states, from the registers before the edge. */
    method Combinational(i: Inputs) returns (loadGnt: bool, storeGnt: bool, rdEn: bool, fsmNext: Phase, schNext: Sched)
      requires Valid() && Allowed(Contents(), i)
      ensures loadGnt == LoadGrant(Contents(), i) && storeGnt == StoreGrant(Contents(), i)
      ensures rdEn == Pops(Contents(), i)
      ensures fsmNext == NextPhase(Contents(), i) && schNext == NextSched(Contents(), i)
    {
      hide Queue, Filled, StoreWanted, NextPhase, NextSched, Advance, Ahead, Allowed;
      Outline();
      var storeValid := StoreReqValid();
      var notEmpty := reqPtr != rdPtr && capPtr != rdPtr && shdwPtr != rdPtr;
      loadGnt := sch.LoadReq? && i.granted;
      storeGnt := sch.StoreReq? && i.granted;
      rdEn := notEmpty && (storeGnt || !storeValid);
      fsmNext, schNext := Arbitrate(i, storeValid);
    }

    /** What the pointers say about the queue. */
    lemma Outline()
      requires Valid()
      ensures Delimits(Ptrs(), Fifos(), Contents())
      ensures (reqPtr != rdPtr && capPtr != rdPtr && shdwPtr != rdPtr) <==> Contents().looked > 0
    {
      hide Queue, Filled, Advance;
      AdvanceAll(rdPtr, reqPtr, capPtr, shdwPtr);
    }

    lemma Delimited(w: Walk)
      requires Sized(Fifos()) && Delimits(Ptrs(), Fifos(), w) && Shaped(w)
      requires fsm == w.phase && sch == w.sched && curLoadAddr8 == w.cur && waitResp == w.waiting && errOut == w.err
      ensures Valid() && Contents() == w
    {
      hide Queue, Filled, Advance, Ahead;
    }

    method ClockRegisters(i: Inputs, loadGnt: bool, storeGnt: bool)
      modifies `curLoadAddr8, `waitResp, `errOut
      ensures curLoadAddr8 == (if fsm.Idle? && i.go then i.start
                               else if loadGnt then Bump(old(curLoadAddr8)) else old(curLoadAddr8))
      ensures waitResp == (loadGnt || storeGnt || (i.response.None? && old(waitResp)))
      ensures errOut == (!(fsm.Idle? && i.go) && (old(errOut) || (i.response.Some? && i.response.value.err)))
    {
      if i.go && fsm.Idle? {
        curLoadAddr8 := i.start;
      } else if loadGnt {
        curLoadAddr8 := Bump(curLoadAddr8);
      }
      if loadGnt || storeGnt {
        waitResp := true;
      } else if i.response.Some? {
        waitResp := false;
      }
      if fsm.Idle? && i.go {
        errOut := false;
      } else if i.response.Some? && i.response.value.err {
        errOut := true;
      }
    }

    method ClockPointers(i: Inputs, loadGnt: bool, rdEn: bool)
      modifies `rdPtr, `reqPtr, `capPtr, `shdwPtr
      ensures Ptrs() == AdvancePointers(old(Ptrs()), rdEn, loadGnt, Answers(i), i.lookup.Some?)
    {
      if rdEn {
        rdPtr := Advance(rdPtr);
      }
      if loadGnt {
        reqPtr := Advance(reqPtr);
      }
      if Answers(i) {
        capPtr := Advance(capPtr);
      }
      if i.lookup.Some? {
        shdwPtr := Advance(shdwPtr);
      }
    }
  }

  /** How the pointers' distances move, whichever of them advance. */
  lemma AdvanceAll(rd: nat, req: nat, cap: nat, shdw: nat)
    requires rd < PTR_RANGE && req < PTR_RANGE && cap < PTR_RANGE && shdw < PTR_RANGE
    ensures Moves(req, rd) && Moves(cap, rd) && Moves(shdw, rd)
  {
    MovesAlways(req, rd);
    MovesAlways(cap, rd);
    MovesAlways(shdw, rd);
  }

  ghost predicate Moves(ptr: nat, rd: nat) {
    && Advance(ptr) < PTR_RANGE && Advance(rd) < PTR_RANGE
    && (ptr == rd <==> Ahead(ptr, rd) == 0)
    && (0 <= Ahead(ptr, rd) <= FIFO_SIZE ==> Ahead(Advance(ptr), rd) == Ahead(ptr, rd) + 1)
    && (1 <= Ahead(ptr, rd) ==> Ahead(ptr, Advance(rd)) == Ahead(ptr, rd) - 1)
    && (1 <= Ahead(ptr, rd) <= FIFO_SIZE ==> Ahead(Advance(ptr), Advance(rd)) == Ahead(ptr, rd))
  }

  lemma MovesAlways(ptr: nat, rd: nat)
    requires ptr < PTR_RANGE && rd < PTR_RANGE
    ensures Moves(ptr, rd)
  {
  }
}
