/**
  A run in which a CPU update is lost: from reset, a walk over granule 0 loads it, a misaligned store
  that begins in granule 0 and ends in granule 1 is snooped at granule 1 only, and the walk writes the
  old data of granule 0 back over the store.
 */
module TbreMissed {
  import opened Options
  import opened TbreModel
  import opened TbreRefused
  import opened TbreSafety

  /** The two parts of the store leave v and w; data stores clear the tag. */
  function Split(v: nat, w: nat): Cycle {
    QUIET.(store := Some(CpuStore(1, Some(Granule(false, w)), Some(Granule(false, v)))))
  }

  const DONE := QUIET.(response := Some(Response(true, false, Granule(false, 0))))

  /** The whole run, for granule contents x. */
  function Lossy(x: Granule, v: nat, w: nat): seq<Cycle> {
    [GO, QUIET, GRANT, Answer(x), Split(v, w), REVOKED, QUIET, GRANT, DONE]
  }

  function Held(x: Granule): Entry { Entry(0, true, Some(Loaded(false, x)), None) }
  function Unseen(x: Granule): Visit { Visit(0, x, false, false, false, true, false, false) }

  function Stores(m: seq<Granule>, v: nat, w: nat): seq<Granule>
    requires |m| == MEMORY
  {
    m[0 := Granule(false, v)][1 := Granule(false, w)]
  }

  lemma Answered(m: seq<Granule>, x: Granule)
    ensures
      var s := During(m, Walk(Draining, NoReq, 1, true, false, [Entry(0, true, None, None)], 0, 0), LoadPending(x),
                      [Unseen(x).(missed := false)], 0);
      && Shaped(s.w) && Legal(s, Answer(x))
      && Step(s, Answer(x))
         == During(m, Walk(Draining, NoReq, 1, false, false, [Held(x)], 1, 0), Free, [Unseen(x).(missed := false)], 0)
  {
  }

  lemma Missed(m: seq<Granule>, x: Granule, v: nat, w: nat)
    requires |m| == MEMORY
    ensures
      var s := During(m, Walk(Draining, NoReq, 1, false, false, [Held(x)], 1, 0), Free,
                      [Unseen(x).(missed := false)], 0);
      && Shaped(s.w) && Legal(s, Split(v, w))
      && Step(s, Split(v, w))
         == During(Stores(m, v, w), Walk(Draining, NoReq, 1, false, false, [Held(x)], 1, 0), Free, [Unseen(x)], 0)
  {
  }

  lemma Condemned(m: seq<Granule>, x: Granule)
    ensures
      var s := During(m, Walk(Draining, NoReq, 1, false, false, [Held(x)], 1, 0), Free, [Unseen(x)], 0);
      && Shaped(s.w) && Legal(s, REVOKED)
      && Step(s, REVOKED)
         == During(m, Walk(Draining, NoReq, 1, false, false, [Held(x).(shadow := Some(true))], 1, 1), Free,
                   [Unseen(x).(shadow := true)], 0)
  {
  }

  lemma Wanted(m: seq<Granule>, x: Granule)
    requires x.tag
    ensures
      var s := During(m, Walk(Draining, NoReq, 1, false, false, [Held(x).(shadow := Some(true))], 1, 1), Free,
                      [Unseen(x).(shadow := true)], 0);
      && Shaped(s.w) && Legal(s, QUIET)
      && Step(s, QUIET)
         == During(m, Walk(Draining, StoreReq, 1, false, false, [Held(x).(shadow := Some(true))], 1, 1), Free,
                   [Unseen(x).(shadow := true)], 0)
  {
  }

  /** The state after the engine's store of x, with the granule as a loss on record. */
  function Buried(m: seq<Granule>, x: Granule, w: Walk, bus: Bus): System
    requires |m| == MEMORY
  {
    System(w, bus, WALK_ZERO, m[0 := Granule(false, x.data)], m, [Unseen(x).(shadow := true, cleared := true)], 1,
           map[0 := 0])
  }

  lemma WrittenBack(m: seq<Granule>, x: Granule)
    requires |m| == MEMORY && x.tag
    ensures
      var s := During(m, Walk(Draining, StoreReq, 1, false, false, [Held(x).(shadow := Some(true))], 1, 1), Free,
                      [Unseen(x).(shadow := true)], 0);
      && Shaped(s.w) && Legal(s, GRANT)
      && Step(s, GRANT) == Buried(m, x, Walk(Draining, NoReq, 1, true, false, [], 0, 0), StorePending)
  {
  }

  lemma Ended(m: seq<Granule>, x: Granule)
    requires |m| == MEMORY
    ensures
      var s := Buried(m, x, Walk(Draining, NoReq, 1, true, false, [], 0, 0), StorePending);
      && Shaped(s.w) && Legal(s, DONE)
      && Step(s, DONE) == Buried(m, x, Walk(Idle, NoReq, 1, false, false, [], 0, 0), Free)
  {
  }

  /**
    The walk is back in IDLE and granule 0 holds the old data, without its tag, although the CPU wrote
    other data there during the walk.
   */
  lemma MissedStoreRun(s: System, v: nat, w: nat)
    requires Reset(s) && s.mem[0].tag && v != s.mem[0].data
    ensures
      var x := s.mem[0];
      && LegalRun(s, Lossy(x, v, w))
      && (var e := Run(s, Lossy(x, v, w));
          && e.w.phase.Idle? && e.cpu == Stores(s.mem, v, w) && e.mem == e.cpu[0 := Granule(false, x.data)]
          && UpdateLost(e, 0) && !NoUpdateLost(e))
  {
    hide Step, Legal, Shaped, NoUpdateLost, LegalRun, Run;
    var m, x := s.mem, s.mem[0];
    var cs := Lossy(x, v, w);
    var n := Stores(m, v, w);
    Started(s);
    TbreRefused.Scheduled(m);
    Granted(m, x);
    Answered(m, x);
    Missed(m, x, v, w);
    Condemned(n, x);
    Wanted(n, x);
    WrittenBack(n, x);
    Ended(n, x);
    var s1 := Step(s, cs[0]);
    var s2 := Step(s1, cs[1]);
    var s3 := Step(s2, cs[2]);
    var s4 := Step(s3, cs[3]);
    var s5 := Step(s4, cs[4]);
    var s6 := Step(s5, cs[5]);
    var s7 := Step(s6, cs[6]);
    var s8 := Step(s7, cs[7]);
    var s9 := Step(s8, cs[8]);
    assert forall k | 0 <= k < 9 :: cs[k..] != [] && cs[k..][0] == cs[k] && cs[k..][1..] == cs[k + 1..];
    assert cs[0..] == cs;
    NoMore(s9, cs[9..]);
    RunOn(s8, cs[8..]);
    RunOn(s7, cs[7..]);
    RunOn(s6, cs[6..]);
    RunOn(s5, cs[5..]);
    RunOn(s4, cs[4..]);
    RunOn(s3, cs[3..]);
    RunOn(s2, cs[2..]);
    RunOn(s1, cs[1..]);
    RunOn(s, cs[0..]);
    LossShows(n, x);
  }

  lemma NoMore(s: System, cs: seq<Cycle>)
    requires cs == []
    ensures LegalRun(s, cs) && Run(s, cs) == s
  {
  }

  lemma LossShows(m: seq<Granule>, x: Granule)
    requires |m| == MEMORY && x.data != m[0].data
    ensures
      var e := Buried(m, x, Walk(Idle, NoReq, 1, false, false, [], 0, 0), Free);
      UpdateLost(e, 0) && !NoUpdateLost(e)
  {
    var e := Buried(m, x, Walk(Idle, NoReq, 1, false, false, [], 0, 0), Free);
    assert Buries(e.visits[0]) && At(e, e.visits[0].addr) == 0 && e.visits[0].value.data != e.cpu[0].data;
    assert e.mem[0].data != e.cpu[0].data;
  }
}
