/**
  A run in which a refused CPU store spares a revoked capability: from reset, a walk over granule 0,
  a store to it that a capability check stops, and the walk back in IDLE with the tag still set.
 */
module TbreRefused {
  import opened Options
  import opened TbreModel
  import opened TbreSafety

  const WALK_ZERO := Registers(0, 0, 0)
  const QUIET := Cycle(false, false, WALK_ZERO, false, None, None, None)
  const GO := QUIET.(go := true)
  const GRANT := QUIET.(granted := true)
  const REFUSED := QUIET.(store := Some(CpuStore(0, None, None)))
  const REVOKED := QUIET.(lookup := Some(true))

  function Answer(v: Granule): Cycle { QUIET.(response := Some(Response(false, false, v))) }

  /** The whole run, for granule contents v. */
  function Cycles(v: Granule): seq<Cycle> {
    [GO, QUIET, GRANT, Answer(v), REFUSED, REVOKED, QUIET, QUIET]
  }

  function Req(v: Granule): Entry { Entry(0, false, Some(Loaded(false, v)), None) }
  function Seen(v: Granule): Visit { Visit(0, v, false, false, true, false, false, false) }

  function During(m: seq<Granule>, w: Walk, bus: Bus, visits: seq<Visit>, undecided: nat): System {
    System(w, bus, WALK_ZERO, m, m, visits, undecided, map[])
  }

  lemma Started(s: System)
    requires Reset(s)
    ensures Shaped(s.w) && Legal(s, GO)
    ensures Step(s, GO) == During(s.mem, Walk(Loading, NoReq, 0, false, false, [], 0, 0), Free, [], 0)
  {
    assert NextQueue(s.w, ToInputs(GO)) == [];
  }

  lemma Scheduled(m: seq<Granule>)
    ensures
      var s := During(m, Walk(Loading, NoReq, 0, false, false, [], 0, 0), Free, [], 0);
      && Shaped(s.w) && Legal(s, QUIET)
      && Step(s, QUIET) == During(m, Walk(Loading, LoadReq, 0, false, false, [], 0, 0), Free, [], 0)
  {
  }

  lemma Granted(m: seq<Granule>, v: Granule)
    requires |m| == MEMORY && m[0] == v
    ensures
      var s := During(m, Walk(Loading, LoadReq, 0, false, false, [], 0, 0), Free, [], 0);
      && Shaped(s.w) && Legal(s, GRANT)
      && Step(s, GRANT)
         == During(m, Walk(Draining, NoReq, 1, true, false, [Entry(0, true, None, None)], 0, 0), LoadPending(v),
                   [Seen(v).(hit := false)], 0)
  {
  }

  lemma Answered(m: seq<Granule>, v: Granule)
    ensures
      var s := During(m, Walk(Draining, NoReq, 1, true, false, [Entry(0, true, None, None)], 0, 0), LoadPending(v),
                      [Seen(v).(hit := false)], 0);
      && Shaped(s.w) && Legal(s, Answer(v))
      && Step(s, Answer(v))
         == During(m, Walk(Draining, NoReq, 1, false, false, [Req(v).(valid := true)], 1, 0), Free,
                   [Seen(v).(hit := false)], 0)
  {
  }

  lemma Spoiled(m: seq<Granule>, v: Granule)
    requires |m| == MEMORY
    ensures
      var s := During(m, Walk(Draining, NoReq, 1, false, false, [Req(v).(valid := true)], 1, 0), Free,
                      [Seen(v).(hit := false)], 0);
      && Shaped(s.w) && Legal(s, REFUSED)
      && Step(s, REFUSED) == During(m, Walk(Draining, NoReq, 1, false, false, [Req(v)], 1, 0), Free, [Seen(v)], 0)
  {
  }

  lemma Condemned(m: seq<Granule>, v: Granule)
    ensures
      var s := During(m, Walk(Draining, NoReq, 1, false, false, [Req(v)], 1, 0), Free, [Seen(v)], 0);
      && Shaped(s.w) && Legal(s, REVOKED)
      && Step(s, REVOKED)
         == During(m, Walk(Draining, NoReq, 1, false, false, [Req(v).(shadow := Some(true))], 1, 1), Free,
                   [Seen(v).(shadow := true)], 0)
  {
  }

  lemma Dropped(m: seq<Granule>, v: Granule)
    ensures
      var s := During(m, Walk(Draining, NoReq, 1, false, false, [Req(v).(shadow := Some(true))], 1, 1), Free,
                      [Seen(v).(shadow := true)], 0);
      && Shaped(s.w) && Legal(s, QUIET)
      && Step(s, QUIET)
         == During(m, Walk(Draining, NoReq, 1, false, false, [], 0, 0), Free, [Seen(v).(shadow := true)], 1)
  {
  }

  lemma Finished(m: seq<Granule>, v: Granule)
    ensures
      var s := During(m, Walk(Draining, NoReq, 1, false, false, [], 0, 0), Free, [Seen(v).(shadow := true)], 1);
      && Shaped(s.w) && Legal(s, QUIET)
      && Step(s, QUIET)
         == During(m, Walk(Idle, NoReq, 1, false, false, [], 0, 0), Free, [Seen(v).(shadow := true)], 1)
  {
  }

  lemma RunOn(s: System, cs: seq<Cycle>)
    requires cs != [] && Shaped(s.w) && Legal(s, cs[0]) && LegalRun(Step(s, cs[0]), cs[1..])
    ensures LegalRun(s, cs) && Run(s, cs) == Run(Step(s, cs[0]), cs[1..])
  {
    hide Shaped, Legal, Step;
  }

  /**
    The store changes nothing, yet at the end of the walk the granule, which was loaded without error,
    tagged, and with shadow bit 1, still has its tag.
   */
  lemma RefusedStoreRun(s: System)
    requires Reset(s) && s.mem[0].tag
    ensures
      var v := s.mem[0];
      && LegalRun(s, Cycles(v))
      && (var e := Run(s, Cycles(v));
          && e.w.phase.Idle? && e.mem == e.cpu == s.mem && e.mem[0].tag
          && e.visits == [Visit(0, v, false, true, true, false, false, false)])
  {
    hide Step, Legal, Shaped;
    var m, v := s.mem, s.mem[0];
    var cs := Cycles(v);
    Started(s);
    Scheduled(m);
    Granted(m, v);
    Answered(m, v);
    Spoiled(m, v);
    Condemned(m, v);
    Dropped(m, v);
    Finished(m, v);
    var s1 := Step(s, cs[0]);
    var s2 := Step(s1, cs[1]);
    var s3 := Step(s2, cs[2]);
    var s4 := Step(s3, cs[3]);
    var s5 := Step(s4, cs[4]);
    var s6 := Step(s5, cs[5]);
    var s7 := Step(s6, cs[6]);
    var s8 := Step(s7, cs[7]);
    assert LegalRun(s8, cs[8..]) && Run(s8, cs[8..]) == s8;
    assert forall k | 0 <= k < 8 :: cs[k..] != [] && cs[k..][0] == cs[k] && cs[k..][1..] == cs[k + 1..];
    assert cs[0..] == cs;
    RunOn(s7, cs[7..]);
    RunOn(s6, cs[6..]);
    RunOn(s5, cs[5..]);
    RunOn(s4, cs[4..]);
    RunOn(s3, cs[3..]);
    RunOn(s2, cs[2..]);
    RunOn(s1, cs[1..]);
    RunOn(s, cs[0..]);
  }
}
