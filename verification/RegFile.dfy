/** The capability register file: reservation bits, and the port that clears a revoked tag. */
module RegFileModel {
  import opened Options
  import opened CapTypes

  const NREGS: nat := 32
  const NCAPS: nat := 16 // registers that can hold a capability; register 0 cannot

  datatype Write = Write(reg: nat, cap: RegCap)
  datatype Release = Release(reg: nat, clear: bool)
  datatype Ports = Ports(write: Option<Write>, reserve: Option<nat>, release: Option<Release>)

  datatype File = File(caps: seq<RegCap>, ready: seq<bool>)

  predicate Sized(f: File) { |f.caps| == NREGS && |f.ready| == NREGS }

  predicate Holds(r: nat) { 1 <= r < NCAPS }

  function Untagged(c: RegCap): RegCap { c.(valid := false) }

  predicate Releases(p: Ports, r: nat) { p.release.Some? && p.release.value.reg == r }

  /** Revocation is later in the pipeline than the write port, and wins. */
  function NextCap(c: RegCap, p: Ports, r: nat): RegCap {
    var written := if p.write.Some? && p.write.value.reg == r then p.write.value.cap else c;
    if Releases(p, r) && p.release.value.clear then Untagged(written) else written
  }

  predicate NextReady(ready: bool, p: Ports, r: nat) {
    p.reserve != Some(r) && (Releases(p, r) || ready)
  }

  function NextFile(f: File, p: Ports): (g: File)
    requires Sized(f)
    ensures Sized(g)
  {
    File(seq(NREGS, r requires 0 <= r < NREGS => if Holds(r) then NextCap(f.caps[r], p, r) else f.caps[r]),
         seq(NREGS, r requires 0 <= r < NREGS => if Holds(r) then NextReady(f.ready[r], p, r) else f.ready[r]))
  }

  /** Read port with the release of this very cycle bypassed. */
  function Presented(f: File, p: Ports, r: nat): RegCap
    requires Sized(f) && r < NREGS
  {
    if Releases(p, r) && p.release.value.clear then Untagged(f.caps[r]) else f.caps[r]
  }

  predicate ReadyOut(f: File, p: Ports, r: nat)
    requires Sized(f) && r < NREGS
  {
    f.ready[r] || (r >= 1 && Releases(p, r))
  }

  class RegFile {
    const rfCap: array<RegCap>
    const rdyVec: array<bool>

    ghost predicate Valid()
      reads rfCap, rdyVec
    {
      rfCap.Length == NCAPS && rdyVec.Length == NREGS && rfCap[0] == NULL_REG_CAP
    }

    ghost function Contents(): (f: File)
      requires Valid()
      reads rfCap, rdyVec
      ensures Sized(f)
    {
      File(rfCap[..] + seq(NREGS - NCAPS, r => NULL_REG_CAP), rdyVec[..])
    }

    constructor ()
      ensures Valid() && fresh(rfCap) && fresh(rdyVec)
      ensures Contents() == File(seq(NREGS, r => NULL_REG_CAP), seq(NREGS, r => true))
    {
      rfCap := new RegCap[NCAPS](r => NULL_REG_CAP);
      rdyVec := new bool[NREGS](r => true);
      new;
      assert rdyVec[..] == seq(NREGS, r => true);
    }

    /** Register r's flop and reservation bit. */
    method ClockRegister(p: Ports, r: nat)
      requires Valid() && 1 <= r < NCAPS
      modifies rfCap, rdyVec
      ensures Valid()
      ensures rfCap[..] == old(rfCap[..])[r := NextCap(old(rfCap[r]), p, r)]
      ensures rdyVec[..] == old(rdyVec[..])[r := NextReady(old(rdyVec[r]), p, r)]
    {
      var we := p.write.Some? && p.write.value.reg == r;
      var clr := p.release.Some? && p.release.value.reg == r && p.release.value.clear;
      if clr && we {
        rfCap[r] := Untagged(p.write.value.cap);
      } else if clr {
        rfCap[r] := Untagged(rfCap[r]);
      } else if we {
        rfCap[r] := p.write.value.cap;
      }
      if p.reserve == Some(r) {
        rdyVec[r] := false;
      } else if p.release.Some? && p.release.value.reg == r {
        rdyVec[r] := true;
      }
    }

    /** One clock edge: every capability flop and its reservation bit. */
    method Clock(p: Ports)
      requires Valid()
      modifies rfCap, rdyVec
      ensures Valid() && Contents() == NextFile(old(Contents()), p)
    {
      var r := 1;
      while r < NCAPS
        invariant 1 <= r <= NCAPS && Valid()
        invariant forall k | 0 <= k < NCAPS ::
                    rfCap[k] == if 1 <= k < r then NextCap(old(rfCap[k]), p, k) else old(rfCap[k])
        invariant forall k | 0 <= k < NREGS ::
                    rdyVec[k] == if 1 <= k < r then NextReady(old(rdyVec[k]), p, k) else old(rdyVec[k])
      {
        hide NextCap, NextReady;
        ClockRegister(p, r);
        r := r + 1;
      }
    }
  }
}
