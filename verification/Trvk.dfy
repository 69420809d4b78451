/**
  The load filter's lookup pipeline as a queue of operations: a capability load waits for its
  response, its base indexes the shadow map a cycle later, and two cycles on its verdict is out.
 */
module TrvkModel {
  import opened Options
  import opened CapTypes
  import opened Bounds

  const HEAP_BASE: nat := 0x2001_0000
  const TSMAP_SIZE: nat := 1024
  const MAP_WORDS: nat := 2048 // tsmap_addr_o has bits 15:5 of the pointer

  type Word = w: seq<bool> | |w| == 32 witness seq(32, k => false)
  type ShadowMap = m: seq<Word> | |m| == MAP_WORDS witness seq(MAP_WORDS, j => seq(32, k => false))

  /** A loaded, tagged capability with its address. */
  datatype Probe = Probe(cap: RegCap, addr: U32)

  /** Its granule in the heap, counted with 32-bit wrap-around. */
  function HeapGranule(p: Probe): nat {
    var base := Base32(p.cap, p.addr);
    (if base >= HEAP_BASE then base - HEAP_BASE else base + 0x1_0000_0000 - HEAP_BASE) / 8
  }

  predicate Sealing(c: CPerms) { !c.b4 && !c.b3 && (c.b2 || c.b1 || c.b0) }

  function MapWord(p: Probe): (w: nat)
    ensures w < MAP_WORDS
  {
    HeapGranule(p) / 32 % MAP_WORDS
  }

  function MapBit(p: Probe): (b: nat)
    ensures b < 32
  {
    HeapGranule(p) % 32
  }

  /** Inside the map's range, and not a sealing capability. */
  predicate InRange(p: Probe) { HeapGranule(p) / 32 <= TSMAP_SIZE && !Sealing(p.cap.cperms) }

  /** The lookup's verdict. */
  predicate Revoked(p: Probe, m: ShadowMap) {
    InRange(p) && m[MapWord(p)][MapBit(p)]
  }

  /**
    The lookup indexes the granule of the capability's true base. The range check admits one word of
    32 granules beyond the TSMAP_SIZE words of the map.
   */
  lemma LookupOfBounds(p: Probe, base: U32, top: nat)
    requires Encodes(p.cap, p.addr, base, top)
    ensures base >= HEAP_BASE ==> HeapGranule(p) == (base - HEAP_BASE) / 8
    ensures InRange(p)
       <==> base >= HEAP_BASE && (base - HEAP_BASE) / 8 < 32 * (TSMAP_SIZE + 1) && !Sealing(p.cap.cperms)
    ensures InRange(p) ==> MapWord(p) <= TSMAP_SIZE
  {
    hide Encodes, Base32, Sealing;
    Decode(p.cap, p.addr, base, top);
    var g := HeapGranule(p);
    if base >= HEAP_BASE {
    } else {
      assert base + 0x1_0000_0000 - HEAP_BASE >= 0xDFFF_0000;
      assert g >= 0xDFFF_0000 / 8;
    }
    WordOf(g);
  }

  lemma WordOf(g: nat)
    ensures g / 32 <= TSMAP_SIZE <==> g < 32 * (TSMAP_SIZE + 1)
    ensures g / 32 <= TSMAP_SIZE ==> g / 32 % MAP_WORDS == g / 32
  {
  }

  /** Shadow words are 32 granules; wrap-around puts addresses below the heap out of range. */
  lemma HeapOnly(p: Probe)
    ensures Base32(p.cap, p.addr) < HEAP_BASE ==> HeapGranule(p) / 32 > TSMAP_SIZE
  {
    hide Base32;
  }

  lemma SealingPerms(c: CPerms)
    ensures Sealing(c) <==> ExpandPerms(c).us || ExpandPerms(c).se || ExpandPerms(c).u0
  {
  }

  /**
    The verdict: a loaded capability is revoked exactly when its true base lies in the heap the map
    covers, it has none of US, SE and U0, and the bit of its granule, granule modulo 32 of word granule
    divided by 32, is set.
   */
  lemma RevokedExactly(p: Probe, m: ShadowMap, base: U32, top: nat)
    requires Encodes(p.cap, p.addr, base, top)
    ensures
      var perms := ExpandPerms(p.cap.cperms);
      Revoked(p, m) <==>
        && base >= HEAP_BASE && (base - HEAP_BASE) / 8 / 32 <= TSMAP_SIZE
        && !perms.us && !perms.se && !perms.u0
        && m[(base - HEAP_BASE) / 8 / 32][(base - HEAP_BASE) / 8 % 32]
  {
    hide Encodes, Sealing, ExpandPerms, HeapGranule, MapWord, MapBit, Base32;
    Decode(p.cap, p.addr, base, top);
    SealingPerms(p.cap.cperms);
    if base < HEAP_BASE {
      HeapOnly(p);
    } else {
      GranuleOf(p, base);
    }
  }

  /** Which word and bit are read for a base in the heap. */
  lemma GranuleOf(p: Probe, base: nat)
    requires Base32(p.cap, p.addr) == base >= HEAP_BASE
    ensures
      var g := (base - HEAP_BASE) / 8;
      HeapGranule(p) == g && MapBit(p) == g % 32 && (g / 32 <= TSMAP_SIZE ==> MapWord(p) == g / 32)
  {
    hide Base32;
    WordOf((base - HEAP_BASE) / 8);
  }

  /** An operation just loaded; without a probe there is nothing to revoke. */
  datatype Op = Op(cpu: bool, reg: nat, probe: Option<Probe>)
  datatype Verdict = Verdict(cpu: bool, reg: nat, revoked: bool)

  /** waiting: the register of a reserved load without response. */
  datatype Pipeline = Pipeline(waiting: Option<nat>, s0: Option<Op>, s1: Option<Verdict>, s2: Option<Verdict>)

  datatype Response =
    | Cpu(err: bool, cap: RegCap, addr: U32)
    | Tbre(isWrite: bool, err: bool, cap: RegCap, addr: U32)

  datatype Inputs = Inputs(reserve: Option<nat>, response: Option<Response>, map_: ShadowMap)

  function ProbeOf(r: Response): Option<Probe> {
    if !r.err && r.cap.valid then Some(Probe(r.cap, r.addr)) else None
  }

  function Arrival(waiting: Option<nat>, i: Inputs): Option<Op> {
    match i.response
    case Some(Cpu(err, cap, addr)) =>
      if waiting.Some? then Some(Op(true, waiting.value, ProbeOf(i.response.value))) else None
    case Some(Tbre(isWrite, err, cap, addr)) =>
      if !isWrite then Some(Op(false, 0, ProbeOf(i.response.value))) else None
    case None => None
  }

  predicate CpuAnswers(i: Inputs) { i.response.Some? && i.response.value.Cpu? }

  function Judge(op: Op, m: ShadowMap): Verdict {
    Verdict(op.cpu, op.reg, op.probe.Some? && Revoked(op.probe.value, m))
  }

  /** One clock edge. */
  function Next(p: Pipeline, i: Inputs): Pipeline {
    Pipeline(
      if i.reserve.Some? then i.reserve else if CpuAnswers(i) then None else p.waiting,
      Arrival(p.waiting, i),
      if p.s0.Some? then Some(Judge(p.s0.value, i.map_)) else None,
      p.s1)
  }

  /** A response that brought a tagged capability, which the map read a cycle later revokes. */
  predicate Condemned(err: bool, cap: RegCap, addr: U32, m: ShadowMap) {
    !err && cap.valid && Revoked(Probe(cap, addr), m)
  }

  /**
    A response's verdict is out after two more edges, for the register the load was reserved for, or for
    the revocation engine if it was one of its loads; responses to the engine's stores, and to the core
    without a reservation, give none.
   */
  lemma VerdictOut(p: Pipeline, i0: Inputs, i1: Inputs, i2: Inputs)
    ensures
      Next(Next(Next(p, i0), i1), i2).s2
      == match i0.response
         case None => None
         case Some(Cpu(err, cap, addr)) =>
           if p.waiting.Some? then Some(Verdict(true, p.waiting.value, Condemned(err, cap, addr, i1.map_))) else None
         case Some(Tbre(isWrite, err, cap, addr)) =>
           if isWrite then None else Some(Verdict(false, 0, Condemned(err, cap, addr, i1.map_)))
  {
    hide Revoked;
  }
}
