/**
  The butterfly network scatters and its inverse gathers, for every operand and mask, and the two
  operations undo each other as far as the mask allows.
 */
module GatherScatter {
  import opened Bits
  import opened PrefixCount
  import opened Butterfly

  // ---------------------------------------------------------------- routing one bit through one stage

  /** Where the bit that belongs at position p of the mask is while segments have 2^k bits. */
  function Place(m: Word, p: nat, k: nat): int
    requires p < 32
  {
    Scale(Shr(p, k), k) + Low(Rank(m, p), k)
  }

  /** The rotate-and-complement rule sends a right-half bit to the right and a left-half bit to the left. */
  lemma FlagArith(n: nat, a: nat, col: nat, q: nat, left: bool, d: nat)
    requires a < 2 * n && col < n && (q == col || q == col + n)
    requires !left ==> 0 < d <= n && (q == a - d || q == a - d + 2 * n)
    requires left ==> d < n && (q == a + d || q == a + d - 2 * n)
    ensures !Lrotc(n, a, n + col) <==> (q >= n) != left
  {
  }

  /** Remainders of two numbers at distance d. */
  lemma LowShift(r: nat, c: nat, j: nat)
    requires r <= c && c - r < Pow2(j)
    ensures Low(r, j) == Low(c, j) - (c - r) || Low(r, j) == Low(c, j) - (c - r) + Pow2(j)
  {
    hide Low, Shr, Scale, Pow2;
    Split(c, j);
    var a, d := Low(c, j), c - r;
    if a >= d {
      SplitUnique(r, j, Shr(c, j), a - d);
    } else {
      ScaleAdd(Shr(c, j), -1, j);
      ScaleAdd(1, -1, j);
      ScaleZero(j);
      ScaleOne(j);
      assert Shr(c, j) >= 1;
      SplitUnique(r, j, Shr(c, j) - 1, a - d + Pow2(j));
    }
  }

  /** Ranks inside a segment, on either side of its middle. */
  lemma RankNearMiddle(m: Word, p: nat, mid: nat, n: nat)
    requires p < 32 && m[p] && mid <= 32 && mid - n <= p < mid + n
    ensures p < mid ==> Rank(m, p) < Rank(m, mid) <= Rank(m, p) + n
    ensures p >= mid ==> Rank(m, mid) <= Rank(m, p) < Rank(m, mid) + n
  {
    hide OnesIn;
    if p < mid {
      OnesJoin(m, 0, p, mid);
      OnesJoin(m, p, p + 1, mid);
      OnesAtMost(m, p, mid);
      OneAt(m, p);
    } else {
      OnesJoin(m, 0, mid, p);
      OnesAtMost(m, mid, p);
    }
  }

  lemma OneAt(m: Word, p: nat)
    requires p < 32 && m[p]
    ensures OnesIn(m, p, p + 1) == 1
  {
    assert OnesIn(m, p, p) == 0;
  }

  /** The geometry of a routed bit: same segment as p, column given by the rank. */
  lemma PlaceGeometry(m: Word, p: nat, k: nat)
    requires p < 32 && k <= 4
    ensures
      var b, r := Place(m, p, k + 1), Rank(m, p);
      && 0 <= b < 32 && Shr(b, k + 1) == Shr(p, k + 1)
      && Low(b, k) == Low(r, k) && Low(r, k) < Pow2(k)
      && Low(r, k + 1) == Low(r, k) + (if InLeft(k, b) then Pow2(k) else 0)
      && Place(m, p, k) == Scale(Shr(p, k + 1), k + 1) + (if InLeft(k, p) then Pow2(k) else 0) + Low(r, k)
      && b == Scale(Shr(p, k + 1), k + 1) + Low(r, k + 1)
  {
    hide Low, Shr, Scale, Pow2, OnesIn;
    var s, r := Shr(p, k + 1), Rank(m, p);
    var b := Place(m, p, k + 1);
    Split(r, k + 1);
    ScaleNat(s, k + 1);
    SplitUnique(b, k + 1, s, Low(r, k + 1));
    UnitsBelow(p, k + 1);
    PowersTo32(k + 1);
    ScaleOrder(s + 1, Pow2(5 - (k + 1)), k + 1);
    ScaleAdd(s, 1, k + 1);
    ScaleOne(k + 1);
    BitPlace(b, k);
    LowLow(b, k, k + 1);
    LowLow(r, k, k + 1);
    BitPlace(p, k);
    var u := Shr(p, k);
    ScaleAdd(u / 2 * 2, u % 2, k);
    ScaleTwice(u / 2, 1, k);
    ScaleByTwo(u / 2);
    ScaleOne(k);
    ScaleZero(k);
    BitPlace(r, k);
  }

  /** Positions relative to the middle of the segment. */
  lemma SegmentSides(p: nat, k: nat)
    requires p < 32 && k <= 4
    ensures Middle(k, p) - Pow2(k) <= p < Middle(k, p) + Pow2(k) && Middle(k, p) <= 32
    ensures InLeft(k, p) <==> p >= Middle(k, p)
  {
    hide Low, Shr, Scale, Pow2;
    Split(p, k + 1);
    BitPlace(p, k);
    Doubled(k);
    MiddleIn(k, p);
  }

  /** Stage k moves the bit for p from its place in the wide segment to its place in the narrow one. */
  lemma RouteStep(m: Word, p: nat, k: nat)
    requires p < 32 && m[p] && k <= 4
    ensures 0 <= Place(m, p, k + 1) < 32 && Route(m, k, Place(m, p, k + 1)) == Place(m, p, k)
  {
    hide Low, Shr, Scale, Pow2, OnesIn, Lrotc, Rank;
    var b, r := Place(m, p, k + 1), Rank(m, p);
    PlaceGeometry(m, p, k);
    SegmentSides(p, k);
    var c := Rank(m, Middle(k, p));
    RankNearMiddle(m, p, Middle(k, p), Pow2(k));
    Doubled(k);
    Split(c, k + 1);
    if r <= c {
      LowShift(r, c, k + 1);
    } else {
      LowShift(c, r, k + 1);
    }
    FlagArith(Pow2(k), Low(c, k + 1), Low(r, k), Low(r, k + 1), InLeft(k, p), if InLeft(k, p) then r - c else c - r);
  }

  lemma PlaceEnds(m: Word, p: nat)
    requires p < 32
    ensures Place(m, p, 0) == p && Place(m, p, 5) == Rank(m, p) < 32
  {
    hide OnesIn;
    Pow2Literals();
    LowSmall(p, 5);
    OnesAtMost(m, 0, p);
    LowSmall(Rank(m, p), 5);
    ScaleZero(5);
  }

  // ---------------------------------------------------------------- the two networks

  /** While scattering: data bit Rank(p) is on its way to p. */
  ghost predicate Scattering(y: Word, x: Word, m: Word, k: nat)
    requires k <= 5
  {
    forall p | 0 <= p < 32 && m[p] :: 0 <= Place(m, p, k) < 32 && Rank(m, p) < 32 && y[Place(m, p, k)] == x[Rank(m, p)]
  }

  lemma ScatterStage(y: Word, x: Word, m: Word, counts: seq<nat>, k: nat)
    requires k <= 4 && CountsOf(counts, m) && Scattering(y, x, m, k + 1)
    ensures Scattering(Stage(y, LsbReg(counts), MsbReg(counts), k), x, m, k)
  {
    hide Stage, LsbReg, MsbReg, Place, Route, OnesIn, Rank;
    forall p | 0 <= p < 32 && m[p]
      ensures 0 <= Place(m, p, k) < 32
      ensures Stage(y, LsbReg(counts), MsbReg(counts), k)[Place(m, p, k)] == x[Rank(m, p)]
    {
      RouteStep(m, p, k);
      RouteInvolution(m, k, Place(m, p, k + 1));
      StageAt(y, counts, m, k, Place(m, p, k));
    }
  }

  /** While gathering: a bit is set exactly where a set bit under the mask has got to. */
  ghost predicate Gathering(z: Word, x: Word, m: Word, k: nat)
    requires k <= 5
  {
    && (forall p | 0 <= p < 32 && m[p] :: 0 <= Place(m, p, k) < 32 && z[Place(m, p, k)] == x[p])
    && (forall q | 0 <= q < 32 && z[q] :: exists p :: 0 <= p < 32 && m[p] && x[p] && Place(m, p, k) == q)
  }

  lemma GatherStage(z: Word, x: Word, m: Word, counts: seq<nat>, k: nat)
    requires k <= 4 && CountsOf(counts, m) && Gathering(z, x, m, k)
    ensures Gathering(Stage(z, LsbReg(counts), MsbReg(counts), k), x, m, k + 1)
  {
    hide Stage, LsbReg, MsbReg, Place, Route, OnesIn, Rank;
    var z' := Stage(z, LsbReg(counts), MsbReg(counts), k);
    forall p | 0 <= p < 32 && m[p]
      ensures 0 <= Place(m, p, k + 1) < 32 && z'[Place(m, p, k + 1)] == x[p]
    {
      RouteStep(m, p, k);
      StageAt(z, counts, m, k, Place(m, p, k + 1));
    }
    forall q | 0 <= q < 32 && z'[q]
      ensures exists p :: 0 <= p < 32 && m[p] && x[p] && Place(m, p, k + 1) == q
    {
      StageAt(z, counts, m, k, q);
      var p :| 0 <= p < 32 && m[p] && x[p] && Place(m, p, k) == Route(m, k, q);
      RouteStep(m, p, k);
      RouteInvolution(m, k, q);
      RouteInvolution(m, k, Place(m, p, k + 1));
    }
  }

  lemma NetScatters(x: Word, m: Word, counts: seq<nat>)
    requires CountsOf(counts, m)
    ensures
      var r := ButterflyNet(x, m, LsbReg(counts), MsbReg(counts));
      forall p | 0 <= p < 32 :: Rank(m, p) < 32 && r[p] == (m[p] && x[Rank(m, p)])
  {
    hide Stage, LsbReg, MsbReg, Place, OnesIn, Rank;
    var l, h := LsbReg(counts), MsbReg(counts);
    forall p | 0 <= p < 32
      ensures Place(m, p, 0) == p && Place(m, p, 5) == Rank(m, p) < 32
    {
      PlaceEnds(m, p);
    }
    var y4 := Stage(x, l, h, 4);
    ScatterStage(x, x, m, counts, 4);
    var y3 := Stage(y4, l, h, 3);
    ScatterStage(y4, x, m, counts, 3);
    var y2 := Stage(y3, l, h, 2);
    ScatterStage(y3, x, m, counts, 2);
    var y1 := Stage(y2, l, h, 1);
    ScatterStage(y2, x, m, counts, 1);
    ScatterStage(y1, x, m, counts, 0);
  }

  lemma NetGathers(x: Word, m: Word, counts: seq<nat>)
    requires CountsOf(counts, m)
    ensures Gathering(InverseNet(x, m, LsbReg(counts), MsbReg(counts)), x, m, 5)
  {
    hide Stage, LsbReg, MsbReg, Place, OnesIn, Rank;
    var l, h := LsbReg(counts), MsbReg(counts);
    forall p | 0 <= p < 32
      ensures Place(m, p, 0) == p
    {
      PlaceEnds(m, p);
    }
    var z0 := AndW(x, m);
    assert Gathering(z0, x, m, 0);
    var z1 := Stage(z0, l, h, 0);
    GatherStage(z0, x, m, counts, 0);
    var z2 := Stage(z1, l, h, 1);
    GatherStage(z1, x, m, counts, 1);
    var z3 := Stage(z2, l, h, 2);
    GatherStage(z2, x, m, counts, 2);
    var z4 := Stage(z3, l, h, 3);
    GatherStage(z3, x, m, counts, 3);
    GatherStage(z4, x, m, counts, 4);
  }

  // ---------------------------------------------------------------- the bit-serial definitions, by position

  lemma OnesFirst(m: Word, i: nat, p: nat)
    requires i <= p <= 32
    ensures i == p ==> OnesIn(m, i, p) == 0
    ensures i < p ==> OnesIn(m, i, p) == (if m[i] then 1 else 0) + OnesIn(m, i + 1, p)
  {
    if i < p {
      OnesJoin(m, i, i + 1, p);
      assert OnesIn(m, i, i) == 0;
    }
  }

  lemma ScatterStep(x: Word, m: Word, i: nat, j: nat)
    requires j <= i < 32
    ensures
      var r, rest := ScatterFrom(x, m, i, j), ScatterFrom(x, m, i + 1, if m[i] then j + 1 else j);
      r[0] == (m[i] && x[j]) && r[1..] == rest
  {
  }

  lemma {:induction false} ScatterAt(x: Word, m: Word, i: nat, j: nat, p: nat)
    requires j <= i <= p < 32
    ensures j + OnesIn(m, i, p) < 32
    ensures ScatterFrom(x, m, i, j)[p - i] == (m[p] && x[j + OnesIn(m, i, p)])
    decreases 32 - i
  {
    hide OnesIn, ScatterFrom;
    OnesAtMost(m, i, p);
    OnesFirst(m, i, p);
    ScatterStep(x, m, i, j);
    if i < p {
      ScatterAt(x, m, i + 1, if m[i] then j + 1 else j, p);
      assert ScatterFrom(x, m, i, j)[p - i] == ScatterFrom(x, m, i, j)[1..][p - (i + 1)];
    }
  }

  lemma {:induction false} GatherAt(x: Word, m: Word, i: nat, p: nat)
    requires i <= p < 32 && m[p]
    ensures OnesIn(m, i, p) < |GatherFrom(x, m, i)| && GatherFrom(x, m, i)[OnesIn(m, i, p)] == x[p]
    decreases 32 - i
  {
    hide OnesIn;
    OnesFirst(m, i, p);
    if i < p {
      GatherAt(x, m, i + 1, p);
    }
  }

  /** Every gathered bit comes from some position under the mask. */
  lemma {:induction false} GatherFromWhere(x: Word, m: Word, i: nat, k: nat) returns (p: nat)
    requires i <= 32 && k < |GatherFrom(x, m, i)|
    ensures i <= p < 32 && m[p] && OnesIn(m, i, p) == k && GatherFrom(x, m, i)[k] == x[p]
    decreases 32 - i
  {
    hide OnesIn;
    if m[i] && k == 0 {
      p := i;
    } else {
      p := GatherFromWhere(x, m, i + 1, if m[i] then k - 1 else k);
    }
    OnesFirst(m, i, p);
  }

  // ---------------------------------------------------------------- main results

  /** bdecompress: the network computes the bit-serial scatter. */
  lemma ButterflyIsScatter(x: Word, m: Word, counts: seq<nat>)
    requires CountsOf(counts, m)
    ensures ButterflyNet(x, m, LsbReg(counts), MsbReg(counts)) == Scatter(x, m)
  {
    hide ButterflyNet, LsbReg, MsbReg, ScatterFrom, OnesIn;
    var r := ButterflyNet(x, m, LsbReg(counts), MsbReg(counts));
    NetScatters(x, m, counts);
    forall p | 0 <= p < 32
      ensures r[p] == Scatter(x, m)[p]
    {
      ScatterAt(x, m, 0, 0, p);
    }
  }

  /** bcompress: the inverse network computes the bit-serial gather. */
  lemma InverseIsGather(x: Word, m: Word, counts: seq<nat>)
    requires CountsOf(counts, m)
    ensures InverseNet(x, m, LsbReg(counts), MsbReg(counts)) == Gather(x, m)
  {
    hide InverseNet, LsbReg, MsbReg, GatherFrom, OnesIn, Place;
    var z := InverseNet(x, m, LsbReg(counts), MsbReg(counts));
    NetGathers(x, m, counts);
    forall q | 0 <= q < 32
      ensures z[q] == Gather(x, m)[q]
    {
      if q < |GatherFrom(x, m, 0)| {
        var p := GatherFromWhere(x, m, 0, q);
        PlaceEnds(m, p);
      } else if z[q] {
        var p :| 0 <= p < 32 && m[p] && x[p] && Place(m, p, 5) == q;
        PlaceEnds(m, p);
        GatherAt(x, m, 0, p);
      }
    }
  }

  /** Both cycles of the instruction: count, store the counts, then rewrite the operand stage by stage. */
  method BCompressOrDecompress(x: Word, m: Word, decompress: bool) returns (r: Word)
    ensures r == if decompress then Scatter(x, m) else Gather(x, m)
  {
    hide Stage, Scatter, Gather, OnesIn, LsbReg, MsbReg;
    var counts := BitCount(m);
    var lsb, msb := LsbReg(counts[..]), MsbReg(counts[..]);
    assert CountsOf(counts[..], m);
    if decompress {
      ButterflyIsScatter(x, m, counts[..]);
      r := x;
      r := Stage(r, lsb, msb, 4);
      r := Stage(r, lsb, msb, 3);
      r := Stage(r, lsb, msb, 2);
      r := Stage(r, lsb, msb, 1);
      r := Stage(r, lsb, msb, 0);
      r := AndW(r, m);
    } else {
      InverseIsGather(x, m, counts[..]);
      r := AndW(x, m);
      r := Stage(r, lsb, msb, 0);
      r := Stage(r, lsb, msb, 1);
      r := Stage(r, lsb, msb, 2);
      r := Stage(r, lsb, msb, 3);
      r := Stage(r, lsb, msb, 4);
    }
  }

  /** Gathering and scattering back keeps exactly the bits under the mask. */
  lemma ScatterGather(x: Word, m: Word)
    ensures Scatter(Gather(x, m), m) == AndW(x, m)
  {
    hide ScatterFrom, GatherFrom, OnesIn;
    var g := Gather(x, m);
    forall p | 0 <= p < 32
      ensures Scatter(g, m)[p] == AndW(x, m)[p]
    {
      ScatterAt(g, m, 0, 0, p);
      if m[p] {
        GatherAt(x, m, 0, p);
      }
    }
  }

  /** Scattering and gathering back keeps exactly the low popcount(m) bits. */
  lemma GatherScatterBack(x: Word, m: Word)
    ensures forall k | 0 <= k < 32 :: Gather(Scatter(x, m), m)[k] == (k < OnesIn(m, 0, 32) && x[k])
  {
    hide ScatterFrom, GatherFrom, OnesIn;
    var s := Scatter(x, m);
    GatherLength(s, m, 0);
    forall k | 0 <= k < 32
      ensures Gather(s, m)[k] == (k < OnesIn(m, 0, 32) && x[k])
    {
      if k < |GatherFrom(s, m, 0)| {
        var p := GatherFromWhere(s, m, 0, k);
        ScatterAt(x, m, 0, 0, p);
      }
    }
  }

  lemma {:induction false} GatherLength(x: Word, m: Word, i: nat)
    requires i <= 32
    ensures |GatherFrom(x, m, i)| == OnesIn(m, i, 32)
    decreases 32 - i
  {
    if i < 32 {
      GatherLength(x, m, i + 1);
      OnesJoin(m, i, i + 1, 32);
      assert OnesIn(m, i, i) == 0;
    }
  }
}
