/**
  The parallel prefix bit counter of the ALU: an adder tree of the Brent-Kung form whose entry i ends
  up as the number of ones among bits 0..i.
 */
module PrefixCount {
  import opened Bits

  type Word = w: seq<bool> | |w| == 32 witness seq(32, i => false)

  /** Ones among bits lo..hi-1. */
  function OnesIn(w: Word, lo: nat, hi: nat): nat
    requires hi <= 32
    decreases hi
  {
    if hi <= lo then 0 else OnesIn(w, lo, hi - 1) + if w[hi - 1] then 1 else 0
  }

  lemma {:induction false} OnesJoin(w: Word, lo: nat, mid: nat, hi: nat)
    requires lo <= mid <= hi <= 32
    ensures OnesIn(w, lo, mid) + OnesIn(w, mid, hi) == OnesIn(w, lo, hi)
    decreases hi
  {
    if mid < hi {
      OnesJoin(w, lo, mid, hi - 1);
    }
  }

  lemma {:induction false} OnesAtMost(w: Word, lo: nat, hi: nat)
    requires lo <= hi <= 32
    ensures OnesIn(w, lo, hi) <= hi - lo
    decreases hi
  {
    if lo < hi {
      OnesAtMost(w, lo, hi - 1);
    }
  }

  lemma OnesTwo(w: Word, i: nat)
    requires 1 <= i < 32
    ensures OnesIn(w, i - 1, i + 1) == (if w[i] then 1 else 0) + if w[i - 1] then 1 else 0
  {
    assert OnesIn(w, i - 1, i) == if w[i - 1] then 1 else 0;
  }

  /** After stage s, entry j counts the ones from Start(s, j) up to and including j. */
  function Start(s: nat, j: nat): nat {
    if s >= 7 && j % 4 == 1 && j >= 5 then 0
    else if s >= 6 && j % 8 == 3 && j >= 11 then 0
    else if s >= 5 && (j == 31 || j == 23) then 0
    else if s >= 4 && j % 16 == 15 then j - 15
    else if s >= 3 && j % 8 == 7 then j - 7
    else if s >= 2 && j % 4 == 3 then j - 3
    else if s >= 1 && j % 2 == 1 then j - 1
    else j + 1
  }

  /** The entries below `done` have finished stage s, the others stage s - 1. */
  ghost predicate Counted(a: seq<nat>, w: Word, s: nat, done: nat)
    requires |a| == 32 && 1 <= s <= 7
  {
    forall j | 0 <= j < 32 :: a[j] == OnesIn(w, Start(if j < done then s else s - 1, j), j + 1)
  }

  /** Adding the entry `back` places below joins two adjacent ranges. */
  lemma Combine(a: seq<nat>, w: Word, s: nat, i: nat, back: nat, next: nat)
    requires |a| == 32 && 2 <= s <= 7 && 1 <= back <= i < 32 && i < next && Counted(a, w, s, i)
    requires Start(s - 1, i) == i + 1 - back
    requires Start(s, i - back) == Start(s, i) <= i + 1 - back
    requires forall j | i < j < next && j < 32 :: Start(s, j) == Start(s - 1, j)
    ensures Counted(a[i := a[i - back] + a[i]], w, s, next)
  {
    hide Start, OnesIn;
    OnesJoin(w, Start(s, i), i + 1 - back, i + 1);
  }

  /** Entries a stage does not touch may be counted as done. */
  lemma Skip(a: seq<nat>, w: Word, s: nat, d: nat, next: nat)
    requires |a| == 32 && 1 <= s <= 7 && d <= next && Counted(a, w, s, d)
    requires forall j | d <= j < next && j < 32 :: Start(s, j) == Start(s - 1, j)
    ensures Counted(a, w, s, next)
  {
    hide Start, OnesIn;
  }

  lemma NextStage(a: seq<nat>, w: Word, s: nat)
    requires |a| == 32 && 1 <= s <= 6 && Counted(a, w, s, 32)
    ensures Counted(a, w, s + 1, 0)
  {
    hide Start, OnesIn;
  }

  lemma OddFinished(j: nat)
    requires j < 32 && j % 2 == 1
    ensures Start(7, j) == 0
  {
  }

  /** The counter, with the source's stages. */
  method BitCount(bits: Word) returns (a: array<nat>)
    ensures fresh(a) && a.Length == 32
    ensures forall j | 0 <= j < 32 :: a[j] == OnesIn(bits, 0, j + 1)
  {
    a := new nat[32](i => 0);
    hide OnesIn;
    Stage1(a, bits);
    StridedStage(a, bits, 2, 3, 4, 2);
    StridedStage(a, bits, 3, 7, 8, 4);
    StridedStage(a, bits, 4, 15, 16, 8);
    Stage5(a, bits);
    StridedStage(a, bits, 6, 11, 8, 4);
    StridedStage(a, bits, 7, 5, 4, 2);
    Stage8(a, bits);
  }

  method Stage1(a: array<nat>, bits: Word)
    requires a.Length == 32 && forall j | 0 <= j < 32 :: a[j] == 0
    modifies a
    ensures Counted(a[..], bits, 1, 32)
  {
    Empty(bits, a[..]);
    var i := 1;
    while i < 32
      invariant 1 <= i <= 33 && i % 2 == 1 && Counted(a[..], bits, 1, i)
    {
      hide OnesIn;
      OnesTwo(bits, i);
      a[i] := (if bits[i] then 1 else 0) + if bits[i - 1] then 1 else 0;
      i := i + 2;
    }
  }

  lemma Empty(w: Word, a: seq<nat>)
    requires |a| == 32 && forall j | 0 <= j < 32 :: a[j] == 0
    ensures Counted(a, w, 1, 1)
  {
  }

  /** Which entries a strided stage touches, and how far below it looks. */
  predicate Strided(s: nat, first: nat, step: nat, back: nat) {
    (s, first, step, back) in {(2, 3, 4, 2), (3, 7, 8, 4), (4, 15, 16, 8), (6, 11, 8, 4), (7, 5, 4, 2)}
  }

  /** One strided stage: every step-th entry from first on takes in the entry back places below. */
  method StridedStage(a: array<nat>, bits: Word, s: nat, first: nat, step: nat, back: nat)
    requires a.Length == 32 && Strided(s, first, step, back) && Counted(a[..], bits, s - 1, 32)
    modifies a
    ensures Counted(a[..], bits, s, 32)
  {
    hide OnesIn, Start, Counted, Strided;
    StridedBounds(s, first, step, back);
    NextStage(a[..], bits, s - 1);
    forall j | 0 <= j < first
      ensures Start(s, j) == Start(s - 1, j)
    {
      Untouched(s, first, step, back, j);
    }
    Skip(a[..], bits, s, 0, first);
    var i := first;
    while i < 32
      invariant first <= i < 32 + step && (i - first) % step == 0
      invariant Counted(a[..], bits, s, i)
    {
      Touched(s, first, step, back, i);
      forall j | i < j < i + step && j < 32
        ensures Start(s, j) == Start(s - 1, j)
      {
        Between(i - first, j - first, step);
        Untouched(s, first, step, back, j);
      }
      Combine(a[..], bits, s, i, back, i + step);
      assert a[..][i := a[i - back] + a[i]] == a[..][i := a[..][i - back] + a[..][i]];
      a[i] := a[i - back] + a[i];
      Between(i - first, i - first, step);
      i := i + step;
    }
    Finished(a[..], bits, s, i);
  }

  lemma StridedBounds(s: nat, first: nat, step: nat, back: nat)
    requires Strided(s, first, step, back)
    ensures 2 <= s <= 7 && 1 <= back <= first < 32 && step in {4, 8, 16}
  {
  }

  lemma Between(d: nat, e: nat, step: nat)
    requires step in {4, 8, 16} && d % step == 0 && d <= e < d + step
    ensures (d + step) % step == 0 && (e > d ==> e % step != 0)
  {
    if step == 4 {
      Between4(d, e);
    } else if step == 8 {
      Between8(d, e);
    } else {
      Between16(d, e);
    }
  }

  lemma Between4(d: nat, e: nat)
    requires d % 4 == 0 && d <= e < d + 4
    ensures (d + 4) % 4 == 0 && (e > d ==> e % 4 != 0)
  {
  }

  lemma Between8(d: nat, e: nat)
    requires d % 8 == 0 && d <= e < d + 8
    ensures (d + 8) % 8 == 0 && (e > d ==> e % 8 != 0)
  {
  }

  lemma Between16(d: nat, e: nat)
    requires d % 16 == 0 && d <= e < d + 16
    ensures (d + 16) % 16 == 0 && (e > d ==> e % 16 != 0)
  {
  }

  /** The geometry of the strided stages: the entry itself and the one below it. */
  lemma Touched(s: nat, first: nat, step: nat, back: nat, i: nat)
    requires Strided(s, first, step, back) && first <= i < 32 && (i - first) % step == 0
    ensures back <= i && Start(s - 1, i) == i + 1 - back
    ensures Start(s, i - back) == Start(s, i) <= i + 1 - back
  {
    hide Start;
    if s == 2 {
      Touched2(i);
    } else if s == 3 {
      Touched3(i);
    } else if s == 4 {
      Touched4(i);
    } else if s == 6 {
      Touched6(i);
    } else {
      Touched7(i);
    }
  }

  lemma Touched2(i: nat)
    requires 3 <= i < 32 && (i - 3) % 4 == 0
    ensures Start(1, i) == i - 1 && Start(2, i - 2) == Start(2, i) == i - 3
  {
    if i == 3 {} else if i == 7 {} else if i == 11 {} else if i == 15 {} else if i == 19 {} else if i == 23 {} else {
      assert i == 27 || i == 31;
    }
  }

  lemma Touched3(i: nat)
    requires 7 <= i < 32 && (i - 7) % 8 == 0
    ensures Start(2, i) == i - 3 && Start(3, i - 4) == Start(3, i) == i - 7
  {
    if i == 7 {} else if i == 15 {} else if i == 23 {} else {
      assert i == 31;
    }
  }

  lemma Touched4(i: nat)
    requires 15 <= i < 32 && (i - 15) % 16 == 0
    ensures Start(3, i) == i - 7 && Start(4, i - 8) == Start(4, i) == i - 15
  {
    if i == 15 {} else {
      assert i == 31;
    }
  }

  lemma Touched6(i: nat)
    requires 11 <= i < 32 && (i - 11) % 8 == 0
    ensures Start(5, i) == i - 3 && Start(6, i - 4) == Start(6, i) == 0
  {
    if i == 11 {} else if i == 19 {} else {
      assert i == 27;
    }
  }

  lemma Touched7(i: nat)
    requires 5 <= i < 32 && (i - 5) % 4 == 0
    ensures Start(6, i) == i - 1 && Start(7, i - 2) == Start(7, i) == 0
  {
    if i == 5 {} else if i == 9 {} else if i == 13 {} else if i == 17 {} else if i == 21 {} else if i == 25 {} else {
      assert i == 29;
    }
  }

  lemma Residue4(j: nat, a: nat)
    ensures j >= a && j % 4 == a % 4 ==> (j - a) % 4 == 0
  {
    if j >= a && j % 4 == a % 4 {
      QuotientRemainder(j - a, 4, j / 4 - a / 4, 0);
    }
  }

  lemma Residue8(j: nat, a: nat)
    ensures j >= a && j % 8 == a % 8 ==> (j - a) % 8 == 0
  {
    if j >= a && j % 8 == a % 8 {
      QuotientRemainder(j - a, 8, j / 8 - a / 8, 0);
    }
  }

  lemma Residue16(j: nat, a: nat)
    ensures j >= a && j % 16 == a % 16 ==> (j - a) % 16 == 0
  {
    if j >= a && j % 16 == a % 16 {
      QuotientRemainder(j - a, 16, j / 16 - a / 16, 0);
    }
  }

  lemma Untouched(s: nat, first: nat, step: nat, back: nat, j: nat)
    requires Strided(s, first, step, back) && j < 32 && (j < first || (j - first) % step != 0)
    ensures Start(s, j) == Start(s - 1, j)
  {
    hide Start;
    if s == 2 {
      Untouched2(j);
    } else if s == 3 {
      Untouched3(j);
    } else if s == 4 {
      Untouched4(j);
    } else if s == 6 {
      Untouched6(j);
    } else {
      Untouched7(j);
    }
  }

  lemma Untouched2(j: nat)
    requires j < 3 || (j - 3) % 4 != 0
    ensures Start(2, j) == Start(1, j)
  {
    Residue4(j, 3);
  }

  lemma Untouched3(j: nat)
    requires j < 7 || (j - 7) % 8 != 0
    ensures Start(3, j) == Start(2, j)
  {
    Residue8(j, 7);
  }

  lemma Untouched4(j: nat)
    requires j < 15 || (j - 15) % 16 != 0
    ensures Start(4, j) == Start(3, j)
  {
    Residue16(j, 15);
  }

  lemma Untouched6(j: nat)
    requires j < 11 || (j - 11) % 8 != 0
    ensures Start(6, j) == Start(5, j)
  {
    Residue8(j, 11);
  }

  lemma Untouched7(j: nat)
    requires j < 5 || (j - 5) % 4 != 0
    ensures Start(7, j) == Start(6, j)
  {
    Residue4(j, 5);
  }

  lemma Finished(a: seq<nat>, w: Word, s: nat, i: nat)
    requires |a| == 32 && 1 <= s <= 7 && i >= 32 && Counted(a, w, s, i)
    ensures Counted(a, w, s, 32)
  {
    hide Start, OnesIn;
  }

  method Stage5(a: array<nat>, bits: Word)
    requires a.Length == 32 && Counted(a[..], bits, 4, 32)
    modifies a
    ensures Counted(a[..], bits, 5, 32)
  {
    hide OnesIn;
    assert a[15] == OnesIn(bits, 0, 16) && a[31] == OnesIn(bits, 16, 32) && a[23] == OnesIn(bits, 16, 24) by {
      assert a[..][15] == a[15] && a[..][31] == a[31] && a[..][23] == a[23];
    }
    OnesJoin(bits, 0, 16, 32);
    OnesJoin(bits, 0, 16, 24);
    a[31] := a[15] + a[31];
    a[23] := a[15] + a[23];
  }

  lemma OnesStep(w: Word, i: nat)
    requires i < 32
    ensures OnesIn(w, 0, i + 1) == OnesIn(w, 0, i) + if w[i] then 1 else 0
  {
  }

  lemma OddEntries(a: seq<nat>, w: Word)
    requires |a| == 32 && Counted(a, w, 7, 32)
    ensures forall j | 0 <= j < 32 && j % 2 == 1 :: a[j] == OnesIn(w, 0, j + 1)
  {
    hide Start, OnesIn;
    forall j | 0 <= j < 32 && j % 2 == 1
      ensures a[j] == OnesIn(w, 0, j + 1)
    {
      OddFinished(j);
    }
  }

  /** The even entries: one bit on top of the finished entry below. */
  method Stage8(a: array<nat>, bits: Word)
    requires a.Length == 32 && Counted(a[..], bits, 7, 32)
    modifies a
    ensures forall j | 0 <= j < 32 :: a[j] == OnesIn(bits, 0, j + 1)
  {
    hide OnesIn, Start, Counted;
    OddEntries(a[..], bits);
    assert forall j | 0 <= j < 32 && j % 2 == 1 :: a[j] == OnesIn(bits, 0, j + 1) by {
      assert forall j | 0 <= j < 32 :: a[j] == a[..][j];
    }
    a[0] := if bits[0] then 1 else 0;
    OnesStep(bits, 0);
    OnesNone(bits);
    var i := 2;
    while i < 32
      invariant 2 <= i <= 32 && i % 2 == 0
      invariant forall j | 0 <= j < 32 && j % 2 == 1 :: a[j] == OnesIn(bits, 0, j + 1)
      invariant forall j | 0 <= j < i :: a[j] == OnesIn(bits, 0, j + 1)
    {
      OnesStep(bits, i);
      a[i] := a[i - 1] + if bits[i] then 1 else 0;
      i := i + 2;
    }
  }

  lemma OnesNone(w: Word)
    ensures OnesIn(w, 0, 0) == 0
  {
  }
}
