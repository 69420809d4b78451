/**
  Words made of bit fields: concatenation, slicing, and the fact that slicing gives each field back.
 */
module BitFields {
  import opened Bits

  /** One field of a word; fields are listed from the least significant upwards. */
  datatype Field = F(width: nat, value: nat)

  predicate Fits(fs: seq<Field>) {
    forall i | 0 <= i < |fs| :: fs[i].value < Pow2(fs[i].width)
  }

  function Offset(fs: seq<Field>, i: nat): nat
    requires i <= |fs|
  {
    if i == 0 then 0 else fs[0].width + Offset(fs[1..], i - 1)
  }

  function Pack(fs: seq<Field>): nat {
    if |fs| == 0 then 0
    else
      ScaleNat(Pack(fs[1..]), fs[0].width);
      Scale(Pack(fs[1..]), fs[0].width) + fs[0].value
  }

  /** `x[lo +: width]`. */
  function Slice(x: nat, lo: nat, width: nat): nat {
    Low(Shr(x, lo), width)
  }

  lemma PackStep(fs: seq<Field>)
    requires |fs| > 0 && Fits(fs)
    ensures Shr(Pack(fs), fs[0].width) == Pack(fs[1..]) && Low(Pack(fs), fs[0].width) == fs[0].value
  {
    hide Shr, Low, Scale, Pow2;
    ScaleNat(Pack(fs[1..]), fs[0].width);
    SplitUnique(Pack(fs), fs[0].width, Pack(fs[1..]), fs[0].value);
  }

  /** Slicing at a field's offset gives the field. */
  lemma {:induction false} SlicePack(fs: seq<Field>, i: nat)
    requires i < |fs| && Fits(fs)
    ensures Slice(Pack(fs), Offset(fs, i), fs[i].width) == fs[i].value
  {
    hide Shr, Low, Scale, Pow2;
    PackStep(fs);
    if i == 0 {
      ShrNone(Pack(fs));
    } else {
      SlicePack(fs[1..], i - 1);
      ShrTwice(Pack(fs), fs[0].width, Offset(fs[1..], i - 1));
    }
  }

  lemma {:induction false} OffsetStep(fs: seq<Field>, i: nat)
    requires i < |fs|
    ensures Offset(fs, i + 1) == Offset(fs, i) + fs[i].width
  {
    if i > 0 {
      OffsetStep(fs[1..], i - 1);
    }
  }

  /** The running sums of the widths are where the fields are. */
  predicate Layout(fs: seq<Field>, at: seq<nat>) {
    |at| == |fs| + 1 && at[0] == 0 && forall i | 0 <= i < |fs| :: at[i + 1] == at[i] + fs[i].width
  }

  lemma {:induction false} LayoutIsOffset(fs: seq<Field>, at: seq<nat>, i: nat)
    requires Layout(fs, at) && i <= |fs|
    ensures Offset(fs, i) == at[i]
  {
    if i > 0 {
      LayoutIsOffset(fs, at, i - 1);
      OffsetStep(fs, i - 1);
    }
  }

  /** All fields of a laid-out word at once. */
  lemma SlicesOf(fs: seq<Field>, at: seq<nat>)
    requires Fits(fs) && Layout(fs, at)
    ensures forall i | 0 <= i < |fs| :: Slice(Pack(fs), at[i], fs[i].width) == fs[i].value
    ensures Pack(fs) < Pow2(at[|fs|])
  {
    hide Slice, Pack, Pow2;
    forall i | 0 <= i < |fs|
      ensures Slice(Pack(fs), at[i], fs[i].width) == fs[i].value
    {
      LayoutIsOffset(fs, at, i);
      SlicePack(fs, i);
    }
    LayoutIsOffset(fs, at, |fs|);
    PackBound(fs);
  }

  lemma ShrNone(a: nat)
    ensures Shr(a, 0) == a
  {
  }

  /** A packed word is no wider than its fields together. */
  lemma {:induction false} PackBound(fs: seq<Field>)
    requires Fits(fs)
    ensures Pack(fs) < Pow2(Offset(fs, |fs|))
  {
    hide Shr, Low, Scale, Pow2;
    if |fs| == 0 {
      Pow2Zero();
    } else {
      var w, m := fs[0].width, Offset(fs[1..], |fs| - 1);
      PackBound(fs[1..]);
      ScaleOrder(Pack(fs[1..]) + 1, Pow2(m), w);
      ScaleAdd(Pack(fs[1..]), 1, w);
      ScaleOne(w);
      ScaleOne(m);
      ScaleTwice(1, m, w);
      ScaleOne(m + w);
    }
  }

  lemma Pow2Zero()
    ensures Pow2(0) == 1
  {
  }

  lemma SliceBound(x: nat, lo: nat, width: nat)
    ensures Slice(x, lo, width) < Pow2(width)
  {
    Split(Shr(x, lo), width);
  }
}
