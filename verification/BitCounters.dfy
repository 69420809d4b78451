/**
  The loops behind the bit counts: get_size and count_tz smear a bit across a vector, thermo_dec32
  then reads the resulting thermometer code by halving it. They compute BitLength and TrailingZeros.
 */
module BitCounters {
  import opened Bits
  import opened CapTypes
  import opened BoundsCircuit

  /** A thermometer code: n ones below, zeros above. */
  predicate Thermometer(a: seq<bool>, n: nat) {
    forall i | 0 <= i < |a| :: a[i] <==> i < n
  }

  /** One halving step: the bit below the middle says which half holds the boundary. */
  lemma HalfThermometer(b: seq<bool>, n: nat)
    requires |b| % 2 == 0 && |b| > 0 && n < |b| && Thermometer(b, n)
    ensures
      var h := |b| / 2;
      if b[h - 1] then n >= h && Thermometer(b[h..], n - h) else n < h && Thermometer(b[..h], n)
  {
  }

  /** One narrowing step of thermo_dec32: a count bit and the half to go on with. */
  method Narrow(b32: seq<bool>, ghost n: nat) returns (bit: nat, half: seq<bool>)
    requires |b32| % 2 == 0 && |b32| > 0 && n < |b32| && Thermometer(b32, n)
    ensures bit <= 1 && |half| == |b32| / 2
    ensures bit * |half| <= n < bit * |half| + |half| && Thermometer(half, n - bit * |half|)
  {
    HalfThermometer(b32, n);
    var h := |b32| / 2;
    if b32[h - 1] {
      return 1, b32[h..];
    } else {
      return 0, b32[..h];
    }
  }

  method ThermoDec32(a32: seq<bool>, ghost n: nat) returns (count: nat)
    requires |a32| == 32 && n <= 32 && Thermometer(a32, n)
    ensures count == n
  {
    if a32[31] {
      return 32;
    }
    var c4, b16 := Narrow(a32, n);
    var c3, b8 := Narrow(b16, n - 16 * c4);
    var c2, b4 := Narrow(b8, n - 16 * c4 - 8 * c3);
    var c1, b2 := Narrow(b4, n - 16 * c4 - 8 * c3 - 4 * c2);
    var c0, _ := Narrow(b2, n - 16 * c4 - 8 * c3 - 4 * c2 - 2 * c1);
    count := 16 * c4 + 8 * c3 + 4 * c2 + 2 * c1 + c0;
  }

  /** Bits at and above the highest one are found by position. */
  lemma {:induction false} BitLengthBit(n: nat, i: nat)
    ensures i >= BitLength(n) ==> !Bit(n, i)
    ensures i + 1 == BitLength(n) ==> Bit(n, i)
  {
    if i > 0 {
      BitLengthBit(n / 2, i - 1);
    }
    BitLengthIsLeast(n / 2);
    if n == 0 {
      Pow2Mono(0, i);
      LowSmall(0, i);
    }
  }

  lemma {:induction false} TrailingZerosBit(n: nat, width: nat, i: nat)
    requires i < width
    ensures i < TrailingZeros(n, width) ==> !Bit(n, i)
    ensures i == TrailingZeros(n, width) ==> Bit(n, i)
  {
    if i > 0 {
      TrailingZerosBit(n / 2, width - 1, i - 1);
    }
  }

  lemma {:induction false} TrailingZerosBound(n: nat, width: nat)
    ensures TrailingZeros(n, width) <= width
  {
    if width > 0 {
      TrailingZerosBound(n / 2, width - 1);
    }
  }

  /** get_size: smear the highest one downwards, then count. */
  method GetSize(din: U32) returns (count: nat)
    ensures count == BitLength(din)
  {
    hide Shr, BitLength, Pow2, Bit;
    Pow2Literals();
    BitLengthBound(din, 32);
    ghost var n := BitLength(din);
    var a32 := new bool[32](i => false);
    a32[31] := Bit(din, 31);
    BitLengthBit(din, 31);
    var i := 30;
    while i >= 0
      invariant -1 <= i <= 30
      invariant forall j | i < j < 32 :: a32[j] <==> j < n
    {
      BitLengthBit(din, i);
      a32[i] := a32[i + 1] || Bit(din, i);
      i := i - 1;
    }
    count := ThermoDec32(a32[..], n);
  }

  /** count_tz: smear the lowest one upwards, invert, then count. */
  method CountTz(din: U32) returns (count: nat)
    ensures count == TrailingZeros(din, 32)
  {
    hide Shr, TrailingZeros, Bit;
    TrailingZerosBound(din, 32);
    ghost var n := TrailingZeros(din, 32);
    var a32 := new bool[32](i => false);
    a32[0] := Bit(din, 0);
    TrailingZerosBit(din, 32, 0);
    var i := 1;
    while i < 32
      invariant 1 <= i <= 32
      invariant forall j | 0 <= j < i :: a32[j] <==> j >= n
    {
      TrailingZerosBit(din, 32, i);
      a32[i] := a32[i - 1] || Bit(din, i);
      i := i + 1;
    }
    var inverted := seq(32, j requires 0 <= j < 32 reads a32 => !a32[j]);
    count := ThermoDec32(inverted, n);
  }
}
