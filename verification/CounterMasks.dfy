/**
  The masks of the counter registers, bit by bit: what a write can reach in mcountinhibit and in the
  words of a counter of any width.
 */
module CounterMasks {
  import opened PmpLocks
  import opened PmpModel
  import opened PmpWrites

  function Up(m: bv32): bv32 { m << 1 }
  function Fill(x: bv32): bv32 { (x << 1) | 1 }
  function Below(m: bv32): bv32 { m - 1 }

  lemma BitUp(k: nat)
    ensures Bit32(k + 1) == Up(Bit32(k))
  {
  }

  lemma FourUp(k: nat)
    ensures Bit32(k + 4) == Up(Up(Up(Up(Bit32(k)))))
  {
    hide Up, Bit32;
    BitUp(k);
    BitUp(k + 1);
    BitUp(k + 2);
    BitUp(k + 3);
  }

  lemma LastBit()
    ensures Bit32(31) == 0x8000_0000
  {
    FourUp(0);
    FourUp(4);
    FourUp(8);
    FourUp(12);
    FourUp(16);
    FourUp(20);
    FourUp(24);
    BitUp(28);
    BitUp(29);
    BitUp(30);
  }

  lemma {:induction false} NonZero(k: nat)
    requires k < 32
    ensures Bit32(k) != 0
    decreases 32 - k
  {
    hide Up;
    if k == 31 {
      LastBit();
    } else {
      NonZero(k + 1);
      BitUp(k);
      UpZero();
    }
  }

  lemma UpZero()
    ensures Up(0) == 0
  {
  }

  lemma OneUp(m: bv32)
    requires One(m) && Up(m) != 0
    ensures One(Up(m))
  {
  }

  lemma {:induction false} OneBit(k: nat)
    requires k < 32
    ensures One(Bit32(k))
  {
    hide One, Up;
    if k == 0 {
      FirstOne();
    } else {
      OneBit(k - 1);
      BitUp(k - 1);
      NonZero(k);
      OneUp(Bit32(k - 1));
    }
  }

  lemma FirstOne()
    ensures One(1)
  {
  }

  lemma BelowUp(m: bv32)
    ensures Below(Up(m)) == Fill(Below(m))
  {
  }

  lemma FillBit(x: bv32, m: bv32)
    requires One(m) && Up(m) != 0
    ensures And(Fill(x), Up(m)) != 0 <==> And(x, m) != 0
  {
  }

  lemma FillFirst(x: bv32)
    ensures And(Fill(x), 1) != 0
  {
  }

  lemma FirstBits()
    ensures Bit32(0) == 1 && Bit64(0) == 1
  {
  }

  /** 2^c - 1 has the bits below c. */
  lemma {:induction false} OnesBelow(c: nat, k: nat)
    requires c < 32 && k < 32
    ensures And(Below(Bit32(c)), Bit32(k)) != 0 <==> k < c
    decreases c
  {
    FirstBits();
    hide One, Up, Fill, Below, And, Bit32, Bit64;
    if c == 0 {
      NothingBelow(Bit32(k));
    } else {
      BitUp(c - 1);
      BelowUp(Bit32(c - 1));
      if k == 0 {
        FillFirst(Below(Bit32(c - 1)));
      } else {
        BitUp(k - 1);
        NonZero(k);
        OneBit(k - 1);
        FillBit(Below(Bit32(c - 1)), Bit32(k - 1));
        OnesBelow(c - 1, k - 1);
      }
    }
  }

  lemma NothingBelow(m: bv32)
    ensures And(Below(1), m) == 0
  {
  }

  function Inverse(x: bv32): bv32 { !x }

  lemma InverseBit(x: bv32, m: bv32)
    requires One(m)
    ensures Bit(Inverse(x), m) <==> !Bit(x, m)
  {
    hide One, And, Inverse;
    NotZero(m);
    if Bit(x, m) {
      Atomic(x, m);
      InverseClear(x, m);
    } else {
      InverseSet(x, m);
    }
  }

  lemma InverseClear(x: bv32, m: bv32)
    requires And(x, m) == m
    ensures And(Inverse(x), m) == 0
  {
    assert !x & m == 0;
  }

  lemma InverseSet(x: bv32, m: bv32)
    requires And(x, m) == 0
    ensures And(Inverse(x), m) == m
  {
    assert !x & m == m;
  }

  lemma UpSet(x: bv32, m: bv32, x': bv32, m': bv32)
    requires And(x, m) == m && x' == x << 1 && m' == m << 1 && m' != 0
    ensures And(x', m') != 0
  {
  }

  lemma UpClear(x: bv32, m: bv32)
    requires And(x, m) == 0
    ensures And(Up(x), Up(m)) == 0
  {
    assert (x << 1) & (m << 1) == 0;
  }

  lemma UpBit(x: bv32, m: bv32)
    requires One(m) && Up(m) != 0
    ensures And(Up(x), Up(m)) != 0 <==> And(x, m) != 0
  {
    hide One, And;
    if And(x, m) != 0 {
      Atomic(x, m);
      UpSet(x, m, Up(x), Up(m));
    } else {
      UpClear(x, m);
    }
  }

  lemma UpFirst(x: bv32)
    ensures And(Up(x), 1) == 0
  {
  }

  /** Shifting up by one moves every bit up by one. */
  lemma ShiftBit(x: bv32, k: nat)
    requires k < 32
    ensures Bit(Up(x), Bit32(k)) <==> k > 0 && Bit(x, Bit32(k - 1))
  {
    hide One, Up, And;
    if k == 0 {
      UpFirst(x);
    } else {
      BitUp(k - 1);
      NonZero(k);
      OneBit(k - 1);
      UpBit(x, Bit32(k - 1));
    }
  }

  lemma InhibitIs(p: Params)
    ensures InhibitReset(p) == Up(Up(Up(Inverse(Below(Bit32(p.counters))))))
    ensures InhibitMask(p) == Or(InhibitReset(p), 2)
  {
    hide Bit32;
  }

  /**
    mcountinhibit: of its bits, only 0, 2 and those of the implemented counters, 3 upwards, can be
    written; the others read back their reset value, 1 above the counters and 0 in bit 1.
   */
  lemma InhibitBits(p: Params, k: nat)
    requires p.counters <= 29 && k < 32
    ensures Bit(InhibitMask(p), Bit32(k)) <==> k == 1 || k >= p.counters + 3
    ensures Bit(InhibitReset(p), Bit32(k)) <==> k >= p.counters + 3
  {
    InhibitIs(p);
    hide Bit, Bit32, One, Up, Below, Or, Inverse, InhibitMask, InhibitReset;
    var x := Inverse(Below(Bit32(p.counters)));
    OneBit(k);
    ShiftBit(Up(Up(x)), k);
    if k >= 3 {
      ShiftBit(Up(x), k - 1);
      ShiftBit(x, k - 2);
      OneBit(k - 3);
      InverseBit(Below(Bit32(p.counters)), Bit32(k - 3));
      BelowBit(p.counters, k - 3);
    } else if k == 2 {
      ShiftBit(Up(x), 1);
      ShiftBit(x, 0);
    } else if k == 1 {
      ShiftBit(Up(x), 0);
    }
    BitOr(InhibitReset(p), 2, Bit32(k));
    SecondBit(k);
  }

  lemma BelowBit(c: nat, k: nat)
    requires c < 32 && k < 32
    ensures Bit(Below(Bit32(c)), Bit32(k)) <==> k < c
  {
    hide And, Below, Bit32;
    OnesBelow(c, k);
  }

  lemma SecondBit(k: nat)
    requires k < 32
    ensures Bit(2, Bit32(k)) <==> k == 1
  {
    hide One, Up;
    UpOne();
    ShiftBit(1, k);
    if k > 0 {
      FirstBit(k - 1);
    }
  }

  lemma UpOne()
    ensures Up(1) == 2
  {
  }

  lemma FirstBit(k: nat)
    requires k < 32
    ensures Bit(1, Bit32(k)) <==> k == 0
  {
    hide Up, And;
    if k == 0 {
      FirstOnly();
    } else {
      BitUp(k - 1);
      UpFirst(Bit32(k - 1));
      AndSwap(1, Bit32(k));
    }
  }

  lemma FirstOnly()
    ensures And(1, 1) == 1
  {
  }

  lemma AndSwap(x: bv32, y: bv32)
    ensures And(x, y) == And(y, x)
  {
  }

  // ---------------------------------------------------------------- counter widths

  function Up64(y: bv64): bv64 { y << 1 }
  function Above(y: bv64): bv64 { !(y - 1) }
  function Lower(c: bv64): bv32 { (c & 0xFFFF_FFFF) as bv32 }
  function Upper(c: bv64): bv32 { (c >> 32) as bv32 }

  /** A bit of the lower, or of the upper, word of 64 bits. */
  predicate InLower(x: bv32, y: bv64) { y == x as bv64 }
  predicate InUpper(x: bv32, y: bv64) { y == (x as bv64) << 32 }

  lemma Bit64Up(k: nat)
    ensures Bit64(k + 1) == Up64(Bit64(k))
  {
  }

  predicate TopClear(x: bv32) { x & 0x8000_0000 == 0 }

  lemma LowerShift(x: bv32, y: bv64, x': bv32, y': bv64)
    requires InLower(x, y) && TopClear(x) && x' == x << 1 && y' == y << 1
    ensures InLower(x', y')
  {
  }

  lemma UpperShift(x: bv32, y: bv64, x': bv32, y': bv64)
    requires InUpper(x, y) && TopClear(x) && x' == x << 1 && y' == y << 1
    ensures InUpper(x', y')
  {
  }

  lemma ShiftedUp(x: bv32, y: bv64)
    requires TopClear(x)
    ensures InLower(x, y) ==> InLower(Up(x), Up64(y))
    ensures InUpper(x, y) ==> InUpper(Up(x), Up64(y))
  {
    hide InLower, InUpper, TopClear;
    if InLower(x, y) {
      LowerShift(x, y, Up(x), Up64(y));
    }
    if InUpper(x, y) {
      UpperShift(x, y, Up(x), Up64(y));
    }
  }

  lemma Crossing(y: bv64)
    requires InLower(0x8000_0000, y)
    ensures InUpper(1, Up64(y))
  {
  }

  lemma FirstLower()
    ensures InLower(1, 1)
  {
  }

  lemma TopOfOne(m: bv32)
    requires One(m) && Up(m) != 0
    ensures TopClear(m)
  {
  }

  /** The next bit, while there is one. */
  lemma BitStep(k: nat)
    requires k < 31
    ensures TopClear(Bit32(k)) && Bit32(k + 1) == Up(Bit32(k)) && Bit64(k + 1) == Up64(Bit64(k))
  {
    hide Up, Up64, One, Bit32, Bit64, TopClear;
    BitUp(k);
    Bit64Up(k);
    OneBit(k);
    NonZero(k + 1);
    TopOfOne(Bit32(k));
  }

  lemma {:induction false} LowerBit(k: nat)
    requires k < 32
    ensures InLower(Bit32(k), Bit64(k))
  {
    FirstBits();
    hide InLower, InUpper, TopClear, Up, Up64, Bit32, Bit64;
    if k == 0 {
      FirstLower();
    } else {
      LowerBit(k - 1);
      BitStep(k - 1);
      ShiftedUp(Bit32(k - 1), Bit64(k - 1));
    }
  }

  lemma {:induction false} UpperBit(k: nat)
    requires k < 32
    ensures InUpper(Bit32(k), Bit64(k + 32))
  {
    FirstBits();
    hide InLower, InUpper, TopClear, Up, Up64, Bit32, Bit64;
    Bit64Up(k + 31);
    if k == 0 {
      LowerBit(31);
      LastBit();
      Crossing(Bit64(31));
    } else {
      UpperBit(k - 1);
      BitStep(k - 1);
      ShiftedUp(Bit32(k - 1), Bit64(k + 31));
    }
  }

  lemma LowerWords(x: bv32, y: bv64)
    requires InLower(x, y) && x != 0
    ensures (!(y - 1) & 0xFFFF_FFFF) as bv32 == !(x - 1) && (!(y - 1) >> 32) as bv32 == 0xFFFF_FFFF
  {
  }

  lemma UpperWords(x: bv32, y: bv64)
    requires InUpper(x, y) && x != 0
    ensures (!(y - 1) & 0xFFFF_FFFF) as bv32 == 0 && (!(y - 1) >> 32) as bv32 == !(x - 1)
  {
  }

  lemma OfLower(x: bv32, y: bv64)
    requires InLower(x, y) && x != 0
    ensures Lower(Above(y)) == Inverse(Below(x)) && Upper(Above(y)) == 0xFFFF_FFFF
  {
    hide InLower;
    LowerWords(x, y);
    assert Above(y) == !(y - 1) && Inverse(Below(x)) == !(x - 1);
  }

  lemma OfUpper(x: bv32, y: bv64)
    requires InUpper(x, y) && x != 0
    ensures Lower(Above(y)) == 0 && Upper(Above(y)) == Inverse(Below(x))
  {
    hide InUpper;
    UpperWords(x, y);
    assert Above(y) == !(y - 1) && Inverse(Below(x)) == !(x - 1);
  }

  lemma MaskWords(p: Params)
    ensures LowMask(p) == Lower(CounterMask(p)) && HighMask(p) == Upper(CounterMask(p))
  {
    hide CounterMask;
  }

  lemma MaskAbove(p: Params)
    ensures p.width < 64 ==> CounterMask(p) == Above(Bit64(p.width))
    ensures p.width >= 64 ==> CounterMask(p) == 0
  {
    hide Bit64;
  }

  lemma NoWords()
    ensures Lower(0) == 0 && Upper(0) == 0
  {
  }

  lemma NoBit(m: bv32)
    requires One(m)
    ensures !Bit(0, m) && Bit(0xFFFF_FFFF, m)
  {
  }

  /** A counter's words: exactly the bits from the implemented width on cannot be written. */
  lemma CounterBits(p: Params, k: nat)
    requires k < 32
    ensures Bit(LowMask(p), Bit32(k)) <==> k >= p.width
    ensures Bit(HighMask(p), Bit32(k)) <==> k + 32 >= p.width
  {
    hide Bit, Bit32, Bit64, One, Below, Above, Inverse, Lower, Upper, LowMask, HighMask, CounterMask, InLower, InUpper;
    OneBit(k);
    NoBit(Bit32(k));
    MaskWords(p);
    MaskAbove(p);
    if p.width < 32 {
      LowerBit(p.width);
      NonZero(p.width);
      OfLower(Bit32(p.width), Bit64(p.width));
      InverseBit(Below(Bit32(p.width)), Bit32(k));
      BelowBit(p.width, k);
    } else if p.width < 64 {
      var c := p.width - 32;
      UpperBit(c);
      NonZero(c);
      OfUpper(Bit32(c), Bit64(p.width));
      InverseBit(Below(Bit32(c)), Bit32(k));
      BelowBit(c, k);
    } else {
      NoWords();
    }
  }

  // ---------------------------------------------------------------- which registers there are

  /**
    The register model's registers by their CSR numbers: configuration words and address registers for the
    implemented regions, event selectors and counters 3 to 31 as far as they are implemented, with the
    reset values that are not zero.
   */
  lemma CsrMap(p: Params, k: nat)
    requires k < REGISTERS
    ensures
      var a, c, v := AddrAt(k), KindAt(p, k), ResetValueAt(p, k);
      && (a == 0x747 ==> c == MSeccfg && v == 0) && (a == 0x757 ==> c == NonImp && v == 0)
      && (0x3A0 <= a < 0x3A4 ==> c == (if p.pmpEnable && a - 0x3A0 < p.regions / 4 then PmpCfg else NonImp) && v == 0)
      && (0x3B0 <= a < 0x3C0 ==> c == (if p.pmpEnable && a - 0x3B0 < p.regions then PmpAddr else NonImp) && v == 0)
      && (a == 0x320 ==> c == Warl(InhibitMask(p)) && v == InhibitReset(p))
      && (0x323 <= a < 0x340 ==>
            if a - 0x320 < p.counters + 3 then c == Warl(0xFFFF_FFFF) && v == Bit32(a - 0x320)
            else c == NonImp && v == 0)
      && (a in {0xB00, 0xB02, 0xB80, 0xB82} ==> c == Base && v == 0)
      && (0xB03 <= a < 0xB20 ==> c == (if a - 0xB00 < p.counters + 3 then Warl(LowMask(p)) else NonImp) && v == 0)
      && (0xB83 <= a < 0xBA0 ==> c == (if a - 0xB80 < p.counters + 3 then Warl(HighMask(p)) else NonImp) && v == 0)
    ensures
      var a := AddrAt(k);
      || a in {0x747, 0x757, 0x320, 0xB00, 0xB02, 0xB80, 0xB82} || 0x3A0 <= a < 0x3A4 || 0x3B0 <= a < 0x3C0
      || 0x323 <= a < 0x340 || 0xB03 <= a < 0xB20 || 0xB83 <= a < 0xBA0
  {
    hide InhibitMask, InhibitReset, LowMask, HighMask, Bit32;
  }
}
