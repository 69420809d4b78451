/**
  The two-cycle CRC datapath: a carry-less multiplication with the reversed reciprocal, then one with
  the polynomial. It equals the bit-serial reflected CRC, one shift and conditional xor per bit.
 */
module Crc {

  const CRC32_POLYNOMIAL: bv32 := 0x04c1_1db7
  const CRC32_MU_REV: bv32 := 0xf701_1641
  const CRC32C_POLYNOMIAL: bv32 := 0x1edc_6f41
  const CRC32C_MU_REV: bv32 := 0xdea7_13f1

  function Xor(a: bv32, b: bv32): bv32 { a ^ b }
  function Half(x: bv32): bv32 { x >> 1 }
  function Twice(x: bv32): bv32 { x << 1 }
  predicate Odd(x: bv32) { x & 1 == 1 }
  function If(b: bool, x: bv32): bv32 { if b then x else 0 }

  // ---------------------------------------------------------------- bit-serial definition

  /** Reversal of the 32 bits, by swapping ever larger neighbours. */
  function Rev(x: bv32): bv32 {
    var a := ((x >> 1) & 0x5555_5555) | ((x & 0x5555_5555) << 1);
    var b := ((a >> 2) & 0x3333_3333) | ((a & 0x3333_3333) << 2);
    var c := ((b >> 4) & 0x0f0f_0f0f) | ((b & 0x0f0f_0f0f) << 4);
    var d := ((c >> 8) & 0x00ff_00ff) | ((c & 0x00ff_00ff) << 8);
    (d >> 16) | (d << 16)
  }

  /** One bit of a reflected CRC with reversed polynomial p. */
  function SerialStep(x: bv32, p: bv32): bv32 {
    Xor(Half(x), If(Odd(x), p))
  }

  function Serial(x: bv32, p: bv32, n: nat): bv32
    decreases n
  {
    if n == 0 then x else SerialStep(Serial(x, p, n - 1), p)
  }

  // ---------------------------------------------------------------- the carry-less multiplier

  function ShlN(x: bv32, n: nat): bv32
    decreases n
  {
    if n == 0 then x else ShlN(Twice(x), n - 1)
  }

  function ShrN(x: bv32, n: nat): bv32
    decreases n
  {
    if n == 0 then x else ShrN(Half(x), n - 1)
  }

  /** clmul_and_stage: op_b[i] ? op_a << i : 0 */
  function AndStage(a: bv32, b: bv32): (s: seq<bv32>)
    ensures |s| == 32
  {
    seq(32, i requires 0 <= i < 32 => If(Odd(ShrN(b, i)), ShlN(a, i)))
  }

  /** One level of the xor tree. */
  function XorStage(s: seq<bv32>): (r: seq<bv32>)
    requires |s| % 2 == 0
    ensures |r| == |s| / 2
  {
    seq(|s| / 2, i requires 0 <= i < |s| / 2 => Xor(s[2 * i], s[2 * i + 1]))
  }

  /** clmul_result_raw: the low word of the product. */
  function Clmul(a: bv32, b: bv32): bv32 {
    XorStage(XorStage(XorStage(XorStage(XorStage(AndStage(a, b))))))[0]
  }

  // ---------------------------------------------------------------- the circuit

  datatype Width = Byte | Halfword | Word

  function Bits(w: Width): nat {
    match w
    case Byte => 8
    case Halfword => 16
    case Word => 32
  }

  function UpByte(x: bv32): bv32 { x << 24 }
  function UpHalf(x: bv32): bv32 { x << 16 }
  function DownByte(x: bv32): bv32 { x >> 8 }
  function DownHalf(x: bv32): bv32 { x >> 16 }

  /** {operand_a[n-1:0], 0} */
  function CrcOperand(a: bv32, w: Width): bv32 {
    match w
    case Byte => UpByte(a)
    case Halfword => UpHalf(a)
    case Word => a
  }

  /** operand_a >> n */
  function Remaining(a: bv32, w: Width): bv32 {
    match w
    case Byte => DownByte(a)
    case Halfword => DownHalf(a)
    case Word => 0
  }

  /** What the first cycle leaves in the intermediate register. */
  function FirstCycle(a: bv32, w: Width, muRev: bv32): bv32 {
    Rev(Clmul(CrcOperand(a, w), muRev))
  }

  function SecondCycle(a: bv32, imd: bv32, w: Width, poly: bv32): bv32 {
    Xor(Rev(Clmul(imd, poly)), Remaining(a, w))
  }

  function CrcUnit(a: bv32, w: Width, cpoly: bool): bv32 {
    var poly := if cpoly then CRC32C_POLYNOMIAL else CRC32_POLYNOMIAL;
    var muRev := if cpoly then CRC32C_MU_REV else CRC32_MU_REV;
    SecondCycle(a, FirstCycle(a, w, muRev), w, poly)
  }

  // ---------------------------------------------------------------- facts about single words

  lemma XorAssoc(a: bv32, b: bv32, c: bv32)
    ensures Xor(Xor(a, b), c) == Xor(a, Xor(b, c))
  {
  }

  lemma XorZero(a: bv32)
    ensures Xor(a, 0) == a == Xor(0, a) && Xor(a, a) == 0
  {
  }

  lemma XorComm(a: bv32, b: bv32)
    ensures Xor(a, b) == Xor(b, a)
  {
  }

  lemma Regroup(a: bv32, b: bv32, c: bv32, d: bv32)
    ensures Xor(Xor(a, b), Xor(c, d)) == Xor(Xor(a, c), Xor(b, d))
  {
    hide Xor;
    XorAssoc(a, b, Xor(c, d));
    XorAssoc(b, c, d);
    XorComm(b, c);
    XorAssoc(c, b, d);
    XorAssoc(a, c, Xor(b, d));
  }

  lemma OddXor(x: bv32, y: bv32)
    ensures Odd(Xor(x, y)) <==> Odd(x) != Odd(y)
  {
  }

  lemma HalfXor(x: bv32, y: bv32)
    ensures Half(Xor(x, y)) == Xor(Half(x), Half(y))
  {
  }

  lemma TwiceXor(x: bv32, y: bv32)
    ensures Twice(Xor(x, y)) == Xor(Twice(x), Twice(y))
  {
  }

  lemma IfXor(a: bool, b: bool, p: bv32)
    ensures If(a != b, p) == Xor(If(a, p), If(b, p))
  {
    if a {
      if b {} else {}
    } else {
      if b {} else {}
    }
  }

  lemma IfBoth(a: bool, x: bv32, y: bv32)
    ensures If(a, Xor(x, y)) == Xor(If(a, x), If(a, y))
  {
    if a {} else {}
  }

  lemma EvenOdd(x: bv32)
    ensures x == Xor(Twice(Half(x)), If(Odd(x), 1))
  {
    if Odd(x) {} else {}
  }

  lemma StepTwice(x: bv32)
    ensures !Odd(Twice(x))
  {
  }

  lemma RevXor(x: bv32, y: bv32)
    ensures Rev(Xor(x, y)) == Xor(Rev(x), Rev(y))
  {
  }

  lemma RevShift(x: bv32)
    ensures Rev(x << 1) == Rev(x) >> 1
  {
  }

  lemma RevTwice(x: bv32)
    ensures Rev(Twice(x)) == Half(Rev(x))
  {
    hide Rev;
    RevShift(x);
  }

  lemma RevZero()
    ensures Rev(0) == 0 && Half(0) == 0 && Half(1) == 0 && Odd(1) && !Odd(0)
  {
  }

  /** Rev is reversal: bit i of the result is bit 31 - i. */
  lemma RevBits(x: bv32, i: bv6)
    requires i < 32
    ensures (Rev(x) >> i) & 1 == (x >> (31 - i)) & 1
  {
  }

  // ---------------------------------------------------------------- the tree computes a product

  function Fold(s: seq<bv32>): bv32 {
    if s == [] then 0 else Xor(Fold(s[..|s| - 1]), s[|s| - 1])
  }

  lemma FoldTwo(s: seq<bv32>)
    requires |s| >= 2
    ensures Fold(s) == Xor(Fold(s[..|s| - 2]), Xor(s[|s| - 2], s[|s| - 1]))
  {
    hide Xor;
    var t := s[..|s| - 1];
    assert t[..|t| - 1] == s[..|s| - 2];
    XorAssoc(Fold(s[..|s| - 2]), s[|s| - 2], s[|s| - 1]);
  }

  lemma XorStageLast(s: seq<bv32>)
    requires |s| >= 2 && |s| % 2 == 0
    ensures XorStage(s) == XorStage(s[..|s| - 2]) + [Xor(s[|s| - 2], s[|s| - 1])]
  {
    hide Xor;
  }

  lemma FoldLast(s: seq<bv32>, x: bv32)
    ensures Fold(s + [x]) == Xor(Fold(s), x)
  {
    hide Xor;
    assert (s + [x])[..|s|] == s;
  }

  lemma {:induction false} StageFold(s: seq<bv32>)
    requires |s| % 2 == 0
    ensures Fold(XorStage(s)) == Fold(s)
    decreases |s|
  {
    hide Xor, XorStage;
    if s != [] {
      var n := |s|;
      StageFold(s[..n - 2]);
      XorStageLast(s);
      FoldLast(XorStage(s[..n - 2]), Xor(s[n - 2], s[n - 1]));
      FoldTwo(s);
    }
  }

  /** Sum of the first n terms. */
  function Product(a: bv32, b: bv32, n: nat): bv32
    decreases n
  {
    if n == 0 then 0 else Xor(Product(a, b, n - 1), If(Odd(ShrN(b, n - 1)), ShlN(a, n - 1)))
  }

  lemma {:induction false} FoldIsProduct(a: bv32, b: bv32, n: nat)
    requires n <= 32
    ensures Fold(AndStage(a, b)[..n]) == Product(a, b, n)
    decreases n
  {
    hide Xor, ShlN, ShrN, If, Odd;
    if n > 0 {
      FoldIsProduct(a, b, n - 1);
      var s := AndStage(a, b)[..n];
      assert s[..n - 1] == AndStage(a, b)[..n - 1];
    }
  }

  lemma ClmulIsProduct(a: bv32, b: bv32)
    ensures Clmul(a, b) == Product(a, b, 32)
  {
    hide Xor, AndStage, Product, XorStage;
    var s0 := AndStage(a, b);
    StageFold(s0);
    StageFold(XorStage(s0));
    StageFold(XorStage(XorStage(s0)));
    StageFold(XorStage(XorStage(XorStage(s0))));
    StageFold(XorStage(XorStage(XorStage(XorStage(s0)))));
    FoldOne(XorStage(XorStage(XorStage(XorStage(XorStage(s0))))));
    FoldIsProduct(a, b, 32);
    assert s0[..32] == s0;
  }

  lemma FoldOne(s: seq<bv32>)
    requires |s| == 1
    ensures Fold(s) == s[0]
  {
    assert s[..0] == [];
    XorZero(s[0]);
  }

  lemma {:induction false} ShlXor(x: bv32, y: bv32, n: nat)
    ensures ShlN(Xor(x, y), n) == Xor(ShlN(x, n), ShlN(y, n))
    decreases n
  {
    hide Xor, Twice;
    if n > 0 {
      TwiceXor(x, y);
      ShlXor(Twice(x), Twice(y), n - 1);
    }
  }

  lemma {:induction false} ShlTwice(x: bv32, n: nat)
    ensures ShlN(Twice(x), n) == Twice(ShlN(x, n))
    decreases n
  {
    hide Twice;
    if n > 0 {
      ShlTwice(Twice(x), n - 1);
    }
  }

  lemma {:induction false} ProductXor(x: bv32, y: bv32, b: bv32, n: nat)
    ensures Product(Xor(x, y), b, n) == Xor(Product(x, b, n), Product(y, b, n))
    decreases n
  {
    hide Xor, If, Odd, ShlN, ShrN;
    XorZero(0);
    if n > 0 {
      var o := Odd(ShrN(b, n - 1));
      ProductXor(x, y, b, n - 1);
      ShlXor(x, y, n - 1);
      IfBoth(o, ShlN(x, n - 1), ShlN(y, n - 1));
      Regroup(Product(x, b, n - 1), Product(y, b, n - 1), If(o, ShlN(x, n - 1)), If(o, ShlN(y, n - 1)));
    }
  }

  lemma IfTwice(o: bool, x: bv32)
    ensures If(o, Twice(x)) == Twice(If(o, x))
  {
    if o {} else {}
  }

  lemma {:induction false} ProductTwice(a: bv32, b: bv32, n: nat)
    ensures Product(Twice(a), b, n) == Twice(Product(a, b, n))
    decreases n
  {
    hide Xor, If, Odd, ShlN, ShrN, Twice;
    if n == 0 {
      TwiceZero();
    } else {
      var o := Odd(ShrN(b, n - 1));
      ProductTwice(a, b, n - 1);
      ShlTwice(a, n - 1);
      IfTwice(o, ShlN(a, n - 1));
      TwiceXor(Product(a, b, n - 1), If(o, ShlN(a, n - 1)));
    }
  }

  lemma TwiceZero()
    ensures Twice(0) == 0
  {
  }

  /** The product from its first term on. */
  lemma {:induction false} ProductHead(a: bv32, b: bv32, n: nat)
    requires n > 0
    ensures Product(a, b, n) == Xor(If(Odd(b), a), Product(Twice(a), Half(b), n - 1))
    decreases n
  {
    hide Xor, If, Odd, Twice, Half;
    if n == 1 {
      assert Product(a, b, 0) == 0;
      XorComm(0, If(Odd(b), a));
    } else {
      ProductHead(a, b, n - 1);
      XorAssoc(If(Odd(b), a), Product(Twice(a), Half(b), n - 2), If(Odd(ShrN(b, n - 1)), ShlN(a, n - 1)));
    }
  }

  /** 1 is neutral, as long as b has no more than n bits. */
  lemma {:induction false} ProductOne(b: bv32, n: nat)
    requires ShrN(b, n) == 0
    ensures Product(1, b, n) == b
    decreases n
  {
    hide Xor, If, Odd, Twice, Half;
    if n > 0 {
      ProductHead(1, b, n);
      ProductTwice(1, Half(b), n - 1);
      ProductOne(Half(b), n - 1);
      EvenOdd(b);
      XorComm(If(Odd(b), 1), Twice(Half(b)));
    }
  }

  lemma {:induction false} ShrAdd(x: bv32, m: nat, n: nat)
    ensures ShrN(ShrN(x, m), n) == ShrN(x, m + n)
    decreases m
  {
    hide Half;
    if m > 0 {
      ShrAdd(Half(x), m - 1, n);
    }
  }

  lemma ShrEight(x: bv32)
    ensures ShrN(x, 8) == x >> 8
  {
    hide Half;
    HalfFour(x);
    HalfFour(Half(Half(Half(Half(x)))));
    ShrFour(x);
    ShrFour(ShrN(x, 4));
    ShrAdd(x, 4, 4);
    FourFour(x);
  }

  lemma FourFour(x: bv32)
    ensures (x >> 4) >> 4 == x >> 8 && (x >> 8) >> 8 == x >> 16 && (x >> 16) >> 16 == 0
  {
  }

  lemma HalfFour(x: bv32)
    ensures Half(Half(Half(Half(x)))) == x >> 4
  {
  }

  lemma ShrFour(x: bv32)
    ensures ShrN(x, 4) == Half(Half(Half(Half(x))))
  {
    hide Half;
    assert ShrN(x, 4) == ShrN(Half(x), 3);
    assert ShrN(Half(x), 3) == ShrN(Half(Half(x)), 2);
  }

  /** Shifting out all 32 bits. */
  lemma ShrAll(x: bv32)
    ensures ShrN(x, 16) == x >> 16 && ShrN(x, 32) == 0
  {
    hide Half, ShrN;
    ShrEight(x);
    ShrEight(ShrN(x, 8));
    ShrAdd(x, 8, 8);
    ShrEight(ShrN(x, 16));
    ShrAdd(x, 16, 8);
    ShrEight(ShrN(x, 24));
    ShrAdd(x, 24, 8);
    FourFour(x);
    AllOut(x);
  }

  lemma AllOut(x: bv32)
    ensures ((x >> 16) >> 8) >> 8 == 0
  {
  }

  /** Multiplying bit by bit of the other operand. */
  lemma ClmulByBit(a: bv32, b: bv32)
    ensures Clmul(a, b) == Xor(If(Odd(a), b), Twice(Clmul(Half(a), b)))
  {
    hide Xor, If, Odd, Twice, Half, Product, Clmul, ShrN;
    ClmulIsProduct(a, b);
    ClmulIsProduct(Half(a), b);
    EvenOdd(a);
    ProductXor(Twice(Half(a)), If(Odd(a), 1), b, 32);
    ProductTwice(Half(a), b, 32);
    ShrAll(b);
    ProductOne(b, 32);
    ProductOfBit(Odd(a), b);
    XorComm(Twice(Clmul(Half(a), b)), If(Odd(a), b));
  }

  lemma ProductOfBit(o: bool, b: bv32)
    requires Product(1, b, 32) == b
    ensures Product(If(o, 1), b, 32) == If(o, b)
  {
    hide Xor, Odd, Twice, Half, Product;
    if o {
    } else {
      ProductZero(b, 32);
    }
  }

  lemma {:induction false} ProductZero(b: bv32, n: nat)
    ensures Product(0, b, n) == 0
    decreases n
  {
    hide Xor, Odd, Half, ShrN;
    if n > 0 {
      ProductZero(b, n - 1);
      ShlZero(n - 1);
      XorZero(0);
    }
  }

  lemma {:induction false} ShlZero(n: nat)
    ensures ShlN(0, n) == 0
    decreases n
  {
    if n > 0 {
      ShlZero(n - 1);
    }
  }

  // ---------------------------------------------------------------- the bit-serial CRC

  lemma StepLinear(x: bv32, y: bv32, p: bv32)
    ensures SerialStep(Xor(x, y), p) == Xor(SerialStep(x, p), SerialStep(y, p))
  {
    hide Xor, Half, Odd, If;
    OddXor(x, y);
    HalfXor(x, y);
    IfXor(Odd(x), Odd(y), p);
    Regroup(Half(x), Half(y), If(Odd(x), p), If(Odd(y), p));
  }

  lemma {:induction false} SerialLinear(x: bv32, y: bv32, p: bv32, n: nat)
    ensures Serial(Xor(x, y), p, n) == Xor(Serial(x, p, n), Serial(y, p, n))
    decreases n
  {
    hide SerialStep, Xor;
    if n > 0 {
      SerialLinear(x, y, p, n - 1);
      StepLinear(Serial(x, p, n - 1), Serial(y, p, n - 1), p);
    }
  }

  lemma {:induction false} SerialCompose(x: bv32, p: bv32, m: nat, n: nat)
    ensures Serial(Serial(x, p, m), p, n) == Serial(x, p, m + n)
    decreases n
  {
    hide SerialStep;
    if n > 0 {
      SerialCompose(x, p, m, n - 1);
    }
  }

  lemma StepEven(x: bv32, p: bv32)
    requires !Odd(x)
    ensures SerialStep(x, p) == Half(x)
  {
    hide Xor, Half, Odd;
    XorZero(Half(x));
  }

  /** The first bit's contribution, and the rest. */
  lemma SerialByBit(x: bv32, p: bv32, n: nat)
    requires n > 0
    ensures Serial(x, p, n) == Xor(Serial(Half(x), p, n - 1), If(Odd(x), Serial(1, p, n)))
  {
    hide Xor, Half, Odd, Twice, SerialStep;
    EvenOdd(x);
    SerialLinear(Twice(Half(x)), If(Odd(x), 1), p, n);
    SerialCompose(Twice(Half(x)), p, 1, n - 1);
    assert Serial(Twice(Half(x)), p, 0) == Twice(Half(x));
    StepTwice(Half(x));
    StepEven(Twice(Half(x)), p);
    EvenOdd(Twice(Half(x)));
    HalfTwiceHalf(x);
    if !Odd(x) {
      SerialZero(p, n);
    }
  }

  lemma HalfTwiceHalf(x: bv32)
    ensures Half(Twice(Half(x))) == Half(x)
  {
  }

  lemma {:induction false} SerialZero(p: bv32, n: nat)
    ensures Serial(0, p, n) == 0
    decreases n
  {
    hide Xor, Half, Odd;
    if n > 0 {
      SerialZero(p, n - 1);
      RevZero();
      StepEven(0, p);
    }
  }

  // ---------------------------------------------------------------- the reciprocal

  function Unstep(c: bv32, p: bv32): bv32 {
    if c >= 0x8000_0000 then Xor(Twice(Xor(c, p)), 1) else Twice(c)
  }

  /**
    The digits of b, from bit 0 up, are the quotient digits of the bit-serial division that ends in c
    after n steps: b is the reciprocal of the polynomial.
   */
  predicate Reciprocal(b: bv32, c: bv32, p: bv32, n: nat)
    decreases n
  {
    if n == 0 then b == 0 && c == 1
    else SerialStep(Unstep(c, p), p) == c && Odd(b) == Odd(Unstep(c, p)) && Reciprocal(Half(b), Unstep(c, p), p, n - 1)
  }

  lemma OneDigit(b: bv32, c: bv32, p: bv32, n: nat)
    requires SerialStep(Unstep(c, p), p) == c && Odd(b) == Odd(Unstep(c, p)) && Reciprocal(Half(b), Unstep(c, p), p, n)
    ensures Reciprocal(b, c, p, n + 1)
  {
    hide Unstep, SerialStep, Odd, Half;
  }

  /** Four digits at a time. */
  lemma FourDigits(b: bv32, c: bv32, p: bv32, n: nat)
    requires
      var c1 := Unstep(c, p);
      var c2 := Unstep(c1, p);
      var c3 := Unstep(c2, p);
      var c4 := Unstep(c3, p);
      && SerialStep(c1, p) == c && SerialStep(c2, p) == c1 && SerialStep(c3, p) == c2 && SerialStep(c4, p) == c3
      && Odd(b) == Odd(c1) && Odd(Half(b)) == Odd(c2)
      && Odd(Half(Half(b))) == Odd(c3) && Odd(Half(Half(Half(b)))) == Odd(c4)
      && Reciprocal(Half(Half(Half(Half(b)))), c4, p, n)
    ensures Reciprocal(b, c, p, n + 4)
  {
    hide Unstep, SerialStep, Odd, Half, Reciprocal;
    var c1 := Unstep(c, p);
    var c2 := Unstep(c1, p);
    OneDigit(Half(Half(Half(b))), Unstep(c2, p), p, n);
    OneDigit(Half(Half(b)), c2, p, n + 1);
    OneDigit(Half(b), c1, p, n + 2);
    OneDigit(b, c, p, n + 3);
  }

  /** The first sixteen digits. */
  lemma Crc32UpperDigits()
    ensures Reciprocal(0x0000_8268, 0x191b_3141, 0xedb8_8320, 16)
  {
    hide Reciprocal;
    assert Reciprocal(0, 1, 0xedb8_8320, 0) by { ReciprocalBase(0xedb8_8320); }
    FourDigits(0x0000_0008, 0x1db7_1064, 0xedb8_8320, 0);
    FourDigits(0x0000_0082, 0x7707_3096, 0xedb8_8320, 4);
    FourDigits(0x0000_0826, 0x4ac2_1251, 0xedb8_8320, 8);
    FourDigits(0x0000_8268, 0x191b_3141, 0xedb8_8320, 12);
  }

  lemma Crc32Reversed()
    ensures Rev(CRC32_MU_REV) == 0x8268_80ef && Rev(CRC32_POLYNOMIAL) == 0xedb8_8320
  {
  }

  lemma Crc32Reciprocal()
    ensures Reciprocal(0x8268_80ef, 0xb8bc_6765, 0xedb8_8320, 32)
    ensures Rev(CRC32_MU_REV) == 0x8268_80ef && Rev(CRC32_POLYNOMIAL) == 0xedb8_8320
  {
    hide Reciprocal;
    Crc32UpperDigits();
    Crc32Reversed();
    FourDigits(0x0008_2688, 0x1c26_a370, 0xedb8_8320, 16);
    FourDigits(0x0082_6880, 0x01c2_6a37, 0xedb8_8320, 20);
    FourDigits(0x0826_880e, 0x5019_579f, 0xedb8_8320, 24);
    FourDigits(0x8268_80ef, 0xb8bc_6765, 0xedb8_8320, 28);
  }

  /** The first sixteen digits. */
  lemma Crc32cUpperDigits()
    ensures Reciprocal(0x0000_8fc8, 0x13a2_9877, 0x82f6_3b78, 16)
  {
    hide Reciprocal;
    assert Reciprocal(0, 1, 0x82f6_3b78, 0) by { ReciprocalBase(0x82f6_3b78); }
    FourDigits(0x0000_0008, 0x105e_c76f, 0x82f6_3b78, 0);
    FourDigits(0x0000_008f, 0xf26b_8303, 0x82f6_3b78, 4);
    FourDigits(0x0000_08fc, 0x3fc5_f181, 0x82f6_3b78, 8);
    FourDigits(0x0000_8fc8, 0x13a2_9877, 0x82f6_3b78, 12);
  }

  lemma Crc32cReversed()
    ensures Rev(CRC32C_MU_REV) == 0x8fc8_e57b && Rev(CRC32C_POLYNOMIAL) == 0x82f6_3b78
  {
  }

  lemma Crc32cReciprocal()
    ensures Reciprocal(0x8fc8_e57b, 0xdd45_aab8, 0x82f6_3b78, 32)
    ensures Rev(CRC32C_MU_REV) == 0x8fc8_e57b && Rev(CRC32C_POLYNOMIAL) == 0x82f6_3b78
  {
    hide Reciprocal;
    Crc32cUpperDigits();
    Crc32cReversed();
    FourDigits(0x0008_fc8e, 0x70a2_7d8a, 0x82f6_3b78, 16);
    FourDigits(0x008f_c8e5, 0xa541_927e, 0x82f6_3b78, 20);
    FourDigits(0x08fc_8e57, 0xe964_b13d, 0x82f6_3b78, 24);
    FourDigits(0x8fc8_e57b, 0xdd45_aab8, 0x82f6_3b78, 28);
  }

  lemma ReciprocalBase(p: bv32)
    ensures Reciprocal(0, 1, p, 0)
  {
  }

  // ---------------------------------------------------------------- two multiplications divide

  /** Reversed product with the polynomial: the second multiplication. */
  function SecondPass(u: bv32, poly: bv32): bv32 { Rev(Clmul(u, poly)) }

  lemma SecondPassByBit(u: bv32, poly: bv32)
    ensures SecondPass(u, poly) == Xor(If(Odd(u), Rev(poly)), Half(SecondPass(Half(u), poly)))
  {
    hide Xor, Half, Odd, Twice, Rev, Clmul, If;
    ClmulByBit(u, poly);
    RevXor(If(Odd(u), poly), Twice(Clmul(Half(u), poly)));
    RevTwice(Clmul(Half(u), poly));
    RevIf(Odd(u), poly);
  }

  lemma RevIf(o: bool, x: bv32)
    ensures Rev(If(o, x)) == If(o, Rev(x))
  {
    hide Rev;
    RevZero();
    if o {} else {}
  }

  lemma SecondPassXor(u: bv32, v: bv32, poly: bv32)
    ensures SecondPass(Xor(u, v), poly) == Xor(SecondPass(u, poly), SecondPass(v, poly))
  {
    hide Xor, Rev, Clmul, Product;
    ClmulIsProduct(u, poly);
    ClmulIsProduct(v, poly);
    ClmulIsProduct(Xor(u, v), poly);
    ProductXor(u, v, poly, 32);
    RevXor(Product(u, poly, 32), Product(v, poly, 32));
  }

  lemma SecondPassZero(poly: bv32)
    ensures SecondPass(0, poly) == 0
  {
    hide Rev, Clmul, Product;
    ClmulIsProduct(0, poly);
    ProductZero(poly, 32);
    RevZero();
  }

  /** Multiplying n leading digits of the reciprocal with the polynomial gives n steps from 1. */
  lemma {:induction false} ReciprocalTimesPoly(b: bv32, c: bv32, poly: bv32, n: nat)
    requires Reciprocal(b, c, Rev(poly), n)
    ensures c == Serial(1, Rev(poly), n)
    ensures n > 0 ==> SecondPass(b, poly) == c
    decreases n
  {
    hide Xor, Half, Odd, If, Unstep, SecondPass, Rev;
    var p := Rev(poly);
    if n > 0 {
      var d := Unstep(c, p);
      ReciprocalTimesPoly(Half(b), d, poly, n - 1);
      SecondPassByBit(b, poly);
      XorComm(If(Odd(b), p), Half(SecondPass(Half(b), poly)));
      if n == 1 {
        SecondPassZero(poly);
        RevZero();
      }
    }
  }

  /** After j shifts the reciprocal has n - j digits left. */
  lemma {:induction false} ReciprocalShifted(b: bv32, c: bv32, p: bv32, n: nat, j: nat) returns (d: bv32)
    requires Reciprocal(b, c, p, n) && j <= n
    ensures Reciprocal(ShrN(b, j), d, p, n - j)
    decreases j
  {
    hide Half, Odd, Unstep, SerialStep;
    d := c;
    if j > 0 {
      d := ReciprocalShifted(Half(b), Unstep(c, p), p, n - 1, j - 1);
    }
  }

  /** First multiplication, reversed: the quotient digits. */
  function Quotient(x: bv32, muRev: bv32): bv32 { Rev(Clmul(x, muRev)) }

  lemma {:induction false} ShrXor(x: bv32, y: bv32, n: nat)
    ensures ShrN(Xor(x, y), n) == Xor(ShrN(x, n), ShrN(y, n))
    decreases n
  {
    hide Xor, Half;
    if n > 0 {
      HalfXor(x, y);
      ShrXor(Half(x), Half(y), n - 1);
    }
  }

  lemma ShrIf(o: bool, x: bv32, n: nat)
    ensures ShrN(If(o, x), n) == If(o, ShrN(x, n))
  {
    hide ShrN;
    if !o {
      ShrZero(n);
    }
  }

  lemma {:induction false} ShrZero(n: nat)
    ensures ShrN(0, n) == 0
    decreases n
  {
    if n > 0 {
      RevZero();
      ShrZero(n - 1);
    }
  }

  /** Bit by bit of x, the quotient shifted j places gains the reciprocal shifted j places. */
  lemma QuotientByBit(x: bv32, muRev: bv32, j: nat)
    ensures ShrN(Quotient(x, muRev), j) == Xor(If(Odd(x), ShrN(Rev(muRev), j)), ShrN(Quotient(Half(x), muRev), j + 1))
  {
    hide Xor, Half, Odd, If, Rev, Clmul;
    SecondPassByBit(x, muRev);
    assert Quotient(x, muRev) == SecondPass(x, muRev) && Quotient(Half(x), muRev) == SecondPass(Half(x), muRev);
    ShrXor(If(Odd(x), Rev(muRev)), Half(Quotient(Half(x), muRev)), j);
    ShrIf(Odd(x), Rev(muRev), j);
  }

  lemma SecondPassIf(o: bool, u: bv32, poly: bv32)
    ensures SecondPass(If(o, u), poly) == If(o, SecondPass(u, poly))
  {
    hide SecondPass;
    SecondPassZero(poly);
    if o {} else {}
  }

  /** Multiplying twice gives, for an operand of n bits, n steps of the bit-serial CRC. */
  lemma {:induction false} TwoPasses(x: bv32, poly: bv32, muRev: bv32, c: bv32, n: nat)
    requires n <= 32 && ShrN(x, n) == 0
    requires Reciprocal(Rev(muRev), c, Rev(poly), 32)
    ensures SecondPass(ShrN(Quotient(x, muRev), 32 - n), poly) == Serial(x, Rev(poly), n)
    decreases n
  {
    hide Xor, Half, Odd, If, Rev, Clmul, SecondPass, Quotient, Reciprocal;
    if n == 0 {
      ShrAll(Quotient(x, muRev));
      SecondPassZero(poly);
    } else {
      var j := 32 - n;
      var p, b := Rev(poly), ShrN(Rev(muRev), j);
      var rest := ShrN(Quotient(Half(x), muRev), j + 1);
      TwoPasses(Half(x), poly, muRev, c, n - 1);
      QuotientByBit(x, muRev, j);
      SecondPassXor(If(Odd(x), b), rest, poly);
      SecondPassIf(Odd(x), b, poly);
      var d := ReciprocalShifted(Rev(muRev), c, p, 32, j);
      ReciprocalTimesPoly(b, d, poly, n);
      SerialByBit(x, p, n);
      XorComm(If(Odd(x), SecondPass(b, poly)), SecondPass(rest, poly));
    }
  }

  lemma FourEven(x: bv32)
    requires x & 0xf == 0
    ensures !Odd(x) && !Odd(Half(x)) && !Odd(Half(Half(x))) && !Odd(Half(Half(Half(x))))
  {
  }

  /** Steps over bits that are zero only shift. */
  lemma FourZeroSteps(x: bv32, p: bv32)
    requires x & 0xf == 0
    ensures Serial(x, p, 4) == x >> 4
  {
    hide Xor, Half, Odd, SerialStep;
    FourEven(x);
    HalfFour(x);
    StepEven(x, p);
    StepEven(Half(x), p);
    StepEven(Half(Half(x)), p);
    StepEven(Half(Half(Half(x))), p);
    assert Serial(x, p, 1) == Half(x);
    assert Serial(x, p, 2) == Half(Half(x));
    assert Serial(x, p, 3) == Half(Half(Half(x)));
  }

  predicate ZeroByte(x: bv32) { x & 0xff == 0 }
  function LowByte(x: bv32): bv32 { x & 0xff }
  function LowHalf(x: bv32): bv32 { x & 0xffff }
  function RestByte(x: bv32): bv32 { (x >> 8) << 8 }
  function RestHalf(x: bv32): bv32 { (x >> 16) << 16 }

  lemma EightZeroSteps(x: bv32, p: bv32)
    requires ZeroByte(x)
    ensures Serial(x, p, 8) == DownByte(x)
  {
    hide Serial;
    NibblesZero(x);
    FourZeroSteps(x, p);
    FourZeroSteps(x >> 4, p);
    SerialCompose(x, p, 4, 4);
    FourFour(x);
  }

  lemma NibblesZero(x: bv32)
    requires x & 0xff == 0
    ensures x & 0xf == 0 && (x >> 4) & 0xf == 0
  {
  }

  lemma UpByteZero(a: bv32)
    ensures ZeroByte(UpByte(a)) && ZeroByte(DownByte(UpByte(a))) && ZeroByte(DownByte(DownByte(UpByte(a))))
  {
  }

  lemma UpByteLow(a: bv32)
    ensures DownByte(DownByte(DownByte(UpByte(a)))) == LowByte(a)
  {
  }

  lemma LowRestByte(a: bv32)
    ensures a == Xor(LowByte(a), RestByte(a))
  {
  }

  lemma RestByteDown(a: bv32)
    ensures DownByte(RestByte(a)) == DownByte(a)
  {
  }

  lemma RestByteZero(a: bv32)
    ensures ZeroByte(RestByte(a))
  {
  }

  lemma UpHalfZero(a: bv32)
    ensures ZeroByte(UpHalf(a)) && ZeroByte(DownByte(UpHalf(a)))
  {
  }

  lemma UpHalfLow(a: bv32)
    ensures DownByte(DownByte(UpHalf(a))) == LowHalf(a)
  {
  }

  lemma LowRestHalf(a: bv32)
    ensures a == Xor(LowHalf(a), RestHalf(a))
  {
  }

  lemma RestHalfDown(a: bv32)
    ensures DownByte(DownByte(RestHalf(a))) == DownHalf(a)
  {
  }

  lemma RestHalfZero(a: bv32)
    ensures ZeroByte(RestHalf(a)) && ZeroByte(DownByte(RestHalf(a)))
  {
  }

  lemma TwoZeroBytes(x: bv32, p: bv32)
    requires ZeroByte(x) && ZeroByte(DownByte(x))
    ensures Serial(x, p, 16) == DownByte(DownByte(x))
  {
    hide Serial, ZeroByte, DownByte;
    EightZeroSteps(x, p);
    EightZeroSteps(DownByte(x), p);
    SerialCompose(x, p, 8, 8);
  }

  lemma ByteSteps(a: bv32, p: bv32)
    ensures Xor(Serial(UpByte(a), p, 32), DownByte(a)) == Serial(a, p, 8)
  {
    hide Serial, Xor, ZeroByte, DownByte, LowByte, RestByte, UpByte;
    UpByteZero(a);
    UpByteLow(a);
    LowRestByte(a);
    RestByteZero(a);
    RestByteDown(a);
    var x := UpByte(a);
    TwoZeroBytes(x, p);
    EightZeroSteps(DownByte(DownByte(x)), p);
    SerialCompose(x, p, 16, 8);
    SerialCompose(x, p, 24, 8);
    EightZeroSteps(RestByte(a), p);
    SerialLinear(LowByte(a), RestByte(a), p, 8);
  }

  lemma HalfwordSteps(a: bv32, p: bv32)
    ensures Xor(Serial(UpHalf(a), p, 32), DownHalf(a)) == Serial(a, p, 16)
  {
    hide Serial, Xor, ZeroByte, DownByte, DownHalf, LowHalf, RestHalf, UpHalf;
    UpHalfZero(a);
    UpHalfLow(a);
    LowRestHalf(a);
    RestHalfZero(a);
    RestHalfDown(a);
    var x := UpHalf(a);
    TwoZeroBytes(x, p);
    SerialCompose(x, p, 16, 16);
    TwoZeroBytes(RestHalf(a), p);
    SerialLinear(LowHalf(a), RestHalf(a), p, 16);
  }

  /** Full-width steps over the operand are the n steps over its low bits. */
  lemma OperandSteps(a: bv32, w: Width, p: bv32)
    ensures Xor(Serial(CrcOperand(a, w), p, 32), Remaining(a, w)) == Serial(a, p, Bits(w))
  {
    hide Xor, Serial, UpByte, UpHalf, DownByte, DownHalf;
    match w
    case Byte =>
      ByteSteps(a, p);
    case Halfword =>
      HalfwordSteps(a, p);
    case Word =>
      XorZero(Serial(a, p, 32));
  }

  lemma ShrNone(x: bv32)
    ensures ShrN(x, 0) == x
  {
  }

  /** The instruction: both cycles compute n bit-serial steps, for n = 8, 16, 32 and both polynomials. */
  lemma CrcUnitIsSerial(a: bv32, w: Width, cpoly: bool)
    ensures CrcUnit(a, w, cpoly) == Serial(a, Rev(if cpoly then CRC32C_POLYNOMIAL else CRC32_POLYNOMIAL), Bits(w))
  {
    hide Xor, Serial, Rev, Clmul, CrcOperand, Remaining, Reciprocal, ShrN, Bits;
    var poly := if cpoly then CRC32C_POLYNOMIAL else CRC32_POLYNOMIAL;
    var muRev := if cpoly then CRC32C_MU_REV else CRC32_MU_REV;
    var c: bv32 := if cpoly then 0xdd45_aab8 else 0xb8bc_6765;
    Crc32Reciprocal();
    Crc32cReciprocal();
    assert Reciprocal(Rev(muRev), c, Rev(poly), 32);
    var x := CrcOperand(a, w);
    ShrAll(x);
    TwoPasses(x, poly, muRev, c, 32);
    ShrNone(Quotient(x, muRev));
    OperandSteps(a, w, Rev(poly));
  }
}
