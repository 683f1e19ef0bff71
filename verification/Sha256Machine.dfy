/**
 SHA-256 on bit vectors: the functions, the message schedule and the rounds of FIPS 180-2 as the
 machine computes them, which agree with those on words.
 */
module Sha256Machine {
  import opened Bits
  import opened Sha256Spec
  import opened Sha256Vectors

  // ---------------------------------------------------------------------------
  // Functions
  // ---------------------------------------------------------------------------

  function ChV(x: bv32, y: bv32, z: bv32): bv32 {
    Differ(Meet(x, y), Meet(Differ(x, 0xFFFF_FFFF), z))
  }

  function MajV(x: bv32, y: bv32, z: bv32): bv32 {
    Differ(Differ(Meet(x, y), Meet(x, z)), Meet(y, z))
  }

  /** Shifts by up to eight places, and by up to thirty-two in steps of eight. */
  function Down(b: bv32, k: nat): bv32 {
    if k == 0 then b else if k == 1 then b / 0x2 else if k == 2 then b / 0x4 else 
    if k == 3 then b / 0x8 else if k == 4 then b / 0x10 else if k == 5 then b / 0x20 else 
    if k == 6 then b / 0x40 else if k == 7 then b / 0x80 else b / 0x100
  }

  function Up(b: bv32, k: nat): bv32 {
    if k == 0 then b else if k == 1 then b * 0x2 else if k == 2 then b * 0x4 else 
    if k == 3 then b * 0x8 else if k == 4 then b * 0x10 else if k == 5 then b * 0x20 else 
    if k == 6 then b * 0x40 else if k == 7 then b * 0x80 else b * 0x100
  }

  function Right(b: bv32, n: nat): bv32 {
    if n <= 8 then Down(b, n)
    else if n <= 16 then Down(Down(b, 8), n - 8)
    else if n <= 24 then Down(Down(Down(b, 8), 8), n - 16)
    else Down(Down(Down(Down(b, 8), 8), 8), n - 24)
  }

  function Left(b: bv32, n: nat): bv32 {
    if n <= 8 then Up(b, n)
    else if n <= 16 then Up(Up(b, 8), n - 8)
    else if n <= 24 then Up(Up(Up(b, 8), 8), n - 16)
    else Up(Up(Up(Up(b, 8), 8), 8), n - 24)
  }

  function Turn(b: bv32, n: nat): bv32
    requires n <= 32
  {
    Plus(Right(b, n), Left(b, 32 - n))
  }

  function Rotr2(b: bv32): bv32 {
    b / 0x4 + b * 0x4000_0000
  }

  function Rotr6(b: bv32): bv32 {
    b / 0x40 + b * 0x400_0000
  }

  function Rotr7(b: bv32): bv32 {
    b / 0x80 + b * 0x200_0000
  }

  function Rotr11(b: bv32): bv32 {
    b / 0x800 + b * 0x20_0000
  }

  function Rotr13(b: bv32): bv32 {
    b / 0x2000 + b * 0x8_0000
  }

  function Rotr17(b: bv32): bv32 {
    b / 0x2_0000 + b * 0x8000
  }

  function Rotr18(b: bv32): bv32 {
    b / 0x4_0000 + b * 0x4000
  }

  function Rotr19(b: bv32): bv32 {
    b / 0x8_0000 + b * 0x2000
  }

  function Rotr22(b: bv32): bv32 {
    b / 0x40_0000 + b * 0x400
  }

  function Rotr25(b: bv32): bv32 {
    b / 0x200_0000 + b * 0x80
  }

  function BigSigma0V(b: bv32): bv32 {
    Differ(Differ(Rotr2(b), Rotr13(b)), Rotr22(b))
  }

  function BigSigma1V(b: bv32): bv32 {
    Differ(Differ(Rotr6(b), Rotr11(b)), Rotr25(b))
  }

  function SmallSigma0V(b: bv32): bv32 {
    Differ(Differ(Rotr7(b), Rotr18(b)), Right(b, 3))
  }

  function SmallSigma1V(b: bv32): bv32 {
    Differ(Differ(Rotr17(b), Rotr19(b)), Right(b, 10))
  }

  lemma DownIs(b: bv32, k: nat)
    requires k <= 8
    ensures Halved(b, k) == Down(b, k)
  {
    HalvedFew(b);
    hide Halved;
  }

  lemma UpIs(b: bv32, k: nat)
    requires k <= 8
    ensures Doubled(b, k) == Up(b, k)
  {
    DoubledFew(b);
    hide Doubled;
  }

  lemma RightIs(b: bv32, n: nat)
    requires n <= 32
    ensures Halved(b, n) == Right(b, n)
  {
    hide Halved, Down;
    var eight := Down(b, 8);
    var sixteen := Down(eight, 8);
    var more := Down(sixteen, 8);
    DownIs(b, 8);
    DownIs(eight, 8);
    DownIs(sixteen, 8);
    Split(b, 8, 8);
    Split(b, 16, 8);
    if n <= 8 {
      DownIs(b, n);
    } else if n <= 16 {
      Split(b, 8, n - 8);
      DownIs(eight, n - 8);
    } else if n <= 24 {
      Split(b, 16, n - 16);
      DownIs(sixteen, n - 16);
    } else {
      Split(b, 24, n - 24);
      DownIs(more, n - 24);
    }
  }

  lemma LeftIs(b: bv32, n: nat)
    requires n <= 32
    ensures Doubled(b, n) == Left(b, n)
  {
    hide Doubled, Up;
    var eight := Up(b, 8);
    var sixteen := Up(eight, 8);
    var more := Up(sixteen, 8);
    UpIs(b, 8);
    UpIs(eight, 8);
    UpIs(sixteen, 8);
    Split(b, 8, 8);
    Split(b, 16, 8);
    if n <= 8 {
      UpIs(b, n);
    } else if n <= 16 {
      Split(b, 8, n - 8);
      UpIs(eight, n - 8);
    } else if n <= 24 {
      Split(b, 16, n - 16);
      UpIs(sixteen, n - 16);
    } else {
      Split(b, 24, n - 24);
      UpIs(more, n - 24);
    }
  }

  lemma TurnVector(n: nat, x: Word)
    requires n <= 32
    ensures Vector(Rotr(n, x)) == Turn(Vector(x), n) && Vector(Shr(n, x)) == Right(Vector(x), n)
  {
    hide Vector, Plus, Right, Left, Halved, Doubled, Rotr, Shr;
    VectorRotr(n, x);
    VectorShr(n, x);
    RightIs(Vector(x), n);
    LeftIs(Vector(x), 32 - n);
  }

  lemma Turn2(b: bv32)
    ensures Turn(b, 2) == Rotr2(b)
  {
  }

  lemma Turn6(b: bv32)
    ensures Turn(b, 6) == Rotr6(b)
  {
  }

  lemma Turn7(b: bv32)
    ensures Turn(b, 7) == Rotr7(b)
  {
  }

  lemma Turn11(b: bv32)
    ensures Turn(b, 11) == Rotr11(b)
  {
  }

  lemma Turn13(b: bv32)
    ensures Turn(b, 13) == Rotr13(b)
  {
  }

  lemma Turn17(b: bv32)
    ensures Turn(b, 17) == Rotr17(b)
  {
  }

  lemma Turn18(b: bv32)
    ensures Turn(b, 18) == Rotr18(b)
  {
  }

  lemma Turn19(b: bv32)
    ensures Turn(b, 19) == Rotr19(b)
  {
  }

  lemma Turn22(b: bv32)
    ensures Turn(b, 22) == Rotr22(b)
  {
  }

  lemma Turn25(b: bv32)
    ensures Turn(b, 25) == Rotr25(b)
  {
  }

  lemma BigSigma0Is(b: bv32)
    ensures BigSigma0V(b) == Differ(Differ(Rotr2(b), Rotr13(b)), Rotr22(b))
  {
    hide Differ, Rotr2, Rotr13, Rotr22, Rotr6, Rotr11, Rotr25, Rotr7, Rotr18, Rotr17, Rotr19, Right;
  }

  lemma BigSigma1Is(b: bv32)
    ensures BigSigma1V(b) == Differ(Differ(Rotr6(b), Rotr11(b)), Rotr25(b))
  {
    hide Differ, Rotr2, Rotr13, Rotr22, Rotr6, Rotr11, Rotr25, Rotr7, Rotr18, Rotr17, Rotr19, Right;
  }

  lemma SmallSigma0Is(b: bv32)
    ensures SmallSigma0V(b) == Differ(Differ(Rotr7(b), Rotr18(b)), Right(b, 3))
  {
    hide Differ, Rotr2, Rotr13, Rotr22, Rotr6, Rotr11, Rotr25, Rotr7, Rotr18, Rotr17, Rotr19, Right;
  }

  lemma SmallSigma1Is(b: bv32)
    ensures SmallSigma1V(b) == Differ(Differ(Rotr17(b), Rotr19(b)), Right(b, 10))
  {
    hide Differ, Rotr2, Rotr13, Rotr22, Rotr6, Rotr11, Rotr25, Rotr7, Rotr18, Rotr17, Rotr19, Right;
  }

  lemma XorVector(x: Word, y: Word)
    ensures Vector(WXor(x, y)) == Differ(Vector(x), Vector(y)) && Vector(WAnd(x, y)) == Meet(Vector(x), Vector(y))
  {
    VectorXor(x, y);
    VectorAnd(x, y);
    hide Vector, Differ, Meet, Xor, And;
  }

  lemma ChVector(x: Word, y: Word, z: Word)
    ensures Vector(Ch(x, y, z)) == ChV(Vector(x), Vector(y), Vector(z))
  {
    hide Vector, Differ, Meet, WXor, WAnd, WNot;
    XorVector(x, y);
    VectorNot(x);
    XorVector(WNot(x), z);
    XorVector(WAnd(x, y), WAnd(WNot(x), z));
  }

  lemma MajVector(x: Word, y: Word, z: Word)
    ensures Vector(Maj(x, y, z)) == MajV(Vector(x), Vector(y), Vector(z))
  {
    hide Vector, Differ, Meet, WXor, WAnd;
    XorVector(x, y);
    XorVector(x, z);
    XorVector(y, z);
    XorVector(WAnd(x, y), WAnd(x, z));
    XorVector(WXor(WAnd(x, y), WAnd(x, z)), WAnd(y, z));
  }

  lemma XorOfThree(a: Word, b: Word, c: Word)
    ensures Vector(WXor(WXor(a, b), c)) == Differ(Differ(Vector(a), Vector(b)), Vector(c))
  {
    hide *;
    XorVector(a, b);
    XorVector(WXor(a, b), c);
  }

  lemma BigSigmaVectors(x: Word)
    ensures Vector(BigSigma0(x)) == BigSigma0V(Vector(x)) && Vector(BigSigma1(x)) == BigSigma1V(Vector(x))
  {
    hide *;
    var b := Vector(x);
    BigSigma0Is(b);
    BigSigma1Is(b);
    BigSigmaIs(x);
    TurnVector(2, x);
    TurnVector(13, x);
    TurnVector(22, x);
    Turn2(b);
    Turn13(b);
    Turn22(b);
    XorOfThree(Rotr(2, x), Rotr(13, x), Rotr(22, x));
    TurnVector(6, x);
    TurnVector(11, x);
    TurnVector(25, x);
    Turn6(b);
    Turn11(b);
    Turn25(b);
    XorOfThree(Rotr(6, x), Rotr(11, x), Rotr(25, x));
  }

  lemma BigSigmaIs(x: Word)
    ensures BigSigma0(x) == WXor(WXor(Rotr(2, x), Rotr(13, x)), Rotr(22, x))
    ensures BigSigma1(x) == WXor(WXor(Rotr(6, x), Rotr(11, x)), Rotr(25, x))
  {
    hide WXor, Rotr;
  }

  lemma SmallSigmaIs(x: Word)
    ensures SmallSigma0(x) == WXor(WXor(Rotr(7, x), Rotr(18, x)), Shr(3, x))
    ensures SmallSigma1(x) == WXor(WXor(Rotr(17, x), Rotr(19, x)), Shr(10, x))
  {
    hide WXor, Rotr, Shr;
  }

  lemma SmallSigmaVectors(x: Word)
    ensures Vector(SmallSigma0(x)) == SmallSigma0V(Vector(x)) && Vector(SmallSigma1(x)) == SmallSigma1V(Vector(x))
  {
    hide *;
    var b := Vector(x);
    SmallSigma0Is(b);
    SmallSigma1Is(b);
    SmallSigmaIs(x);
    TurnVector(7, x);
    TurnVector(18, x);
    TurnVector(3, x);
    Turn7(b);
    Turn18(b);
    XorOfThree(Rotr(7, x), Rotr(18, x), Shr(3, x));
    TurnVector(17, x);
    TurnVector(19, x);
    TurnVector(10, x);
    Turn17(b);
    Turn19(b);
    XorOfThree(Rotr(17, x), Rotr(19, x), Shr(10, x));
  }

  // ---------------------------------------------------------------------------
  // Schedule and rounds
  // ---------------------------------------------------------------------------

  lemma SumVector(x: nat, y: nat)
    ensures Vector(x + y) == Plus(Vector(x), Vector(y)) && Vector(Sum(x)) == Vector(x) && Vector(Add(x, y)) == Plus(Vector(x), Vector(y))
  {
    VectorAdd(x, y);
    VectorWraps(x);
    VectorWraps(x + y);
    hide Vector, Plus;
  }

  function ScheduleV(w2: bv32, w7: bv32, w15: bv32, w16: bv32): bv32 {
    Plus(Plus(Plus(SmallSigma1V(w2), w7), SmallSigma0V(w15)), w16)
  }

  lemma ScheduleVector(block: Block, t: nat)
    requires t >= 16
    ensures Vector(ScheduleWord(block, t)) ==
            ScheduleV(Vector(ScheduleWord(block, t - 2)), Vector(ScheduleWord(block, t - 7)),
                      Vector(ScheduleWord(block, t - 15)), Vector(ScheduleWord(block, t - 16)))
  {
    hide *;
    ScheduleIs(block, t);
    var w2, w7 := ScheduleWord(block, t - 2), ScheduleWord(block, t - 7);
    var w15, w16 := ScheduleWord(block, t - 15), ScheduleWord(block, t - 16);
    ScheduleSum(w2, w7, w15, w16);
  }

  lemma ScheduleIs(block: Block, t: nat)
    requires t >= 16
    ensures ScheduleWord(block, t) ==
            Sum(SmallSigma1(ScheduleWord(block, t - 2)) + ScheduleWord(block, t - 7)
                + SmallSigma0(ScheduleWord(block, t - 15)) + ScheduleWord(block, t - 16))
  {
    hide SmallSigma0, SmallSigma1, Sum;
  }

  lemma ScheduleSum(w2: Word, w7: Word, w15: Word, w16: Word)
    ensures Vector(Sum(SmallSigma1(w2) + w7 + SmallSigma0(w15) + w16)) == ScheduleV(Vector(w2), Vector(w7), Vector(w15), Vector(w16))
  {
    hide Vector, Plus, SmallSigma0V, SmallSigma1V, SmallSigma0, SmallSigma1, Sum, Add;
    SmallSigmaVectors(w2);
    SmallSigmaVectors(w15);
    SumVector(SmallSigma1(w2), w7);
    SumVector(SmallSigma1(w2) + w7, SmallSigma0(w15));
    SumVector(SmallSigma1(w2) + w7 + SmallSigma0(w15), w16);
    SumVector(SmallSigma1(w2) + w7 + SmallSigma0(w15) + w16, 0);
  }

  /** The eight working variables. */
  datatype Vectors = Vectors(a: bv32, b: bv32, c: bv32, d: bv32, e: bv32, f: bv32, g: bv32, h: bv32)

  ghost function VectorsOf(s: State): Vectors {
    Vectors(Vector(s[0]), Vector(s[1]), Vector(s[2]), Vector(s[3]), Vector(s[4]), Vector(s[5]), Vector(s[6]), Vector(s[7]))
  }

  function FirstSum(v: Vectors, k: bv32, w: bv32): bv32 {
    Plus(Plus(Plus(Plus(v.h, BigSigma1V(v.e)), ChV(v.e, v.f, v.g)), k), w)
  }

  function SecondSum(v: Vectors): bv32 {
    Plus(BigSigma0V(v.a), MajV(v.a, v.b, v.c))
  }

  function RoundV(v: Vectors, k: bv32, w: bv32): Vectors {
    var t1 := FirstSum(v, k, w);
    Vectors(Plus(t1, SecondSum(v)), v.a, v.b, v.c, Plus(v.d, t1), v.e, v.f, v.g)
  }

  lemma FirstVector(h: Word, e: Word, f: Word, g: Word, k: Word, w: Word)
    ensures Vector(h + BigSigma1(e) + Ch(e, f, g) + k + w) ==
            Plus(Plus(Plus(Plus(Vector(h), BigSigma1V(Vector(e))), ChV(Vector(e), Vector(f), Vector(g))), Vector(k)), Vector(w))
  {
    hide *;
    BigSigmaVectors(e);
    ChVector(e, f, g);
    SumVector(h, BigSigma1(e));
    SumVector(h + BigSigma1(e), Ch(e, f, g));
    SumVector(h + BigSigma1(e) + Ch(e, f, g), k);
    SumVector(h + BigSigma1(e) + Ch(e, f, g) + k, w);
  }

  lemma SecondVector(a: Word, b: Word, c: Word)
    ensures Vector(BigSigma0(a) + Maj(a, b, c)) == Plus(BigSigma0V(Vector(a)), MajV(Vector(a), Vector(b), Vector(c)))
  {
    hide *;
    BigSigmaVectors(a);
    MajVector(a, b, c);
    SumVector(BigSigma0(a), Maj(a, b, c));
  }

  lemma VectorsOfIs(s: State)
    ensures VectorsOf(s) ==
            Vectors(Vector(s[0]), Vector(s[1]), Vector(s[2]), Vector(s[3]), Vector(s[4]), Vector(s[5]), Vector(s[6]), Vector(s[7]))
  {
    hide Vector;
  }

  ghost function FirstOf(s: State, k: Word, w: Word): nat {
    s[7] + BigSigma1(s[4]) + Ch(s[4], s[5], s[6]) + k + w
  }

  function SecondOf(s: State): nat {
    BigSigma0(s[0]) + Maj(s[0], s[1], s[2])
  }

  lemma SumsVector(s: State, k: Word, w: Word)
    ensures Vector(FirstOf(s, k, w)) == FirstSum(VectorsOf(s), Vector(k), Vector(w))
    ensures Vector(SecondOf(s)) == SecondSum(VectorsOf(s))
  {
    hide Vector, BigSigma0, BigSigma1, Ch, Maj, Plus, BigSigma0V, BigSigma1V, ChV, MajV;
    FirstVector(s[7], s[4], s[5], s[6], k, w);
    SecondVector(s[0], s[1], s[2]);
  }

  lemma RoundParts(s: State, k: Word, w: Word)
    ensures var r := Round(s, k, w);
            && r[0] == Sum(FirstOf(s, k, w) + SecondOf(s)) && r[1] == s[0] && r[2] == s[1] && r[3] == s[2]
            && r[4] == Sum(s[3] + FirstOf(s, k, w)) && r[5] == s[4] && r[6] == s[5] && r[7] == s[6]
  {
    hide BigSigma0, BigSigma1, Ch, Maj, Sum;
  }

  lemma RoundFields(s: State, k: Word, w: Word)
    ensures var r, v := VectorsOf(Round(s, k, w)), VectorsOf(s);
            && r.a == Vector(Sum(FirstOf(s, k, w) + SecondOf(s))) && r.b == v.a && r.c == v.b && r.d == v.c
            && r.e == Vector(Sum(s[3] + FirstOf(s, k, w))) && r.f == v.e && r.g == v.f && r.h == v.g
            && v.d == Vector(s[3])
  {
    hide *;
    RoundParts(s, k, w);
    VectorsOfIs(s);
    VectorsOfIs(Round(s, k, w));
  }

  lemma SumOfTwo(x: nat, y: nat)
    ensures Vector(Sum(x + y)) == Plus(Vector(x), Vector(y))
  {
    hide *;
    SumVector(x, y);
    SumVector(x + y, 0);
  }

  lemma RoundVectors(s: State, k: Word, w: Word)
    ensures VectorsOf(Round(s, k, w)) == RoundV(VectorsOf(s), Vector(k), Vector(w))
  {
    hide *;
    RoundFields(s, k, w);
    SumsVector(s, k, w);
    SumOfTwo(FirstOf(s, k, w), SecondOf(s));
    SumOfTwo(s[3], FirstOf(s, k, w));
    RoundVIs(VectorsOf(s), Vector(k), Vector(w), VectorsOf(Round(s, k, w)));
  }

  lemma RoundVIs(v: Vectors, k: bv32, w: bv32, r: Vectors)
    requires r.a == Plus(FirstSum(v, k, w), SecondSum(v)) && r.b == v.a && r.c == v.b && r.d == v.c
    requires r.e == Plus(v.d, FirstSum(v, k, w)) && r.f == v.e && r.g == v.f && r.h == v.g
    ensures r == RoundV(v, k, w)
  {
    hide Plus, FirstSum, SecondSum;
  }

}
