/**
 Words as bit vectors: the operations of SHA-256 on numbers are those of the machine on vectors of
 thirty-two bits, in which a hash can be computed.
 */
module Sha256Vectors {
  import opened Bits
  import opened Sha256Spec

  // ---------------------------------------------------------------------------
  // Vectors with one more bit at the end
  // ---------------------------------------------------------------------------

  function Even(b: bv32): bv32 {
    2 * b
  }

  function Odd(b: bv32): bv32 {
    2 * b + 1
  }

  function Half(b: bv32): bv32 {
    b / 2
  }

  function Plus(a: bv32, b: bv32): bv32 {
    a + b
  }

  function Meet(a: bv32, b: bv32): bv32 {
    a & b
  }

  function Differ(a: bv32, b: bv32): bv32 {
    a ^ b
  }

  lemma PlusIs(a: bv32, b: bv32)
    ensures Plus(a, b) == a + b
  {
  }

  lemma SwapSums(a: bv32, b: bv32, c: bv32, d: bv32, ab: bv32, cd: bv32, ac: bv32, bd: bv32)
    requires ab == a + b && cd == c + d && ac == a + c && bd == b + d
    ensures Plus(ab, cd) == Plus(ac, bd)
  {
  }

  lemma Swap(a: bv32, b: bv32, c: bv32, d: bv32)
    ensures Plus(Plus(a, b), Plus(c, d)) == Plus(Plus(a, c), Plus(b, d))
  {
    hide *;
    PlusIs(a, b);
    PlusIs(c, d);
    PlusIs(a, c);
    PlusIs(b, d);
    SwapSums(a, b, c, d, Plus(a, b), Plus(c, d), Plus(a, c), Plus(b, d));
  }

  lemma PlusNothing(b: bv32)
    ensures Plus(b, 0) == b && Plus(0, b) == b
  {
  }

  lemma EvenIs(b: bv32)
    ensures Even(b) == Plus(b, b)
  {
  }

  lemma OddIs(b: bv32)
    ensures Odd(b) == Plus(Even(b), 1)
  {
  }

  lemma PlusEvenEven(u: bv32, v: bv32)
    ensures Plus(Even(u), Even(v)) == Even(Plus(u, v))
  {
    hide *;
    EvenIs(u);
    EvenIs(v);
    EvenIs(Plus(u, v));
    Swap(u, u, v, v);
  }

  lemma PlusOddEven(u: bv32, v: bv32)
    ensures Plus(Odd(u), Even(v)) == Odd(Plus(u, v))
  {
    hide *;
    OddIs(u);
    OddIs(Plus(u, v));
    PlusEvenEven(u, v);
    PlusNothing(Even(v));
    PlusNothing(1);
    Swap(Even(u), 1, Even(v), 0);
  }

  lemma PlusEvenOdd(u: bv32, v: bv32)
    ensures Plus(Even(u), Odd(v)) == Odd(Plus(u, v))
  {
    hide *;
    OddIs(v);
    OddIs(Plus(u, v));
    PlusEvenEven(u, v);
    PlusNothing(Even(u));
    PlusNothing(1);
    Swap(Even(u), 0, Even(v), 1);
  }

  lemma PlusOddOdd(u: bv32, v: bv32)
    ensures Plus(Odd(u), Odd(v)) == Even(Plus(Plus(u, v), 1))
  {
    hide *;
    OddIs(u);
    OddIs(v);
    EvenIs(1);
    PlusEvenEven(u, v);
    PlusEvenEven(Plus(u, v), 1);
    Swap(Even(u), 1, Even(v), 1);
  }

  lemma MeetEvenEven(u: bv32, v: bv32)
    ensures Meet(Even(u), Even(v)) == Even(Meet(u, v))
  {
  }

  lemma MeetEvenOdd(u: bv32, v: bv32)
    ensures Meet(Even(u), Odd(v)) == Even(Meet(u, v))
  {
  }

  lemma MeetOddEven(u: bv32, v: bv32)
    ensures Meet(Odd(u), Even(v)) == Even(Meet(u, v))
  {
  }

  lemma MeetOddOdd(u: bv32, v: bv32)
    ensures Meet(Odd(u), Odd(v)) == Odd(Meet(u, v))
  {
  }

  lemma DifferEvenEven(u: bv32, v: bv32)
    ensures Differ(Even(u), Even(v)) == Even(Differ(u, v))
  {
  }

  lemma DifferEvenOdd(u: bv32, v: bv32)
    ensures Differ(Even(u), Odd(v)) == Odd(Differ(u, v))
  {
  }

  lemma DifferOddEven(u: bv32, v: bv32)
    ensures Differ(Odd(u), Even(v)) == Odd(Differ(u, v))
  {
  }

  lemma DifferOddOdd(u: bv32, v: bv32)
    ensures Differ(Odd(u), Odd(v)) == Even(Differ(u, v))
  {
  }

  lemma EvenNothing()
    ensures Even(0) == 0
  {
  }

  // ---------------------------------------------------------------------------
  // Numbers as vectors
  // ---------------------------------------------------------------------------

  /** The number modulo 2^32, as a vector. */
  ghost function Vector(x: nat): bv32 {
    if x == 0 then 0 else if x % 2 == 1 then Odd(Vector(x / 2)) else Even(Vector(x / 2))
  }

  lemma VectorUnfold(x: nat)
    ensures Vector(x) == if x % 2 == 1 then Odd(Vector(x / 2)) else Even(Vector(x / 2))
  {
    EvenNothing();
    hide Even, Odd;
    if x == 0 {
      assert Vector(0) == 0;
    }
  }

  lemma VectorDouble(x: nat)
    ensures Vector(2 * x) == Even(Vector(x)) && Vector(2 * x + 1) == Odd(Vector(x))
  {
    hide *;
    VectorUnfold(2 * x);
    VectorUnfold(2 * x + 1);
    assert (2 * x) / 2 == x && (2 * x + 1) / 2 == x;
  }

  lemma VectorNothing()
    ensures Vector(0) == 0
  {
  }

  lemma VectorOne()
    ensures Vector(1) == 1
  {
    VectorUnfold(1);
    VectorNothing();
    hide Vector;
  }

  /** Addition is that of vectors, which wraps around. */
  lemma {:induction false} VectorAdd(x: nat, y: nat)
    ensures Vector(x + y) == Plus(Vector(x), Vector(y))
    decreases x + y
  {
    hide *;
    VectorNothing();
    PlusNothing(Vector(x));
    PlusNothing(Vector(y));
    if x > 0 && y > 0 {
      var u, v, half := Vector(x / 2), Vector(y / 2), x / 2 + y / 2;
      VectorUnfold(x);
      VectorUnfold(y);
      VectorAdd(x / 2, y / 2);
      PlusEvenEven(u, v);
      PlusEvenOdd(u, v);
      PlusOddEven(u, v);
      PlusOddOdd(u, v);
      if x % 2 == 1 && y % 2 == 1 {
        VectorAdd(half, 1);
        VectorOne();
        VectorDouble(half + 1);
        assert x + y == 2 * (half + 1);
      } else {
        VectorDouble(half);
        assert x + y == 2 * half || x + y == 2 * half + 1;
      }
    }
  }

  lemma MeetNothing(b: bv32)
    ensures Meet(0, b) == 0
  {
  }

  lemma DifferNothing(b: bv32)
    ensures Differ(0, b) == b && Differ(b, 0) == b
  {
  }

  lemma {:induction false} VectorAnd(x: nat, y: nat)
    ensures Vector(And(x, y)) == Meet(Vector(x), Vector(y))
    decreases x
  {
    hide *;
    AndUnfold(x, y);
    if x == 0 {
      AndNothing(y);
      VectorNothing();
      MeetNothing(Vector(y));
    } else {
      var u, v := Vector(x / 2), Vector(y / 2);
      VectorUnfold(x);
      VectorUnfold(y);
      VectorAnd(x / 2, y / 2);
      VectorDouble(And(x / 2, y / 2));
      MeetEvenEven(u, v);
      MeetEvenOdd(u, v);
      MeetOddEven(u, v);
      MeetOddOdd(u, v);
    }
  }

  lemma AndNothing(y: nat)
    ensures And(0, y) == 0
  {
  }

  lemma {:induction false} VectorXor(x: nat, y: nat)
    ensures Vector(Xor(x, y)) == Differ(Vector(x), Vector(y))
    decreases x + y
  {
    hide *;
    XorUnfold(x, y);
    if x == 0 && y == 0 {
      XorNothing();
      VectorNothing();
      DifferNothing(0);
    } else {
      var u, v := Vector(x / 2), Vector(y / 2);
      VectorUnfold(x);
      VectorUnfold(y);
      VectorXor(x / 2, y / 2);
      VectorDouble(Xor(x / 2, y / 2));
      DifferEvenEven(u, v);
      DifferEvenOdd(u, v);
      DifferOddEven(u, v);
      DifferOddOdd(u, v);
    }
  }

  lemma XorNothing()
    ensures Xor(0, 0) == 0
  {
  }

  // ---------------------------------------------------------------------------
  // Powers of two
  // ---------------------------------------------------------------------------

  /** k times doubled, and k times halved. */
  ghost function Doubled(b: bv32, k: nat): bv32 {
    if k == 0 then b else Even(Doubled(b, k - 1))
  }

  ghost function Halved(b: bv32, k: nat): bv32 {
    if k == 0 then b else Half(Halved(b, k - 1))
  }

  lemma Unfolded(b: bv32, k: nat)
    ensures Doubled(b, k) == if k == 0 then b else Even(Doubled(b, k - 1))
    ensures Halved(b, k) == if k == 0 then b else Half(Halved(b, k - 1))
  {
    hide Even, Half;
  }

  lemma {:induction false} Split(b: bv32, j: nat, k: nat)
    ensures Doubled(b, j + k) == Doubled(Doubled(b, j), k)
    ensures Halved(b, j + k) == Halved(Halved(b, j), k)
    decreases k
  {
    hide *;
    Unfolded(b, j + k);
    Unfolded(Doubled(b, j), k);
    Unfolded(Halved(b, j), k);
    if k > 0 {
      Split(b, j, k - 1);
    }
  }

  lemma {:induction false} VectorTimes(x: nat, k: nat)
    ensures Vector(x * Pow2(k)) == Doubled(Vector(x), k)
  {
    hide *;
    Pow2Unfold(k);
    Unfolded(Vector(x), k);
    if k > 0 {
      VectorTimes(x, k - 1);
      TwiceProduct(Pow2(k - 1), x);
      VectorDouble(x * Pow2(k - 1));
    }
  }

  lemma DoubledFew(b: bv32)
    ensures Doubled(b, 0) == b && Doubled(b, 1) == b * 0x2 && Doubled(b, 2) == b * 0x4
    ensures Doubled(b, 3) == b * 0x8 && Doubled(b, 4) == b * 0x10 && Doubled(b, 5) == b * 0x20
    ensures Doubled(b, 6) == b * 0x40 && Doubled(b, 7) == b * 0x80 && Doubled(b, 8) == b * 0x100
  {
    hide *;
    Unfolded(b, 0);
    Unfolded(b, 1);
    Unfolded(b, 2);
    Unfolded(b, 3);
    Unfolded(b, 4);
    Unfolded(b, 5);
    Unfolded(b, 6);
    Unfolded(b, 7);
    Unfolded(b, 8);
    EvenTimes0(b);
    EvenTimes1(b);
    EvenTimes2(b);
    EvenTimes3(b);
    EvenTimes4(b);
    EvenTimes5(b);
    EvenTimes6(b);
    EvenTimes7(b);
  }

  lemma EvenTimes0(b: bv32)
    ensures Even(b) == b * 0x2
  {
  }

  lemma EvenTimes1(b: bv32)
    ensures Even(b * 0x2) == b * 0x4
  {
  }

  lemma EvenTimes2(b: bv32)
    ensures Even(b * 0x4) == b * 0x8
  {
  }

  lemma EvenTimes3(b: bv32)
    ensures Even(b * 0x8) == b * 0x10
  {
  }

  lemma EvenTimes4(b: bv32)
    ensures Even(b * 0x10) == b * 0x20
  {
  }

  lemma EvenTimes5(b: bv32)
    ensures Even(b * 0x20) == b * 0x40
  {
  }

  lemma EvenTimes6(b: bv32)
    ensures Even(b * 0x40) == b * 0x80
  {
  }

  lemma EvenTimes7(b: bv32)
    ensures Even(b * 0x80) == b * 0x100
  {
  }

  lemma HalvedFew(b: bv32)
    ensures Halved(b, 0) == b && Halved(b, 1) == b / 0x2 && Halved(b, 2) == b / 0x4
    ensures Halved(b, 3) == b / 0x8 && Halved(b, 4) == b / 0x10 && Halved(b, 5) == b / 0x20
    ensures Halved(b, 6) == b / 0x40 && Halved(b, 7) == b / 0x80 && Halved(b, 8) == b / 0x100
  {
    hide *;
    Unfolded(b, 0);
    Unfolded(b, 1);
    Unfolded(b, 2);
    Unfolded(b, 3);
    Unfolded(b, 4);
    Unfolded(b, 5);
    Unfolded(b, 6);
    Unfolded(b, 7);
    Unfolded(b, 8);
    HalfOf0(b);
    HalfOf1(b);
    HalfOf2(b);
    HalfOf3(b);
    HalfOf4(b);
    HalfOf5(b);
    HalfOf6(b);
    HalfOf7(b);
  }

  lemma HalfOf0(b: bv32)
    ensures Half(b) == b / 0x2
  {
  }

  lemma HalfOf1(b: bv32)
    ensures Half(b / 0x2) == b / 0x4
  {
  }

  lemma HalfOf2(b: bv32)
    ensures Half(b / 0x4) == b / 0x8
  {
  }

  lemma HalfOf3(b: bv32)
    ensures Half(b / 0x8) == b / 0x10
  {
  }

  lemma HalfOf4(b: bv32)
    ensures Half(b / 0x10) == b / 0x20
  {
  }

  lemma HalfOf5(b: bv32)
    ensures Half(b / 0x20) == b / 0x40
  {
  }

  lemma HalfOf6(b: bv32)
    ensures Half(b / 0x40) == b / 0x80
  {
  }

  lemma HalfOf7(b: bv32)
    ensures Half(b / 0x80) == b / 0x100
  {
  }

  lemma DoubledAway(b: bv32)
    ensures Doubled(b, 32) == 0
  {
    hide *;
    DoubledFew(b);
    DoubledFew(b * 0x100);
    DoubledFew(b * 0x1_0000);
    DoubledFew(b * 0x100_0000);
    Split(b, 8, 8);
    Split(b, 16, 8);
    Split(b, 24, 8);
  }

  lemma VectorWraps(x: nat)
    ensures Vector(x % WORD_SIZE) == Vector(x)
  {
    Pow2Values();
    var q := x / WORD_SIZE;
    hide *;
    assert x == q * Pow2(32) + x % WORD_SIZE;
    VectorAdd(q * Pow2(32), x % WORD_SIZE);
    VectorTimes(q, 32);
    DoubledAway(Vector(q));
    PlusNothing(Vector(x % WORD_SIZE));
  }

  // ---------------------------------------------------------------------------
  // Literal words
  // ---------------------------------------------------------------------------

  /** A hexadecimal digit at the end of a vector. */
  function Digit(d: nat): bv32
    requires d < 16
  {
    if d == 0 then 0 else if d == 1 then 1 else if d == 2 then 2 else if d == 3 then 3
    else if d == 4 then 4 else if d == 5 then 5 else if d == 6 then 6 else if d == 7 then 7
    else if d == 8 then 8 else if d == 9 then 9 else if d == 10 then 10 else if d == 11 then 11
    else if d == 12 then 12 else if d == 13 then 13 else if d == 14 then 14 else 15
  }

  function Sixteen(b: bv32): bv32 {
    b * 0x10
  }

  lemma SixteenIs(b: bv32)
    ensures Sixteen(b) == Even(Even(Even(Even(b))))
  {
  }

  function Append(b: bv32, e: bv32): bv32 {
    b * 0x10 + e
  }

  lemma VectorSmall(d: nat)
    requires d < 16
    ensures Vector(d) == Digit(d)
  {
    hide Vector;
    VectorNothing();
    VectorUnfold(d);
    VectorUnfold(d / 2);
    VectorUnfold(d / 4);
    VectorUnfold(d / 8);
    assert d / 2 / 2 == d / 4 && d / 4 / 2 == d / 8 && d / 8 / 2 == 0;
  }

  lemma VectorShift(q: nat)
    ensures Vector(0x10 * q) == Sixteen(Vector(q))
  {
    hide *;
    VectorDouble(q);
    VectorDouble(2 * q);
    VectorDouble(4 * q);
    VectorDouble(8 * q);
    SixteenIs(Vector(q));
    assert 2 * (2 * q) == 4 * q && 2 * (4 * q) == 8 * q && 2 * (8 * q) == 0x10 * q;
  }

  lemma VectorAppend(q: nat, d: nat)
    requires d < 16
    ensures Vector(0x10 * q + d) == Append(Vector(q), Digit(d))
  {
    hide *;
    AppendUnfold(Vector(q), Digit(d));
    VectorAdd(0x10 * q, d);
    VectorShift(q);
    VectorSmall(d);
  }

  lemma AppendUnfold(b: bv32, e: bv32)
    ensures Append(b, e) == Plus(Sixteen(b), e)
  {
  }

  function HexWord(d7: nat, d6: nat, d5: nat, d4: nat, d3: nat, d2: nat, d1: nat, d0: nat): nat {
    0x1000_0000 * d7 + 0x100_0000 * d6 + 0x10_0000 * d5 + 0x1_0000 * d4 + 0x1000 * d3 + 0x100 * d2 + 0x10 * d1 + d0
  }

  lemma HexChain(d7: nat, d6: nat, d5: nat, d4: nat, d3: nat, d2: nat, d1: nat, d0: nat)
    requires d7 < 16 && d6 < 16 && d5 < 16 && d4 < 16 && d3 < 16 && d2 < 16 && d1 < 16 && d0 < 16
    ensures Vector(HexWord(d7, d6, d5, d4, d3, d2, d1, d0)) ==
            Append(Append(Append(Append(Append(Append(Append(Digit(d7), Digit(d6)), Digit(d5)), Digit(d4)), Digit(d3)),
                                 Digit(d2)), Digit(d1)), Digit(d0))
  {
    hide Vector, Append, Digit;
    var w6 := 0x10 * d7 + d6;
    var w5 := 0x10 * w6 + d5;
    var w4 := 0x10 * w5 + d4;
    var w3 := 0x10 * w4 + d3;
    var w2 := 0x10 * w3 + d2;
    var w1 := 0x10 * w2 + d1;
    VectorSmall(d7);
    VectorAppend(d7, d6);
    VectorAppend(w6, d5);
    VectorAppend(w5, d4);
    VectorAppend(w4, d3);
    VectorAppend(w3, d2);
    VectorAppend(w2, d1);
    VectorAppend(w1, d0);
    assert HexWord(d7, d6, d5, d4, d3, d2, d1, d0) == 0x10 * w1 + d0;
  }

  /** The vector of a word written in hexadecimal digits. */
  lemma VectorHex(d7: nat, d6: nat, d5: nat, d4: nat, d3: nat, d2: nat, d1: nat, d0: nat)
    requires d7 < 16 && d6 < 16 && d5 < 16 && d4 < 16 && d3 < 16 && d2 < 16 && d1 < 16 && d0 < 16
    ensures Vector(HexWord(d7, d6, d5, d4, d3, d2, d1, d0)) ==
            HexVector(Digit(d7), Digit(d6), Digit(d5), Digit(d4), Digit(d3), Digit(d2), Digit(d1), Digit(d0))
  {
    hide Vector, Append, Digit, HexVector, HexWord;
    HexChain(d7, d6, d5, d4, d3, d2, d1, d0);
    AppendEight(Digit(d7), Digit(d6), Digit(d5), Digit(d4), Digit(d3), Digit(d2), Digit(d1), Digit(d0));
  }

  function HexVector(e7: bv32, e6: bv32, e5: bv32, e4: bv32, e3: bv32, e2: bv32, e1: bv32, e0: bv32): bv32 {
    e7 * 0x10000000 + e6 * 0x1000000 + e5 * 0x100000 + e4 * 0x10000 + e3 * 0x1000 + e2 * 0x100 + e1 * 0x10 + e0
  }

  lemma Append2(e7: bv32, e6: bv32)
    ensures Append(e7, e6) == e7 * 0x10 + e6
  {
  }

  lemma Append3(s: bv32, e7: bv32, e6: bv32, e5: bv32)
    requires s == e7 * 0x10 + e6
    ensures Append(s, e5) == e7 * 0x100 + e6 * 0x10 + e5
  {
  }

  lemma Append4(s: bv32, e7: bv32, e6: bv32, e5: bv32, e4: bv32)
    requires s == e7 * 0x100 + e6 * 0x10 + e5
    ensures Append(s, e4) == e7 * 0x1000 + e6 * 0x100 + e5 * 0x10 + e4
  {
  }

  lemma Append5(s: bv32, e7: bv32, e6: bv32, e5: bv32, e4: bv32, e3: bv32)
    requires s == e7 * 0x1000 + e6 * 0x100 + e5 * 0x10 + e4
    ensures Append(s, e3) == e7 * 0x10000 + e6 * 0x1000 + e5 * 0x100 + e4 * 0x10 + e3
  {
  }

  lemma Append6(s: bv32, e7: bv32, e6: bv32, e5: bv32, e4: bv32, e3: bv32, e2: bv32)
    requires s == e7 * 0x10000 + e6 * 0x1000 + e5 * 0x100 + e4 * 0x10 + e3
    ensures Append(s, e2) == e7 * 0x100000 + e6 * 0x10000 + e5 * 0x1000 + e4 * 0x100 + e3 * 0x10 + e2
  {
  }

  lemma Append7(s: bv32, e7: bv32, e6: bv32, e5: bv32, e4: bv32, e3: bv32, e2: bv32, e1: bv32)
    requires s == e7 * 0x100000 + e6 * 0x10000 + e5 * 0x1000 + e4 * 0x100 + e3 * 0x10 + e2
    ensures Append(s, e1) == e7 * 0x1000000 + e6 * 0x100000 + e5 * 0x10000 + e4 * 0x1000 + e3 * 0x100 + e2 * 0x10 + e1
  {
  }

  lemma Append8(s: bv32, e7: bv32, e6: bv32, e5: bv32, e4: bv32, e3: bv32, e2: bv32, e1: bv32, e0: bv32)
    requires s == e7 * 0x1000000 + e6 * 0x100000 + e5 * 0x10000 + e4 * 0x1000 + e3 * 0x100 + e2 * 0x10 + e1
    ensures Append(s, e0) == HexVector(e7, e6, e5, e4, e3, e2, e1, e0)
  {
  }

  lemma AppendEight(e7: bv32, e6: bv32, e5: bv32, e4: bv32, e3: bv32, e2: bv32, e1: bv32, e0: bv32)
    ensures Append(Append(Append(Append(Append(Append(Append(e7, e6), e5), e4), e3), e2), e1), e0) ==
            HexVector(e7, e6, e5, e4, e3, e2, e1, e0)
  {
    hide *;
    var s6 := Append(e7, e6);
    var s5 := Append(s6, e5);
    var s4 := Append(s5, e4);
    var s3 := Append(s4, e3);
    var s2 := Append(s3, e2);
    var s1 := Append(s2, e1);
    Append2(e7, e6);
    Append3(s6, e7, e6, e5);
    Append4(s5, e7, e6, e5, e4);
    Append5(s4, e7, e6, e5, e4, e3);
    Append6(s3, e7, e6, e5, e4, e3, e2);
    Append7(s2, e7, e6, e5, e4, e3, e2, e1);
    Append8(s1, e7, e6, e5, e4, e3, e2, e1, e0);
  }

  // ---------------------------------------------------------------------------
  // Complements, shifts and rotations
  // ---------------------------------------------------------------------------

  lemma {:induction false} NotIsXor(k: nat, x: nat)
    requires x < Pow2(k)
    ensures Xor(x, Pow2(k) - 1) == Pow2(k) - 1 - x
  {
    hide *;
    Pow2Unfold(k);
    XorUnfold(x, Pow2(k) - 1);
    if k == 0 {
      XorNothing();
    } else {
      NotIsXor(k - 1, x / 2);
    }
  }

  lemma VectorNot(x: Word)
    ensures Vector(WNot(x)) == Differ(Vector(x), 0xFFFF_FFFF)
  {
    NotWord(x);
    hide *;
    VectorXor(x, WORD_SIZE - 1);
    VectorHex(0xF, 0xF, 0xF, 0xF, 0xF, 0xF, 0xF, 0xF);
    AllOnes();
  }

  lemma AllOnes()
    ensures HexVector(Digit(0xF), Digit(0xF), Digit(0xF), Digit(0xF), Digit(0xF), Digit(0xF), Digit(0xF), Digit(0xF)) == 0xFFFF_FFFF
  {
  }

  lemma NotWord(x: Word)
    ensures WNot(x) == Xor(x, WORD_SIZE - 1) && WORD_SIZE - 1 == HexWord(0xF, 0xF, 0xF, 0xF, 0xF, 0xF, 0xF, 0xF)
  {
    Pow2Values();
    NotIsXor(32, x);
    hide Xor, Pow2;
  }

  predicate Below(b: bv32, limit: bv32) {
    b < limit
  }

  /** The vectors of k bits are those below this one. */
  lemma LimitIs(k: nat)
    requires k <= 31
    ensures k <= 30 ==> !Below(0x4000_0000, Doubled(1, k))
    ensures k == 31 ==> Doubled(1, k) == 0x8000_0000
  {
    hide *;
    var r := k % 8;
    DoubledFew(1);
    DoubledFew(0x100);
    DoubledFew(0x1_0000);
    DoubledFew(0x100_0000);
    Split(1, 8, 8);
    Split(1, 16, 8);
    Split(1, k - r, r);
    assert k - r == 0 || k - r == 8 || k - r == 16 || k - r == 24;
    assert r == 0 || r == 1 || r == 2 || r == 3 || r == 4 || r == 5 || r == 6 || r == 7;
    BelowIs(0x4000_0000, Doubled(1, k));
  }

  lemma BelowIs(b: bv32, limit: bv32)
    ensures Below(b, limit) <==> b < limit
  {
  }

  lemma {:induction false} VectorBelow(x: nat, k: nat)
    requires k <= 31 && x < Pow2(k)
    ensures Below(Vector(x), Doubled(1, k))
  {
    hide *;
    Unfolded(1, k);
    VectorUnfold(x);
    Pow2Unfold(k);
    if k == 0 {
      VectorNothing();
      BelowIs(0, 1);
    } else {
      VectorBelow(x / 2, k - 1);
      LimitIs(k - 1);
      BelowDouble(Vector(x / 2), Doubled(1, k - 1));
    }
  }

  lemma BelowDouble(u: bv32, limit: bv32)
    requires Below(u, limit) && !Below(0x4000_0000, limit)
    ensures Below(Odd(u), Even(limit)) && Below(Even(u), Even(limit))
  {
  }

  lemma VectorHalf(x: Word)
    ensures Vector(x / 2) == Half(Vector(x)) && Below(Vector(x / 2), 0x8000_0000)
  {
    hide *;
    Pow2Values();
    Pow2Unfold(32);
    HalfOfWord(x);
    VectorUnfold(x);
    VectorBelow(x / 2, 31);
    LimitIs(31);
    HalfOfNext(Vector(x / 2));
  }

  lemma HalfOfWord(x: Word)
    ensures x / 2 < WORD_SIZE / 2
  {
  }

  lemma HalfOfNext(u: bv32)
    requires Below(u, 0x8000_0000)
    ensures Half(Odd(u)) == u && Half(Even(u)) == u
  {
  }

  /** Words with the same vector are the same. */
  lemma SameVector(x: Word, y: Word)
    requires Vector(x) == Vector(y)
    ensures x == y
  {
    hide *;
    WordBound(x);
    WordBound(y);
    SameVectors(x, y);
  }

  lemma WordBound(x: Word)
    ensures x < WORD_SIZE && x / 2 < WORD_SIZE
  {
  }

  lemma {:induction false} SameVectors(x: nat, y: nat)
    requires x < WORD_SIZE && y < WORD_SIZE && Vector(x) == Vector(y)
    ensures x == y
    decreases x + y
  {
    hide *;
    if x != 0 || y != 0 {
      WordBound(x);
      WordBound(y);
      VectorUnfold(x);
      VectorUnfold(y);
      VectorHalf(x);
      VectorHalf(y);
      SameStep(Vector(x / 2), Vector(y / 2));
      SameVectors(x / 2, y / 2);
    }
  }

  lemma SameStep(u: bv32, v: bv32)
    requires Below(u, 0x8000_0000) && Below(v, 0x8000_0000)
    ensures Odd(u) == Odd(v) ==> u == v
    ensures Even(u) == Even(v) ==> u == v
    ensures Even(u) != Odd(v) && Odd(u) != Even(v)
  {
  }

  lemma {:induction false} VectorShr(n: nat, x: Word)
    ensures Vector(Shr(n, x)) == Halved(Vector(x), n)
  {
    hide *;
    Unfolded(Vector(x), n);
    ShrUnfold(n, x);
    if n > 0 {
      VectorShr(n - 1, x);
      VectorHalf(Shr(n - 1, x));
    }
  }

  lemma ShrUnfold(n: nat, x: Word)
    ensures Shr(n, x) == if n == 0 then x else Shr(n - 1, x) / 2
  {
    ShrPower(n, x);
    hide Shr, Pow2;
    if n > 0 {
      ShrPower(n - 1, x);
      QuotientHalf(x, Pow2(n - 1));
    }
  }

  lemma ShrPower(n: nat, x: Word)
    ensures Shr(n, x) == x / Pow2(n) && Pow2(n) == if n == 0 then 1 else 2 * Pow2(n - 1)
  {
  }

  lemma QuotientHalf(x: nat, p: nat)
    requires p > 0
    ensures x / (2 * p) == (x / p) / 2
  {
    var q := x / p;
    NonNegative(x, p);
    assert x == p * q + x % p;
    ProductHalf(p, q);
    DivModUnique(x, 2 * p, q / 2, p * (q % 2) + x % p);
  }

  lemma ProductHalf(p: nat, q: nat)
    requires p > 0
    ensures p * q == (2 * p) * (q / 2) + p * (q % 2) && 0 <= p * (q % 2) <= p
  {
    assert q == 2 * (q / 2) + q % 2;
    assert q % 2 == 0 || q % 2 == 1;
  }

  lemma VectorRotr(n: nat, x: Word)
    requires n <= 32
    ensures Vector(Rotr(n, x)) == Plus(Halved(Vector(x), n), Doubled(Vector(x), 32 - n))
  {
    hide *;
    RotrAsShr(n, x);
    VectorShr(n, x);
    VectorAdd(Shr(n, x), (x % Pow2(n)) * Pow2(32 - n));
    VectorTimes(x, 32 - n);
    VectorWraps(x * Pow2(32 - n));
    LowMoves(n, x);
  }

  lemma RotrAsShr(n: nat, x: Word)
    requires n <= 32
    ensures Rotr(n, x) == Shr(n, x) + (x % Pow2(n)) * Pow2(32 - n) && (x % Pow2(n)) * Pow2(32 - n) >= 0
  {
    RotrBound(n, x);
    hide Pow2;
  }

  /** The bits that a left shift keeps. */
  lemma LowMoves(n: nat, x: Word)
    requires n <= 32
    ensures (x * Pow2(32 - n)) % WORD_SIZE == (x % Pow2(n)) * Pow2(32 - n)
  {
    LowBound(n, x);
    hide *;
    LowProduct(x, Pow2(n), Pow2(32 - n));
  }

  lemma LowBound(n: nat, x: Word)
    requires n <= 32
    ensures Pow2(n) * Pow2(32 - n) == WORD_SIZE && 0 <= (x % Pow2(n)) * Pow2(32 - n) < WORD_SIZE
  {
    Pow2Values();
    Pow2Sum(n, 32 - n);
    RotrBound(n, x);
    hide Pow2;
  }

  lemma LowProduct(x: nat, p: nat, m: nat)
    requires p > 0 && m > 0 && p * m == WORD_SIZE && 0 <= (x % p) * m < WORD_SIZE
    ensures (x * m) % WORD_SIZE == (x % p) * m
  {
    var q, r := x / p, x % p;
    NonNegative(x, p);
    assert x == p * q + r;
    ProductSplit(p, q, r, m);
    DivModUnique(x * m, WORD_SIZE, q, r * m);
  }

  lemma ProductSplit(p: nat, q: nat, r: nat, m: nat)
    ensures (p * q + r) * m == (p * m) * q + r * m
  {
  }
}
