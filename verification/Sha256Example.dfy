/**
 The hash of the message "abc" in FIPS 180-2, appendix B.1, computed step by step.
 */
module Sha256Example {
  import opened Bits
  import opened Sha256Spec
  import opened Sha256Vectors
  import opened Sha256Machine

  // ---------------------------------------------------------------------------
  // The padded message
  // ---------------------------------------------------------------------------

  const MESSAGE: seq<Byte> := [0x61, 0x62, 0x63]

  ghost function Block1(): (block: Block)
  {
    MESSAGE + PaddingFor(3, 3)
  }

  lemma {:induction false} NothingBigEndian(k: nat)
    ensures forall i :: 0 <= i < k ==> BigEndian(0, k)[i] == 0
  {
    if k > 0 {
      NothingBigEndian(k - 1);
    }
  }

  lemma BlockBytes()
    ensures var b := Block1();
            && b[0] == 0x61 && b[1] == 0x62 && b[2] == 0x63 && b[3] == 0x80 && b[63] == 24
            && forall i :: 4 <= i < 63 ==> b[i] == 0
  {
    NothingBigEndian(7);
    assert BigEndian(24, 8) == BigEndian(0, 7) + [24];
    assert ZerosNeeded(3) == 52;
    hide BigEndian;
  }

  lemma FirstWords()
    ensures ScheduleWord(Block1(), 0) == 0x61626380 && ScheduleWord(Block1(), 15) == 0x18
    ensures forall t :: 1 <= t < 15 ==> ScheduleWord(Block1(), t) == 0
  {
    BlockBytes();
    hide Block1;
  }

  /** Eight words of the schedule, and the eight after two such rows. */
  ghost function RowAt(i: nat): Vectors {
    var block := Block1();
    Vectors(Vector(ScheduleWord(block, 8 * i)), Vector(ScheduleWord(block, 8 * i + 1)),
            Vector(ScheduleWord(block, 8 * i + 2)), Vector(ScheduleWord(block, 8 * i + 3)),
            Vector(ScheduleWord(block, 8 * i + 4)), Vector(ScheduleWord(block, 8 * i + 5)),
            Vector(ScheduleWord(block, 8 * i + 6)), Vector(ScheduleWord(block, 8 * i + 7)))
  }

  lemma RowAtIs(i: nat)
    ensures var r, block := RowAt(i), Block1();
            && r.a == Vector(ScheduleWord(block, 8 * i)) && r.b == Vector(ScheduleWord(block, 8 * i + 1))
            && r.c == Vector(ScheduleWord(block, 8 * i + 2)) && r.d == Vector(ScheduleWord(block, 8 * i + 3))
            && r.e == Vector(ScheduleWord(block, 8 * i + 4)) && r.f == Vector(ScheduleWord(block, 8 * i + 5))
            && r.g == Vector(ScheduleWord(block, 8 * i + 6)) && r.h == Vector(ScheduleWord(block, 8 * i + 7))
  {
    hide Vector, ScheduleWord, Block1;
  }

  lemma NextRow(i: nat)
    ensures var p, q, r := RowAt(i), RowAt(i + 1), RowAt(i + 2);
            && r.a == ScheduleV(q.g, q.b, p.b, p.a) && r.b == ScheduleV(q.h, q.c, p.c, p.b)
            && r.c == ScheduleV(r.a, q.d, p.d, p.c) && r.d == ScheduleV(r.b, q.e, p.e, p.d)
            && r.e == ScheduleV(r.c, q.f, p.f, p.e) && r.f == ScheduleV(r.d, q.g, p.g, p.f)
            && r.g == ScheduleV(r.e, q.h, p.h, p.g) && r.h == ScheduleV(r.f, r.a, q.a, p.h)
  {
    hide *;
    RowAtIs(i);
    RowAtIs(i + 1);
    RowAtIs(i + 2);
    var block, t := Block1(), 8 * i + 16;
    ScheduleVector(block, t);
    ScheduleVector(block, t + 1);
    ScheduleVector(block, t + 2);
    ScheduleVector(block, t + 3);
    ScheduleVector(block, t + 4);
    ScheduleVector(block, t + 5);
    ScheduleVector(block, t + 6);
    ScheduleVector(block, t + 7);
  }

  ghost function RowOf(ks: seq<Word>): Vectors
    requires |ks| == 8
  {
    Vectors(Vector(ks[0]), Vector(ks[1]), Vector(ks[2]), Vector(ks[3]), Vector(ks[4]), Vector(ks[5]), Vector(ks[6]), Vector(ks[7]))
  }

  /** The working variables after t rounds. */
  ghost function After(t: nat): Vectors
    requires t <= 64
  {
    VectorsOf(Rounds(INITIAL, Block1(), t))
  }

  lemma OneRound(t: nat)
    requires t < 64
    ensures |K| == 64 && After(t + 1) == RoundV(After(t), Vector(K[t]), Vector(ScheduleWord(Block1(), t)))
  {
    ConstantsAt();
    hide Vector, VectorsOf, Round, RoundV, ScheduleWord, Block1, K;
    RoundVectors(Rounds(INITIAL, Block1(), t), K[t], ScheduleWord(Block1(), t));
  }

  ghost predicate RowIn(i: nat, ks: seq<Word>) {
    |ks| == 8 && 8 * i + 8 <= |K| && forall j :: 0 <= j < 8 ==> K[8 * i + j] == ks[j]
  }

  lemma ConstantsAt()
    ensures |K| == 64
    ensures RowIn(0, K0) && RowIn(1, K1) && RowIn(2, K2) && RowIn(3, K3)
    ensures RowIn(4, K4) && RowIn(5, K5) && RowIn(6, K6) && RowIn(7, K7)
  {
  }

  lemma EightRounds(i: nat, ks: seq<Word>)
    requires i < 8 && RowIn(i, ks)
    ensures var v, k, w := After(8 * i), RowOf(ks), RowAt(i);
            After(8 * i + 8) ==
            RoundV(RoundV(RoundV(RoundV(RoundV(RoundV(RoundV(RoundV(v, k.a, w.a), k.b, w.b), k.c, w.c), k.d, w.d),
                                        k.e, w.e), k.f, w.f), k.g, w.g), k.h, w.h)
  {
    hide Vector, ScheduleWord, Block1, After, RoundV, K;
    forall j | 0 <= j < 8
      ensures After(8 * i + j + 1) == RoundV(After(8 * i + j), Vector(ks[j]), Vector(ScheduleWord(Block1(), 8 * i + j)))
    {
      OneRound(8 * i + j);
    }
  }

  lemma AddVectors(s: State, r: State)
    ensures var u, v, sum := VectorsOf(s), VectorsOf(r), VectorsOf(AddState(s, r));
            && sum.a == Plus(u.a, v.a) && sum.b == Plus(u.b, v.b) && sum.c == Plus(u.c, v.c) && sum.d == Plus(u.d, v.d)
            && sum.e == Plus(u.e, v.e) && sum.f == Plus(u.f, v.f) && sum.g == Plus(u.g, v.g) && sum.h == Plus(u.h, v.h)
  {
    hide Vector, Plus, Add;
    forall j | 0 <= j < 8 ensures Vector(AddState(s, r)[j]) == Plus(Vector(s[j]), Vector(r[j])) {
      SumVector(s[j], r[j]);
    }
  }

  ghost function Final(): State {
    Compress(INITIAL, Block1())
  }

  lemma InitialLength()
    ensures |INITIAL| == 8
  {
  }

  lemma FinalIs(t: nat) returns (r: State)
    requires t == 64
    ensures |INITIAL| == 8 && Final() == AddState(INITIAL, r) && After(t) == VectorsOf(r)
  {
    InitialLength();
    r := Rounds(INITIAL, Block1(), t);
    hide Rounds, Block1, VectorsOf, AddState, INITIAL;
  }

  ghost predicate Row(i: nat, row: Vectors) {
    RowAt(i) == row
  }

  lemma RowIs(i: nat, row: Vectors)
    ensures Row(i, row) <==> RowAt(i) == row
  {
    hide RowAt;
  }

  /** Eight rounds for each of i rows of the schedule lead to v. */
  ghost predicate Reached(i: nat, v: Vectors) {
    i <= 8 && After(8 * i) == v
  }

  lemma ReachedIs(i: nat, v: Vectors)
    ensures Reached(i, v) <==> i <= 8 && After(8 * i) == v
  {
    hide After;
  }

  lemma ReachedNothing(i: nat)
    requires i == 0
    ensures Reached(i, A0)
  {
    InitialVectors();
    hide VectorsOf, INITIAL, A0;
  }

  // ---------------------------------------------------------------------------
  // Constants
  // ---------------------------------------------------------------------------

  const C0 := Vectors(0x428A2F98, 0x71374491, 0xB5C0FBCF, 0xE9B5DBA5, 0x3956C25B, 0x59F111F1, 0x923F82A4, 0xAB1C5ED5)
  const C1 := Vectors(0xD807AA98, 0x12835B01, 0x243185BE, 0x550C7DC3, 0x72BE5D74, 0x80DEB1FE, 0x9BDC06A7, 0xC19BF174)
  const C2 := Vectors(0xE49B69C1, 0xEFBE4786, 0x0FC19DC6, 0x240CA1CC, 0x2DE92C6F, 0x4A7484AA, 0x5CB0A9DC, 0x76F988DA)
  const C3 := Vectors(0x983E5152, 0xA831C66D, 0xB00327C8, 0xBF597FC7, 0xC6E00BF3, 0xD5A79147, 0x06CA6351, 0x14292967)
  const C4 := Vectors(0x27B70A85, 0x2E1B2138, 0x4D2C6DFC, 0x53380D13, 0x650A7354, 0x766A0ABB, 0x81C2C92E, 0x92722C85)
  const C5 := Vectors(0xA2BFE8A1, 0xA81A664B, 0xC24B8B70, 0xC76C51A3, 0xD192E819, 0xD6990624, 0xF40E3585, 0x106AA070)
  const C6 := Vectors(0x19A4C116, 0x1E376C08, 0x2748774C, 0x34B0BCB5, 0x391C0CB3, 0x4ED8AA4A, 0x5B9CCA4F, 0x682E6FF3)
  const C7 := Vectors(0x748F82EE, 0x78A5636F, 0x84C87814, 0x8CC70208, 0x90BEFFFA, 0xA4506CEB, 0xBEF9A3F7, 0xC67178F2)

  lemma ConstantRow0()
    ensures RowOf(K0) == C0
  {
    hide Vector;
    VectorHex(4, 2, 8, 0xA, 2, 0xF, 9, 8);
    VectorHex(7, 1, 3, 7, 4, 4, 9, 1);
    VectorHex(0xB, 5, 0xC, 0, 0xF, 0xB, 0xC, 0xF);
    VectorHex(0xE, 9, 0xB, 5, 0xD, 0xB, 0xA, 5);
    VectorHex(3, 9, 5, 6, 0xC, 2, 5, 0xB);
    VectorHex(5, 9, 0xF, 1, 1, 1, 0xF, 1);
    VectorHex(9, 2, 3, 0xF, 8, 2, 0xA, 4);
    VectorHex(0xA, 0xB, 1, 0xC, 5, 0xE, 0xD, 5);
  }

  lemma ConstantRow1()
    ensures RowOf(K1) == C1
  {
    hide Vector;
    VectorHex(0xD, 8, 0, 7, 0xA, 0xA, 9, 8);
    VectorHex(1, 2, 8, 3, 5, 0xB, 0, 1);
    VectorHex(2, 4, 3, 1, 8, 5, 0xB, 0xE);
    VectorHex(5, 5, 0, 0xC, 7, 0xD, 0xC, 3);
    VectorHex(7, 2, 0xB, 0xE, 5, 0xD, 7, 4);
    VectorHex(8, 0, 0xD, 0xE, 0xB, 1, 0xF, 0xE);
    VectorHex(9, 0xB, 0xD, 0xC, 0, 6, 0xA, 7);
    VectorHex(0xC, 1, 9, 0xB, 0xF, 1, 7, 4);
  }

  lemma ConstantRow2()
    ensures RowOf(K2) == C2
  {
    hide Vector;
    VectorHex(0xE, 4, 9, 0xB, 6, 9, 0xC, 1);
    VectorHex(0xE, 0xF, 0xB, 0xE, 4, 7, 8, 6);
    VectorHex(0, 0xF, 0xC, 1, 9, 0xD, 0xC, 6);
    VectorHex(2, 4, 0, 0xC, 0xA, 1, 0xC, 0xC);
    VectorHex(2, 0xD, 0xE, 9, 2, 0xC, 6, 0xF);
    VectorHex(4, 0xA, 7, 4, 8, 4, 0xA, 0xA);
    VectorHex(5, 0xC, 0xB, 0, 0xA, 9, 0xD, 0xC);
    VectorHex(7, 6, 0xF, 9, 8, 8, 0xD, 0xA);
  }

  lemma ConstantRow3()
    ensures RowOf(K3) == C3
  {
    hide Vector;
    VectorHex(9, 8, 3, 0xE, 5, 1, 5, 2);
    VectorHex(0xA, 8, 3, 1, 0xC, 6, 6, 0xD);
    VectorHex(0xB, 0, 0, 3, 2, 7, 0xC, 8);
    VectorHex(0xB, 0xF, 5, 9, 7, 0xF, 0xC, 7);
    VectorHex(0xC, 6, 0xE, 0, 0, 0xB, 0xF, 3);
    VectorHex(0xD, 5, 0xA, 7, 9, 1, 4, 7);
    VectorHex(0, 6, 0xC, 0xA, 6, 3, 5, 1);
    VectorHex(1, 4, 2, 9, 2, 9, 6, 7);
  }

  lemma ConstantRow4()
    ensures RowOf(K4) == C4
  {
    hide Vector;
    VectorHex(2, 7, 0xB, 7, 0, 0xA, 8, 5);
    VectorHex(2, 0xE, 1, 0xB, 2, 1, 3, 8);
    VectorHex(4, 0xD, 2, 0xC, 6, 0xD, 0xF, 0xC);
    VectorHex(5, 3, 3, 8, 0, 0xD, 1, 3);
    VectorHex(6, 5, 0, 0xA, 7, 3, 5, 4);
    VectorHex(7, 6, 6, 0xA, 0, 0xA, 0xB, 0xB);
    VectorHex(8, 1, 0xC, 2, 0xC, 9, 2, 0xE);
    VectorHex(9, 2, 7, 2, 2, 0xC, 8, 5);
  }

  lemma ConstantRow5()
    ensures RowOf(K5) == C5
  {
    hide Vector;
    VectorHex(0xA, 2, 0xB, 0xF, 0xE, 8, 0xA, 1);
    VectorHex(0xA, 8, 1, 0xA, 6, 6, 4, 0xB);
    VectorHex(0xC, 2, 4, 0xB, 8, 0xB, 7, 0);
    VectorHex(0xC, 7, 6, 0xC, 5, 1, 0xA, 3);
    VectorHex(0xD, 1, 9, 2, 0xE, 8, 1, 9);
    VectorHex(0xD, 6, 9, 9, 0, 6, 2, 4);
    VectorHex(0xF, 4, 0, 0xE, 3, 5, 8, 5);
    VectorHex(1, 0, 6, 0xA, 0xA, 0, 7, 0);
  }

  lemma ConstantRow6()
    ensures RowOf(K6) == C6
  {
    hide Vector;
    VectorHex(1, 9, 0xA, 4, 0xC, 1, 1, 6);
    VectorHex(1, 0xE, 3, 7, 6, 0xC, 0, 8);
    VectorHex(2, 7, 4, 8, 7, 7, 4, 0xC);
    VectorHex(3, 4, 0xB, 0, 0xB, 0xC, 0xB, 5);
    VectorHex(3, 9, 1, 0xC, 0, 0xC, 0xB, 3);
    VectorHex(4, 0xE, 0xD, 8, 0xA, 0xA, 4, 0xA);
    VectorHex(5, 0xB, 9, 0xC, 0xC, 0xA, 4, 0xF);
    VectorHex(6, 8, 2, 0xE, 6, 0xF, 0xF, 3);
  }

  lemma ConstantRow7()
    ensures RowOf(K7) == C7
  {
    hide Vector;
    VectorHex(7, 4, 8, 0xF, 8, 2, 0xE, 0xE);
    VectorHex(7, 8, 0xA, 5, 6, 3, 6, 0xF);
    VectorHex(8, 4, 0xC, 8, 7, 8, 1, 4);
    VectorHex(8, 0xC, 0xC, 7, 0, 2, 0, 8);
    VectorHex(9, 0, 0xB, 0xE, 0xF, 0xF, 0xF, 0xA);
    VectorHex(0xA, 4, 5, 0, 6, 0xC, 0xE, 0xB);
    VectorHex(0xB, 0xE, 0xF, 9, 0xA, 3, 0xF, 7);
    VectorHex(0xC, 6, 7, 1, 7, 8, 0xF, 2);
  }

  lemma InitialVectors()
    ensures VectorsOf(INITIAL) == A0
  {
    hide Vector;
    VectorHex(6, 0xA, 0, 9, 0xE, 6, 6, 7);
    VectorHex(0xB, 0xB, 6, 7, 0xA, 0xE, 8, 5);
    VectorHex(3, 0xC, 6, 0xE, 0xF, 3, 7, 2);
    VectorHex(0xA, 5, 4, 0xF, 0xF, 5, 3, 0xA);
    VectorHex(5, 1, 0, 0xE, 5, 2, 7, 0xF);
    VectorHex(9, 0xB, 0, 5, 6, 8, 8, 0xC);
    VectorHex(1, 0xF, 8, 3, 0xD, 9, 0xA, 0xB);
    VectorHex(5, 0xB, 0xE, 0, 0xC, 0xD, 1, 9);
  }

  // ---------------------------------------------------------------------------
  // Message schedule
  // ---------------------------------------------------------------------------

  const W0 := Vectors(0x61626380, 0x00000000, 0x00000000, 0x00000000, 0x00000000, 0x00000000, 0x00000000, 0x00000000)
  const W1 := Vectors(0x00000000, 0x00000000, 0x00000000, 0x00000000, 0x00000000, 0x00000000, 0x00000000, 0x00000018)
  const W2 := Vectors(0x61626380, 0x000F0000, 0x7DA86405, 0x600003C6, 0x3E9D7B78, 0x0183FC00, 0x12DCBFDB, 0xE2E2C38E)
  const W3 := Vectors(0xC8215C1A, 0xB73679A2, 0xE5BC3909, 0x32663C5B, 0x9D209D67, 0xEC8726CB, 0x702138A4, 0xD3B7973B)
  const W4 := Vectors(0x93F5997F, 0x3B68BA73, 0xAFF4FFC1, 0xF10A5C62, 0x0A8B3996, 0x72AF830A, 0x9409E33E, 0x24641522)
  const W5 := Vectors(0x9F47BF94, 0xF0A64F5A, 0x3E246A79, 0x27333BA3, 0x0C4763F2, 0x840ABF27, 0x7A290D5D, 0x065C43DA)
  const W6 := Vectors(0xFB3E89CB, 0xCC7617DB, 0xB9E66C34, 0xA9993667, 0x84BADEDD, 0xC21462BC, 0x1487472C, 0xB20F7A99)
  const W7 := Vectors(0xEF57B9CD, 0xEBE6B238, 0x9FE3095E, 0x78BC8D4B, 0xA43FCF15, 0x668B2FF8, 0xEEABA2CC, 0x12B1EDEB)

  lemma FirstRows(i: nat)
    requires i == 0
    ensures Row(i, W0) && Row(i + 1, W1)
  {
    hide *;
    RowIs(i, W0);
    RowIs(i + 1, W1);
    FirstWords();
    VectorNothing();
    RowAtIs(i);
    RowAtIs(i + 1);
    FirstVectors();
  }

  lemma FirstVectors()
    ensures W0 == Vectors(Vector(0x61626380), 0, 0, 0, 0, 0, 0, 0)
    ensures W1 == Vectors(0, 0, 0, 0, 0, 0, 0, Vector(0x18))
  {
    hide Vector;
    VectorHex(6, 1, 6, 2, 6, 3, 8, 0);
    VectorHex(0, 0, 0, 0, 0, 0, 1, 8);
  }

  lemma SigmasOfNothing()
    ensures SmallSigma0V(0) == 0 && SmallSigma1V(0) == 0
  {
  }

  lemma LiteralWords()
    ensures ScheduleV(0x00000000, 0x00000000, 0x00000000, 0x61626380) == 0x61626380
    ensures ScheduleV(0x00000018, 0x00000000, 0x00000000, 0x00000000) == 0x000F0000
    ensures ScheduleV(0x61626380, 0x00000000, 0x00000000, 0x00000000) == 0x7DA86405
    ensures ScheduleV(0x000F0000, 0x00000000, 0x00000000, 0x00000000) == 0x600003C6
    ensures ScheduleV(0x7DA86405, 0x00000000, 0x00000000, 0x00000000) == 0x3E9D7B78
    ensures ScheduleV(0x600003C6, 0x00000000, 0x00000000, 0x00000000) == 0x0183FC00
    ensures ScheduleV(0x3E9D7B78, 0x00000018, 0x00000000, 0x00000000) == 0x12DCBFDB
    ensures ScheduleV(0x0183FC00, 0x61626380, 0x00000000, 0x00000000) == 0xE2E2C38E
  {
    SigmasOfNothing();
  }

  lemma Words2()
    ensures ScheduleV(W1.g, W1.b, W0.b, W0.a) == W2.a
    ensures ScheduleV(W1.h, W1.c, W0.c, W0.b) == W2.b
    ensures ScheduleV(W2.a, W1.d, W0.d, W0.c) == W2.c
    ensures ScheduleV(W2.b, W1.e, W0.e, W0.d) == W2.d
    ensures ScheduleV(W2.c, W1.f, W0.f, W0.e) == W2.e
    ensures ScheduleV(W2.d, W1.g, W0.g, W0.f) == W2.f
    ensures ScheduleV(W2.e, W1.h, W0.h, W0.g) == W2.g
    ensures ScheduleV(W2.f, W2.a, W1.a, W0.h) == W2.h
  {
    hide ScheduleV;
    LiteralWords();
  }

  lemma Row2(i: nat)
    requires i == 2 && Row(i - 2, W0) && Row(i - 1, W1)
    ensures Row(i, W2)
  {
    hide *;
    RowIs(i - 2, W0);
    RowIs(i - 1, W1);
    RowIs(i, W2);
    NextRow(i - 2);
    Words2();
  }

  lemma Words3()
    ensures ScheduleV(W2.g, W2.b, W1.b, W1.a) == W3.a
    ensures ScheduleV(W2.h, W2.c, W1.c, W1.b) == W3.b
    ensures ScheduleV(W3.a, W2.d, W1.d, W1.c) == W3.c
    ensures ScheduleV(W3.b, W2.e, W1.e, W1.d) == W3.d
    ensures ScheduleV(W3.c, W2.f, W1.f, W1.e) == W3.e
    ensures ScheduleV(W3.d, W2.g, W1.g, W1.f) == W3.f
    ensures ScheduleV(W3.e, W2.h, W1.h, W1.g) == W3.g
    ensures ScheduleV(W3.f, W3.a, W2.a, W1.h) == W3.h
  {
  }

  lemma Row3(i: nat)
    requires i == 3 && Row(i - 2, W1) && Row(i - 1, W2)
    ensures Row(i, W3)
  {
    hide *;
    RowIs(i - 2, W1);
    RowIs(i - 1, W2);
    RowIs(i, W3);
    NextRow(i - 2);
    Words3();
  }

  lemma Words4()
    ensures ScheduleV(W3.g, W3.b, W2.b, W2.a) == W4.a
    ensures ScheduleV(W3.h, W3.c, W2.c, W2.b) == W4.b
    ensures ScheduleV(W4.a, W3.d, W2.d, W2.c) == W4.c
    ensures ScheduleV(W4.b, W3.e, W2.e, W2.d) == W4.d
    ensures ScheduleV(W4.c, W3.f, W2.f, W2.e) == W4.e
    ensures ScheduleV(W4.d, W3.g, W2.g, W2.f) == W4.f
    ensures ScheduleV(W4.e, W3.h, W2.h, W2.g) == W4.g
    ensures ScheduleV(W4.f, W4.a, W3.a, W2.h) == W4.h
  {
  }

  lemma Row4(i: nat)
    requires i == 4 && Row(i - 2, W2) && Row(i - 1, W3)
    ensures Row(i, W4)
  {
    hide *;
    RowIs(i - 2, W2);
    RowIs(i - 1, W3);
    RowIs(i, W4);
    NextRow(i - 2);
    Words4();
  }

  lemma Words5()
    ensures ScheduleV(W4.g, W4.b, W3.b, W3.a) == W5.a
    ensures ScheduleV(W4.h, W4.c, W3.c, W3.b) == W5.b
    ensures ScheduleV(W5.a, W4.d, W3.d, W3.c) == W5.c
    ensures ScheduleV(W5.b, W4.e, W3.e, W3.d) == W5.d
    ensures ScheduleV(W5.c, W4.f, W3.f, W3.e) == W5.e
    ensures ScheduleV(W5.d, W4.g, W3.g, W3.f) == W5.f
    ensures ScheduleV(W5.e, W4.h, W3.h, W3.g) == W5.g
    ensures ScheduleV(W5.f, W5.a, W4.a, W3.h) == W5.h
  {
  }

  lemma Row5(i: nat)
    requires i == 5 && Row(i - 2, W3) && Row(i - 1, W4)
    ensures Row(i, W5)
  {
    hide *;
    RowIs(i - 2, W3);
    RowIs(i - 1, W4);
    RowIs(i, W5);
    NextRow(i - 2);
    Words5();
  }

  lemma Words6()
    ensures ScheduleV(W5.g, W5.b, W4.b, W4.a) == W6.a
    ensures ScheduleV(W5.h, W5.c, W4.c, W4.b) == W6.b
    ensures ScheduleV(W6.a, W5.d, W4.d, W4.c) == W6.c
    ensures ScheduleV(W6.b, W5.e, W4.e, W4.d) == W6.d
    ensures ScheduleV(W6.c, W5.f, W4.f, W4.e) == W6.e
    ensures ScheduleV(W6.d, W5.g, W4.g, W4.f) == W6.f
    ensures ScheduleV(W6.e, W5.h, W4.h, W4.g) == W6.g
    ensures ScheduleV(W6.f, W6.a, W5.a, W4.h) == W6.h
  {
  }

  lemma Row6(i: nat)
    requires i == 6 && Row(i - 2, W4) && Row(i - 1, W5)
    ensures Row(i, W6)
  {
    hide *;
    RowIs(i - 2, W4);
    RowIs(i - 1, W5);
    RowIs(i, W6);
    NextRow(i - 2);
    Words6();
  }

  lemma Words7()
    ensures ScheduleV(W6.g, W6.b, W5.b, W5.a) == W7.a
    ensures ScheduleV(W6.h, W6.c, W5.c, W5.b) == W7.b
    ensures ScheduleV(W7.a, W6.d, W5.d, W5.c) == W7.c
    ensures ScheduleV(W7.b, W6.e, W5.e, W5.d) == W7.d
    ensures ScheduleV(W7.c, W6.f, W5.f, W5.e) == W7.e
    ensures ScheduleV(W7.d, W6.g, W5.g, W5.f) == W7.f
    ensures ScheduleV(W7.e, W6.h, W5.h, W5.g) == W7.g
    ensures ScheduleV(W7.f, W7.a, W6.a, W5.h) == W7.h
  {
  }

  lemma Row7(i: nat)
    requires i == 7 && Row(i - 2, W5) && Row(i - 1, W6)
    ensures Row(i, W7)
  {
    hide *;
    RowIs(i - 2, W5);
    RowIs(i - 1, W6);
    RowIs(i, W7);
    NextRow(i - 2);
    Words7();
  }

  // ---------------------------------------------------------------------------
  // Rounds
  // ---------------------------------------------------------------------------

  const A0 := Vectors(0x6A09E667, 0xBB67AE85, 0x3C6EF372, 0xA54FF53A, 0x510E527F, 0x9B05688C, 0x1F83D9AB, 0x5BE0CD19)
  const A1 := Vectors(0x5D6AEBCD, 0x6A09E667, 0xBB67AE85, 0x3C6EF372, 0xFA2A4622, 0x510E527F, 0x9B05688C, 0x1F83D9AB)
  const A2 := Vectors(0x5A6AD9AD, 0x5D6AEBCD, 0x6A09E667, 0xBB67AE85, 0x78CE7989, 0xFA2A4622, 0x510E527F, 0x9B05688C)
  const A3 := Vectors(0xC8C347A7, 0x5A6AD9AD, 0x5D6AEBCD, 0x6A09E667, 0xF92939EB, 0x78CE7989, 0xFA2A4622, 0x510E527F)
  const A4 := Vectors(0xD550F666, 0xC8C347A7, 0x5A6AD9AD, 0x5D6AEBCD, 0x24E00850, 0xF92939EB, 0x78CE7989, 0xFA2A4622)
  const A5 := Vectors(0x04409A6A, 0xD550F666, 0xC8C347A7, 0x5A6AD9AD, 0x43ADA245, 0x24E00850, 0xF92939EB, 0x78CE7989)
  const A6 := Vectors(0x2B4209F5, 0x04409A6A, 0xD550F666, 0xC8C347A7, 0x714260AD, 0x43ADA245, 0x24E00850, 0xF92939EB)
  const A7 := Vectors(0xE5030380, 0x2B4209F5, 0x04409A6A, 0xD550F666, 0x9B27A401, 0x714260AD, 0x43ADA245, 0x24E00850)
  const A8 := Vectors(0x85A07B5F, 0xE5030380, 0x2B4209F5, 0x04409A6A, 0x0C657A79, 0x9B27A401, 0x714260AD, 0x43ADA245)
  const A9 := Vectors(0x8E04ECB9, 0x85A07B5F, 0xE5030380, 0x2B4209F5, 0x32CA2D8C, 0x0C657A79, 0x9B27A401, 0x714260AD)
  const A10 := Vectors(0x8C87346B, 0x8E04ECB9, 0x85A07B5F, 0xE5030380, 0x1CC92596, 0x32CA2D8C, 0x0C657A79, 0x9B27A401)
  const A11 := Vectors(0x4798A3F4, 0x8C87346B, 0x8E04ECB9, 0x85A07B5F, 0x436B23E8, 0x1CC92596, 0x32CA2D8C, 0x0C657A79)
  const A12 := Vectors(0xF71FC5A9, 0x4798A3F4, 0x8C87346B, 0x8E04ECB9, 0x816FD6E9, 0x436B23E8, 0x1CC92596, 0x32CA2D8C)
  const A13 := Vectors(0x87912990, 0xF71FC5A9, 0x4798A3F4, 0x8C87346B, 0x1E578218, 0x816FD6E9, 0x436B23E8, 0x1CC92596)
  const A14 := Vectors(0xD932EB16, 0x87912990, 0xF71FC5A9, 0x4798A3F4, 0x745A48DE, 0x1E578218, 0x816FD6E9, 0x436B23E8)
  const A15 := Vectors(0xC0645FDE, 0xD932EB16, 0x87912990, 0xF71FC5A9, 0x0B92F20C, 0x745A48DE, 0x1E578218, 0x816FD6E9)
  const A16 := Vectors(0xB0FA238E, 0xC0645FDE, 0xD932EB16, 0x87912990, 0x07590DCD, 0x0B92F20C, 0x745A48DE, 0x1E578218)
  const A17 := Vectors(0x21DA9A9B, 0xB0FA238E, 0xC0645FDE, 0xD932EB16, 0x8034229C, 0x07590DCD, 0x0B92F20C, 0x745A48DE)
  const A18 := Vectors(0xC2FBD9D1, 0x21DA9A9B, 0xB0FA238E, 0xC0645FDE, 0x846EE454, 0x8034229C, 0x07590DCD, 0x0B92F20C)
  const A19 := Vectors(0xFE777BBF, 0xC2FBD9D1, 0x21DA9A9B, 0xB0FA238E, 0xCC899961, 0x846EE454, 0x8034229C, 0x07590DCD)
  const A20 := Vectors(0xE1F20C33, 0xFE777BBF, 0xC2FBD9D1, 0x21DA9A9B, 0xB0638179, 0xCC899961, 0x846EE454, 0x8034229C)
  const A21 := Vectors(0x9DC68B63, 0xE1F20C33, 0xFE777BBF, 0xC2FBD9D1, 0x8ADA8930, 0xB0638179, 0xCC899961, 0x846EE454)
  const A22 := Vectors(0xC2606D6D, 0x9DC68B63, 0xE1F20C33, 0xFE777BBF, 0xE1257970, 0x8ADA8930, 0xB0638179, 0xCC899961)
  const A23 := Vectors(0xA7A3623F, 0xC2606D6D, 0x9DC68B63, 0xE1F20C33, 0x49F5114A, 0xE1257970, 0x8ADA8930, 0xB0638179)
  const A24 := Vectors(0xC5D53D8D, 0xA7A3623F, 0xC2606D6D, 0x9DC68B63, 0xAA47C347, 0x49F5114A, 0xE1257970, 0x8ADA8930)
  const A25 := Vectors(0x1C2C2838, 0xC5D53D8D, 0xA7A3623F, 0xC2606D6D, 0x2823EF91, 0xAA47C347, 0x49F5114A, 0xE1257970)
  const A26 := Vectors(0xCDE8037D, 0x1C2C2838, 0xC5D53D8D, 0xA7A3623F, 0x14383D8E, 0x2823EF91, 0xAA47C347, 0x49F5114A)
  const A27 := Vectors(0xB62EC4BC, 0xCDE8037D, 0x1C2C2838, 0xC5D53D8D, 0xC74C6516, 0x14383D8E, 0x2823EF91, 0xAA47C347)
  const A28 := Vectors(0x77D37528, 0xB62EC4BC, 0xCDE8037D, 0x1C2C2838, 0xEDFFBFF8, 0xC74C6516, 0x14383D8E, 0x2823EF91)
  const A29 := Vectors(0x363482C9, 0x77D37528, 0xB62EC4BC, 0xCDE8037D, 0x6112A3B7, 0xEDFFBFF8, 0xC74C6516, 0x14383D8E)
  const A30 := Vectors(0xA0060B30, 0x363482C9, 0x77D37528, 0xB62EC4BC, 0xADE79437, 0x6112A3B7, 0xEDFFBFF8, 0xC74C6516)
  const A31 := Vectors(0xEA992A22, 0xA0060B30, 0x363482C9, 0x77D37528, 0x0109AB3A, 0xADE79437, 0x6112A3B7, 0xEDFFBFF8)
  const A32 := Vectors(0x73B33BF5, 0xEA992A22, 0xA0060B30, 0x363482C9, 0xBA591112, 0x0109AB3A, 0xADE79437, 0x6112A3B7)
  const A33 := Vectors(0x98E12507, 0x73B33BF5, 0xEA992A22, 0xA0060B30, 0x9CD9F5F6, 0xBA591112, 0x0109AB3A, 0xADE79437)
  const A34 := Vectors(0xFE604DF5, 0x98E12507, 0x73B33BF5, 0xEA992A22, 0x59249DD3, 0x9CD9F5F6, 0xBA591112, 0x0109AB3A)
  const A35 := Vectors(0xA9A7738C, 0xFE604DF5, 0x98E12507, 0x73B33BF5, 0x085F3833, 0x59249DD3, 0x9CD9F5F6, 0xBA591112)
  const A36 := Vectors(0x65A0CFE4, 0xA9A7738C, 0xFE604DF5, 0x98E12507, 0xF4B002D6, 0x085F3833, 0x59249DD3, 0x9CD9F5F6)
  const A37 := Vectors(0x41A65CB1, 0x65A0CFE4, 0xA9A7738C, 0xFE604DF5, 0x0772A26B, 0xF4B002D6, 0x085F3833, 0x59249DD3)
  const A38 := Vectors(0x34DF1604, 0x41A65CB1, 0x65A0CFE4, 0xA9A7738C, 0xA507A53D, 0x0772A26B, 0xF4B002D6, 0x085F3833)
  const A39 := Vectors(0x6DC57A8A, 0x34DF1604, 0x41A65CB1, 0x65A0CFE4, 0xF0781BC8, 0xA507A53D, 0x0772A26B, 0xF4B002D6)
  const A40 := Vectors(0x79EA687A, 0x6DC57A8A, 0x34DF1604, 0x41A65CB1, 0x1EFBC0A0, 0xF0781BC8, 0xA507A53D, 0x0772A26B)
  const A41 := Vectors(0xD6670766, 0x79EA687A, 0x6DC57A8A, 0x34DF1604, 0x26352D63, 0x1EFBC0A0, 0xF0781BC8, 0xA507A53D)
  const A42 := Vectors(0xDF46652F, 0xD6670766, 0x79EA687A, 0x6DC57A8A, 0x838B2711, 0x26352D63, 0x1EFBC0A0, 0xF0781BC8)
  const A43 := Vectors(0x17AA0DFE, 0xDF46652F, 0xD6670766, 0x79EA687A, 0xDECD4715, 0x838B2711, 0x26352D63, 0x1EFBC0A0)
  const A44 := Vectors(0x9D4BAF93, 0x17AA0DFE, 0xDF46652F, 0xD6670766, 0xFDA24C2E, 0xDECD4715, 0x838B2711, 0x26352D63)
  const A45 := Vectors(0x26628815, 0x9D4BAF93, 0x17AA0DFE, 0xDF46652F, 0xA80F11F0, 0xFDA24C2E, 0xDECD4715, 0x838B2711)
  const A46 := Vectors(0x72AB4B91, 0x26628815, 0x9D4BAF93, 0x17AA0DFE, 0xB7755DA1, 0xA80F11F0, 0xFDA24C2E, 0xDECD4715)
  const A47 := Vectors(0xA14C14B0, 0x72AB4B91, 0x26628815, 0x9D4BAF93, 0xD57B94A9, 0xB7755DA1, 0xA80F11F0, 0xFDA24C2E)
  const A48 := Vectors(0x4172328D, 0xA14C14B0, 0x72AB4B91, 0x26628815, 0xFECF0BC6, 0xD57B94A9, 0xB7755DA1, 0xA80F11F0)
  const A49 := Vectors(0x05757CEB, 0x4172328D, 0xA14C14B0, 0x72AB4B91, 0xBD714038, 0xFECF0BC6, 0xD57B94A9, 0xB7755DA1)
  const A50 := Vectors(0xF11BFAA8, 0x05757CEB, 0x4172328D, 0xA14C14B0, 0x6E5C390C, 0xBD714038, 0xFECF0BC6, 0xD57B94A9)
  const A51 := Vectors(0x7A0508A1, 0xF11BFAA8, 0x05757CEB, 0x4172328D, 0x52F1CCF7, 0x6E5C390C, 0xBD714038, 0xFECF0BC6)
  const A52 := Vectors(0x886E7A22, 0x7A0508A1, 0xF11BFAA8, 0x05757CEB, 0x49231C1E, 0x52F1CCF7, 0x6E5C390C, 0xBD714038)
  const A53 := Vectors(0x101FD28F, 0x886E7A22, 0x7A0508A1, 0xF11BFAA8, 0x529E7D00, 0x49231C1E, 0x52F1CCF7, 0x6E5C390C)
  const A54 := Vectors(0xF5702FDB, 0x101FD28F, 0x886E7A22, 0x7A0508A1, 0x9F4787C3, 0x529E7D00, 0x49231C1E, 0x52F1CCF7)
  const A55 := Vectors(0x3EC45CDB, 0xF5702FDB, 0x101FD28F, 0x886E7A22, 0xE50E1B4F, 0x9F4787C3, 0x529E7D00, 0x49231C1E)
  const A56 := Vectors(0x38CC9913, 0x3EC45CDB, 0xF5702FDB, 0x101FD28F, 0x54CB266B, 0xE50E1B4F, 0x9F4787C3, 0x529E7D00)
  const A57 := Vectors(0xFCD1887B, 0x38CC9913, 0x3EC45CDB, 0xF5702FDB, 0x9B5E906C, 0x54CB266B, 0xE50E1B4F, 0x9F4787C3)
  const A58 := Vectors(0xC062D46F, 0xFCD1887B, 0x38CC9913, 0x3EC45CDB, 0x7E44008E, 0x9B5E906C, 0x54CB266B, 0xE50E1B4F)
  const A59 := Vectors(0xFFB70472, 0xC062D46F, 0xFCD1887B, 0x38CC9913, 0x6D83BFC6, 0x7E44008E, 0x9B5E906C, 0x54CB266B)
  const A60 := Vectors(0xB6AE8FFF, 0xFFB70472, 0xC062D46F, 0xFCD1887B, 0xB21BAD3D, 0x6D83BFC6, 0x7E44008E, 0x9B5E906C)
  const A61 := Vectors(0xB85E2CE9, 0xB6AE8FFF, 0xFFB70472, 0xC062D46F, 0x961F4894, 0xB21BAD3D, 0x6D83BFC6, 0x7E44008E)
  const A62 := Vectors(0x04D24D6C, 0xB85E2CE9, 0xB6AE8FFF, 0xFFB70472, 0x948D25B6, 0x961F4894, 0xB21BAD3D, 0x6D83BFC6)
  const A63 := Vectors(0xD39A2165, 0x04D24D6C, 0xB85E2CE9, 0xB6AE8FFF, 0xFB121210, 0x948D25B6, 0x961F4894, 0xB21BAD3D)
  const A64 := Vectors(0x506E3058, 0xD39A2165, 0x04D24D6C, 0xB85E2CE9, 0x5EF50F24, 0xFB121210, 0x948D25B6, 0x961F4894)

  lemma Steps0()
    ensures RoundV(A0, C0.a, W0.a) == A1
    ensures RoundV(A1, C0.b, W0.b) == A2
    ensures RoundV(A2, C0.c, W0.c) == A3
    ensures RoundV(A3, C0.d, W0.d) == A4
    ensures RoundV(A4, C0.e, W0.e) == A5
    ensures RoundV(A5, C0.f, W0.f) == A6
    ensures RoundV(A6, C0.g, W0.g) == A7
    ensures RoundV(A7, C0.h, W0.h) == A8
  {
  }

  lemma Rounds0(i: nat)
    requires i == 0 && Row(i, W0) && Reached(i, A0)
    ensures Reached(i + 1, A8)
  {
    hide *;
    RowIs(i, W0);
    ReachedIs(i, A0);
    ReachedIs(i + 1, A8);
    ConstantRow0();
    ConstantsAt();
    EightRounds(i, K0);
    Steps0();
  }

  lemma Steps1()
    ensures RoundV(A8, C1.a, W1.a) == A9
    ensures RoundV(A9, C1.b, W1.b) == A10
    ensures RoundV(A10, C1.c, W1.c) == A11
    ensures RoundV(A11, C1.d, W1.d) == A12
    ensures RoundV(A12, C1.e, W1.e) == A13
    ensures RoundV(A13, C1.f, W1.f) == A14
    ensures RoundV(A14, C1.g, W1.g) == A15
    ensures RoundV(A15, C1.h, W1.h) == A16
  {
  }

  lemma Rounds1(i: nat)
    requires i == 1 && Row(i, W1) && Reached(i, A8)
    ensures Reached(i + 1, A16)
  {
    hide *;
    RowIs(i, W1);
    ReachedIs(i, A8);
    ReachedIs(i + 1, A16);
    ConstantRow1();
    ConstantsAt();
    EightRounds(i, K1);
    Steps1();
  }

  lemma Steps2()
    ensures RoundV(A16, C2.a, W2.a) == A17
    ensures RoundV(A17, C2.b, W2.b) == A18
    ensures RoundV(A18, C2.c, W2.c) == A19
    ensures RoundV(A19, C2.d, W2.d) == A20
    ensures RoundV(A20, C2.e, W2.e) == A21
    ensures RoundV(A21, C2.f, W2.f) == A22
    ensures RoundV(A22, C2.g, W2.g) == A23
    ensures RoundV(A23, C2.h, W2.h) == A24
  {
  }

  lemma Rounds2(i: nat)
    requires i == 2 && Row(i, W2) && Reached(i, A16)
    ensures Reached(i + 1, A24)
  {
    hide *;
    RowIs(i, W2);
    ReachedIs(i, A16);
    ReachedIs(i + 1, A24);
    ConstantRow2();
    ConstantsAt();
    EightRounds(i, K2);
    Steps2();
  }

  lemma Steps3()
    ensures RoundV(A24, C3.a, W3.a) == A25
    ensures RoundV(A25, C3.b, W3.b) == A26
    ensures RoundV(A26, C3.c, W3.c) == A27
    ensures RoundV(A27, C3.d, W3.d) == A28
    ensures RoundV(A28, C3.e, W3.e) == A29
    ensures RoundV(A29, C3.f, W3.f) == A30
    ensures RoundV(A30, C3.g, W3.g) == A31
    ensures RoundV(A31, C3.h, W3.h) == A32
  {
  }

  lemma Rounds3(i: nat)
    requires i == 3 && Row(i, W3) && Reached(i, A24)
    ensures Reached(i + 1, A32)
  {
    hide *;
    RowIs(i, W3);
    ReachedIs(i, A24);
    ReachedIs(i + 1, A32);
    ConstantRow3();
    ConstantsAt();
    EightRounds(i, K3);
    Steps3();
  }

  lemma Steps4()
    ensures RoundV(A32, C4.a, W4.a) == A33
    ensures RoundV(A33, C4.b, W4.b) == A34
    ensures RoundV(A34, C4.c, W4.c) == A35
    ensures RoundV(A35, C4.d, W4.d) == A36
    ensures RoundV(A36, C4.e, W4.e) == A37
    ensures RoundV(A37, C4.f, W4.f) == A38
    ensures RoundV(A38, C4.g, W4.g) == A39
    ensures RoundV(A39, C4.h, W4.h) == A40
  {
  }

  lemma Rounds4(i: nat)
    requires i == 4 && Row(i, W4) && Reached(i, A32)
    ensures Reached(i + 1, A40)
  {
    hide *;
    RowIs(i, W4);
    ReachedIs(i, A32);
    ReachedIs(i + 1, A40);
    ConstantRow4();
    ConstantsAt();
    EightRounds(i, K4);
    Steps4();
  }

  lemma Steps5()
    ensures RoundV(A40, C5.a, W5.a) == A41
    ensures RoundV(A41, C5.b, W5.b) == A42
    ensures RoundV(A42, C5.c, W5.c) == A43
    ensures RoundV(A43, C5.d, W5.d) == A44
    ensures RoundV(A44, C5.e, W5.e) == A45
    ensures RoundV(A45, C5.f, W5.f) == A46
    ensures RoundV(A46, C5.g, W5.g) == A47
    ensures RoundV(A47, C5.h, W5.h) == A48
  {
  }

  lemma Rounds5(i: nat)
    requires i == 5 && Row(i, W5) && Reached(i, A40)
    ensures Reached(i + 1, A48)
  {
    hide *;
    RowIs(i, W5);
    ReachedIs(i, A40);
    ReachedIs(i + 1, A48);
    ConstantRow5();
    ConstantsAt();
    EightRounds(i, K5);
    Steps5();
  }

  lemma Steps6()
    ensures RoundV(A48, C6.a, W6.a) == A49
    ensures RoundV(A49, C6.b, W6.b) == A50
    ensures RoundV(A50, C6.c, W6.c) == A51
    ensures RoundV(A51, C6.d, W6.d) == A52
    ensures RoundV(A52, C6.e, W6.e) == A53
    ensures RoundV(A53, C6.f, W6.f) == A54
    ensures RoundV(A54, C6.g, W6.g) == A55
    ensures RoundV(A55, C6.h, W6.h) == A56
  {
  }

  lemma Rounds6(i: nat)
    requires i == 6 && Row(i, W6) && Reached(i, A48)
    ensures Reached(i + 1, A56)
  {
    hide *;
    RowIs(i, W6);
    ReachedIs(i, A48);
    ReachedIs(i + 1, A56);
    ConstantRow6();
    ConstantsAt();
    EightRounds(i, K6);
    Steps6();
  }

  lemma Steps7()
    ensures RoundV(A56, C7.a, W7.a) == A57
    ensures RoundV(A57, C7.b, W7.b) == A58
    ensures RoundV(A58, C7.c, W7.c) == A59
    ensures RoundV(A59, C7.d, W7.d) == A60
    ensures RoundV(A60, C7.e, W7.e) == A61
    ensures RoundV(A61, C7.f, W7.f) == A62
    ensures RoundV(A62, C7.g, W7.g) == A63
    ensures RoundV(A63, C7.h, W7.h) == A64
  {
  }

  lemma Rounds7(i: nat)
    requires i == 7 && Row(i, W7) && Reached(i, A56)
    ensures Reached(i + 1, A64)
  {
    hide *;
    RowIs(i, W7);
    ReachedIs(i, A56);
    ReachedIs(i + 1, A64);
    ConstantRow7();
    ConstantsAt();
    EightRounds(i, K7);
    Steps7();
  }

  /** The working variables after the last round. */
  lemma AllRounds()
    ensures Reached(8, A64)
  {
    hide *;
    ReachedNothing(0);
    FirstRows(0);
    Row2(2);
    Row3(3);
    Row4(4);
    Row5(5);
    Row6(6);
    Row7(7);
    Rounds0(0);
    Rounds1(1);
    Rounds2(2);
    Rounds3(3);
    Rounds4(4);
    Rounds5(5);
    Rounds6(6);
    Rounds7(7);
  }

  // ---------------------------------------------------------------------------
  // Digest
  // ---------------------------------------------------------------------------

  const D := Vectors(0xBA7816BF, 0x8F01CFEA, 0x414140DE, 0x5DAE2223, 0xB00361A3, 0x96177A9C, 0xB410FF61, 0xF20015AD)

  lemma FinalVectors(s: State)
    requires s == Final()
    ensures VectorsOf(s) == D
  {
    hide *;
    AllRounds();
    ReachedIs(8, A64);
    InitialVectors();
    var r := FinalIs(64);
    InitialLength();
    AddVectors(INITIAL, r);
    FinalSums();
  }

  lemma FinalSums()
    ensures Plus(A0.a, A64.a) == D.a && Plus(A0.b, A64.b) == D.b && Plus(A0.c, A64.c) == D.c && Plus(A0.d, A64.d) == D.d
    ensures Plus(A0.e, A64.e) == D.e && Plus(A0.f, A64.f) == D.f && Plus(A0.g, A64.g) == D.g && Plus(A0.h, A64.h) == D.h
  {
  }

  const D0: seq<Byte> := [0xBA, 0x78, 0x16, 0xBF]

  lemma Final0(w: Word)
    requires Vector(w) == D.a
    ensures BigEndian(w, 4) == D0
  {
    hide Vector;
    VectorHex(0xB, 0xA, 7, 8, 1, 6, 0xB, 0xF);
    SameVector(w, 0xBA7816BF);
  }

  const D1: seq<Byte> := [0x8F, 0x01, 0xCF, 0xEA]

  lemma Final1(w: Word)
    requires Vector(w) == D.b
    ensures BigEndian(w, 4) == D1
  {
    hide Vector;
    VectorHex(8, 0xF, 0, 1, 0xC, 0xF, 0xE, 0xA);
    SameVector(w, 0x8F01CFEA);
  }

  const D2: seq<Byte> := [0x41, 0x41, 0x40, 0xDE]

  lemma Final2(w: Word)
    requires Vector(w) == D.c
    ensures BigEndian(w, 4) == D2
  {
    hide Vector;
    VectorHex(4, 1, 4, 1, 4, 0, 0xD, 0xE);
    SameVector(w, 0x414140DE);
  }

  const D3: seq<Byte> := [0x5D, 0xAE, 0x22, 0x23]

  lemma Final3(w: Word)
    requires Vector(w) == D.d
    ensures BigEndian(w, 4) == D3
  {
    hide Vector;
    VectorHex(5, 0xD, 0xA, 0xE, 2, 2, 2, 3);
    SameVector(w, 0x5DAE2223);
  }

  const D4: seq<Byte> := [0xB0, 0x03, 0x61, 0xA3]

  lemma Final4(w: Word)
    requires Vector(w) == D.e
    ensures BigEndian(w, 4) == D4
  {
    hide Vector;
    VectorHex(0xB, 0, 0, 3, 6, 1, 0xA, 3);
    SameVector(w, 0xB00361A3);
  }

  const D5: seq<Byte> := [0x96, 0x17, 0x7A, 0x9C]

  lemma Final5(w: Word)
    requires Vector(w) == D.f
    ensures BigEndian(w, 4) == D5
  {
    hide Vector;
    VectorHex(9, 6, 1, 7, 7, 0xA, 9, 0xC);
    SameVector(w, 0x96177A9C);
  }

  const D6: seq<Byte> := [0xB4, 0x10, 0xFF, 0x61]

  lemma Final6(w: Word)
    requires Vector(w) == D.g
    ensures BigEndian(w, 4) == D6
  {
    hide Vector;
    VectorHex(0xB, 4, 1, 0, 0xF, 0xF, 6, 1);
    SameVector(w, 0xB410FF61);
  }

  const D7: seq<Byte> := [0xF2, 0x00, 0x15, 0xAD]

  lemma Final7(w: Word)
    requires Vector(w) == D.h
    ensures BigEndian(w, 4) == D7
  {
    hide Vector;
    VectorHex(0xF, 2, 0, 0, 1, 5, 0xA, 0xD);
    SameVector(w, 0xF20015AD);
  }

  lemma FinalWords(s: State)
    requires VectorsOf(s) == D
    ensures BigEndian(s[0], 4) == D0 && BigEndian(s[1], 4) == D1 && BigEndian(s[2], 4) == D2 && BigEndian(s[3], 4) == D3
    ensures BigEndian(s[4], 4) == D4 && BigEndian(s[5], 4) == D5 && BigEndian(s[6], 4) == D6 && BigEndian(s[7], 4) == D7
  {
    hide *;
    VectorsOfIs(s);
    Final0(s[0]);
    Final1(s[1]);
    Final2(s[2]);
    Final3(s[3]);
    Final4(s[4]);
    Final5(s[5]);
    Final6(s[6]);
    Final7(s[7]);
  }

  lemma EightWords(s: State)
    ensures Words(s, 8) == BigEndian(s[0], 4) + BigEndian(s[1], 4) + BigEndian(s[2], 4) + BigEndian(s[3], 4)
                           + BigEndian(s[4], 4) + BigEndian(s[5], 4) + BigEndian(s[6], 4) + BigEndian(s[7], 4)
  {
    hide *;
    NoWords(s);
    MoreWords(s, 1);
    MoreWords(s, 2);
    MoreWords(s, 3);
    MoreWords(s, 4);
    MoreWords(s, 5);
    MoreWords(s, 6);
    MoreWords(s, 7);
    MoreWords(s, 8);
  }

  lemma NoWords(s: State)
    ensures Words(s, 0) == []
  {
  }

  lemma MoreWords(s: State, k: nat)
    requires 0 < k <= 8
    ensures Words(s, k) == Words(s, k - 1) + BigEndian(s[k - 1], 4)
  {
    hide BigEndian;
  }

  lemma OneBlock(s: State, block: Block)
    ensures HashBlocks(s, block) == Compress(s, block)
  {
    hide *;
    HashOneBlock(s, [], block);
    NoBlock(s);
    assert [] + block == block;
  }

  lemma NoBlock(s: State)
    ensures HashBlocks(s, []) == s
  {
    hide Compress;
  }

  lemma OnlyBlock(message: seq<Byte>, s: State, n: nat)
    requires message == MESSAGE && s == Final() && n == 8
    ensures Sha256(message) == Words(s, n)
  {
    InitialLength();
    OneBlock(INITIAL, Block1());
    hide Compress, INITIAL, PaddingFor, Words, HashBlocks;
  }

  lemma DigestIs()
    ensures D0 + D1 + D2 + D3 + D4 + D5 + D6 + D7 ==
            [0xBA, 0x78, 0x16, 0xBF] + [0x8F, 0x01, 0xCF, 0xEA] + [0x41, 0x41, 0x40, 0xDE] + [0x5D, 0xAE, 0x22, 0x23]
            + [0xB0, 0x03, 0x61, 0xA3] + [0x96, 0x17, 0x7A, 0x9C] + [0xB4, 0x10, 0xFF, 0x61] + [0xF2, 0x00, 0x15, 0xAD]
  {
  }

  /** The example of the standard. */
  lemma HashOfAbc()
    ensures Sha256([0x61, 0x62, 0x63]) ==
            [0xBA, 0x78, 0x16, 0xBF] + [0x8F, 0x01, 0xCF, 0xEA] + [0x41, 0x41, 0x40, 0xDE] + [0x5D, 0xAE, 0x22, 0x23]
            + [0xB0, 0x03, 0x61, 0xA3] + [0x96, 0x17, 0x7A, 0x9C] + [0xB4, 0x10, 0xFF, 0x61] + [0xF2, 0x00, 0x15, 0xAD]
  {
    MessageIs();
    hide *;
    OnlyBlock([0x61, 0x62, 0x63], Final(), 8);
    EightWords(Final());
    FinalVectors(Final());
    FinalWords(Final());
    DigestIs();
  }

  lemma MessageIs()
    ensures [0x61, 0x62, 0x63] == MESSAGE
  {
  }

  /** The amounts of the rotations and shifts, on the word of a single bit. */
  lemma SigmasOfOne()
    ensures BigSigma0(1) == 0x40080400 && BigSigma1(1) == 0x04200080
    ensures SmallSigma0(1) == 0x02004000 && SmallSigma1(1) == 0x0000A000
  {
    var b0: Word, b1: Word, s0: Word, s1: Word := 0x40080400, 0x04200080, 0x02004000, 0x0000A000;
    hide *;
    VectorOne();
    BigSigmaVectors(1);
    SmallSigmaVectors(1);
    SigmaVectorsOfOne();
    SameVector(BigSigma0(1), b0);
    SameVector(BigSigma1(1), b1);
    SameVector(SmallSigma0(1), s0);
    SameVector(SmallSigma1(1), s1);
  }

  lemma SigmaVectorsOfOne()
    ensures Vector(0x40080400) == BigSigma0V(1) && Vector(0x04200080) == BigSigma1V(1)
    ensures Vector(0x02004000) == SmallSigma0V(1) && Vector(0x0000A000) == SmallSigma1V(1)
  {
    hide *;
    SigmaVector0();
    SigmaVector1();
    SigmaVector2();
    SigmaVector3();
    SigmaValues();
  }

  lemma SigmaVector0()
    ensures Vector(0x40080400) == 0x40080400
  {
    hide Vector;
    VectorHex(4, 0, 0, 8, 0, 4, 0, 0);
  }

  lemma SigmaVector1()
    ensures Vector(0x04200080) == 0x04200080
  {
    hide Vector;
    VectorHex(0, 4, 2, 0, 0, 0, 8, 0);
  }

  lemma SigmaVector2()
    ensures Vector(0x02004000) == 0x02004000
  {
    hide Vector;
    VectorHex(0, 2, 0, 0, 4, 0, 0, 0);
  }

  lemma SigmaVector3()
    ensures Vector(0x0000A000) == 0x0000A000
  {
    hide Vector;
    VectorHex(0, 0, 0, 0, 0xA, 0, 0, 0);
  }

  lemma SigmaValues()
    ensures BigSigma0V(1) == 0x40080400 && BigSigma1V(1) == 0x04200080
    ensures SmallSigma0V(1) == 0x02004000 && SmallSigma1V(1) == 0x0000A000
  {
  }
}
