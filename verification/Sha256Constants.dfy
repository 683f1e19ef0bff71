/**
 Where the constants of SHA-256 come from: section 4.2.2 of FIPS 180-2 takes the round constants
 from the cube roots of the first sixty-four primes, section 5.3.2 the initial value from the
 square roots of the first eight.
 */
module Sha256Constants {
  import opened Bits
  import opened Sha256Spec

  const P0: seq<nat> := [2, 3, 5, 7, 11, 13, 17, 19]
  const P1: seq<nat> := [23, 29, 31, 37, 41, 43, 47, 53]
  const P2: seq<nat> := [59, 61, 67, 71, 73, 79, 83, 89]
  const P3: seq<nat> := [97, 101, 103, 107, 109, 113, 127, 131]
  const P4: seq<nat> := [137, 139, 149, 151, 157, 163, 167, 173]
  const P5: seq<nat> := [179, 181, 191, 193, 197, 199, 211, 223]
  const P6: seq<nat> := [227, 229, 233, 239, 241, 251, 257, 263]
  const P7: seq<nat> := [269, 271, 277, 281, 283, 293, 307, 311]

  /** The first sixty-four primes. */
  const PRIMES: seq<nat> := P0 + P1 + P2 + P3 + P4 + P5 + P6 + P7

  /** k is the first thirty-two bits of the fractional part of the cube root of p, whose integral
      part is r. */
  predicate CubeRootBits(p: nat, r: nat, k: Word) {
    var x: int := r * WORD_SIZE + k;
    && r * r * r <= p < (r + 1) * (r + 1) * (r + 1)
    && x * x * x <= p * 0x1_0000_0000_0000_0000_0000_0000 < (x + 1) * (x + 1) * (x + 1)
  }

  predicate SquareRootBits(p: nat, r: nat, k: Word) {
    var x: int := r * WORD_SIZE + k;
    && r * r <= p < (r + 1) * (r + 1)
    && x * x <= p * 0x1_0000_0000_0000_0000 < (x + 1) * (x + 1)
  }

  ghost predicate IsCubeRoot(p: nat, k: Word) {
    exists r: nat :: CubeRootBits(p, r, k)
  }

  ghost predicate IsSquareRoot(p: nat, k: Word) {
    exists r: nat :: SquareRootBits(p, r, k)
  }

  ghost predicate CubeRoots(ps: seq<nat>, ks: seq<Word>) {
    |ps| == |ks| && forall t :: 0 <= t < |ps| ==> IsCubeRoot(ps[t], ks[t])
  }

  ghost predicate SquareRoots(ps: seq<nat>, ks: seq<Word>) {
    |ps| == |ks| && forall t :: 0 <= t < |ps| ==> IsSquareRoot(ps[t], ks[t])
  }

  lemma CubeRoot(p: nat, r: nat, k: Word)
    requires CubeRootBits(p, r, k)
    ensures IsCubeRoot(p, k)
  {
  }

  lemma SquareRoot(p: nat, r: nat, k: Word)
    requires SquareRootBits(p, r, k)
    ensures IsSquareRoot(p, k)
  {
  }

  lemma RootsConcat(ps: seq<nat>, ks: seq<Word>, qs: seq<nat>, ls: seq<Word>)
    requires CubeRoots(ps, ks) && CubeRoots(qs, ls)
    ensures CubeRoots(ps + qs, ks + ls)
  {
    hide IsCubeRoot;
  }

  lemma Row0()
    ensures CubeRoots(P0, K0)
  {
    CubeRoot(2, 1, 0x428A2F98);
    CubeRoot(3, 1, 0x71374491);
    CubeRoot(5, 1, 0xB5C0FBCF);
    CubeRoot(7, 1, 0xE9B5DBA5);
    CubeRoot(11, 2, 0x3956C25B);
    CubeRoot(13, 2, 0x59F111F1);
    CubeRoot(17, 2, 0x923F82A4);
    CubeRoot(19, 2, 0xAB1C5ED5);
    hide IsCubeRoot;
  }

  lemma Row1()
    ensures CubeRoots(P1, K1)
  {
    CubeRoot(23, 2, 0xD807AA98);
    CubeRoot(29, 3, 0x12835B01);
    CubeRoot(31, 3, 0x243185BE);
    CubeRoot(37, 3, 0x550C7DC3);
    CubeRoot(41, 3, 0x72BE5D74);
    CubeRoot(43, 3, 0x80DEB1FE);
    CubeRoot(47, 3, 0x9BDC06A7);
    CubeRoot(53, 3, 0xC19BF174);
    hide IsCubeRoot;
  }

  lemma Row2()
    ensures CubeRoots(P2, K2)
  {
    CubeRoot(59, 3, 0xE49B69C1);
    CubeRoot(61, 3, 0xEFBE4786);
    CubeRoot(67, 4, 0x0FC19DC6);
    CubeRoot(71, 4, 0x240CA1CC);
    CubeRoot(73, 4, 0x2DE92C6F);
    CubeRoot(79, 4, 0x4A7484AA);
    CubeRoot(83, 4, 0x5CB0A9DC);
    CubeRoot(89, 4, 0x76F988DA);
    hide IsCubeRoot;
  }

  lemma Row3()
    ensures CubeRoots(P3, K3)
  {
    CubeRoot(97, 4, 0x983E5152);
    CubeRoot(101, 4, 0xA831C66D);
    CubeRoot(103, 4, 0xB00327C8);
    CubeRoot(107, 4, 0xBF597FC7);
    CubeRoot(109, 4, 0xC6E00BF3);
    CubeRoot(113, 4, 0xD5A79147);
    CubeRoot(127, 5, 0x06CA6351);
    CubeRoot(131, 5, 0x14292967);
    hide IsCubeRoot;
  }

  lemma Row4()
    ensures CubeRoots(P4, K4)
  {
    CubeRoot(137, 5, 0x27B70A85);
    CubeRoot(139, 5, 0x2E1B2138);
    CubeRoot(149, 5, 0x4D2C6DFC);
    CubeRoot(151, 5, 0x53380D13);
    CubeRoot(157, 5, 0x650A7354);
    CubeRoot(163, 5, 0x766A0ABB);
    CubeRoot(167, 5, 0x81C2C92E);
    CubeRoot(173, 5, 0x92722C85);
    hide IsCubeRoot;
  }

  lemma Row5()
    ensures CubeRoots(P5, K5)
  {
    CubeRoot(179, 5, 0xA2BFE8A1);
    CubeRoot(181, 5, 0xA81A664B);
    CubeRoot(191, 5, 0xC24B8B70);
    CubeRoot(193, 5, 0xC76C51A3);
    CubeRoot(197, 5, 0xD192E819);
    CubeRoot(199, 5, 0xD6990624);
    CubeRoot(211, 5, 0xF40E3585);
    CubeRoot(223, 6, 0x106AA070);
    hide IsCubeRoot;
  }

  lemma Row6()
    ensures CubeRoots(P6, K6)
  {
    CubeRoot(227, 6, 0x19A4C116);
    CubeRoot(229, 6, 0x1E376C08);
    CubeRoot(233, 6, 0x2748774C);
    CubeRoot(239, 6, 0x34B0BCB5);
    CubeRoot(241, 6, 0x391C0CB3);
    CubeRoot(251, 6, 0x4ED8AA4A);
    CubeRoot(257, 6, 0x5B9CCA4F);
    CubeRoot(263, 6, 0x682E6FF3);
    hide IsCubeRoot;
  }

  lemma Row7()
    ensures CubeRoots(P7, K7)
  {
    CubeRoot(269, 6, 0x748F82EE);
    CubeRoot(271, 6, 0x78A5636F);
    CubeRoot(277, 6, 0x84C87814);
    CubeRoot(281, 6, 0x8CC70208);
    CubeRoot(283, 6, 0x90BEFFFA);
    CubeRoot(293, 6, 0xA4506CEB);
    CubeRoot(307, 6, 0xBEF9A3F7);
    CubeRoot(311, 6, 0xC67178F2);
    hide IsCubeRoot;
  }

  lemma ConstantsAreRoots()
    ensures CubeRoots(PRIMES, K) && |K| == 64
  {
    hide CubeRoots;
    Row0();
    Row1();
    Row2();
    Row3();
    Row4();
    Row5();
    Row6();
    Row7();
    RootsConcat(P0, K0, P1, K1);
    RootsConcat(P0 + P1, K0 + K1, P2, K2);
    RootsConcat(P0 + P1 + P2, K0 + K1 + K2, P3, K3);
    RootsConcat(P0 + P1 + P2 + P3, K0 + K1 + K2 + K3, P4, K4);
    RootsConcat(P0 + P1 + P2 + P3 + P4, K0 + K1 + K2 + K3 + K4, P5, K5);
    RootsConcat(P0 + P1 + P2 + P3 + P4 + P5, K0 + K1 + K2 + K3 + K4 + K5, P6, K6);
    RootsConcat(P0 + P1 + P2 + P3 + P4 + P5 + P6, K0 + K1 + K2 + K3 + K4 + K5 + K6, P7, K7);
  }

  lemma InitialIsRoots()
    ensures SquareRoots(P0, INITIAL)
  {
    SquareRoot(2, 1, 0x6A09E667);
    SquareRoot(3, 1, 0xBB67AE85);
    SquareRoot(5, 2, 0x3C6EF372);
    SquareRoot(7, 2, 0xA54FF53A);
    SquareRoot(11, 3, 0x510E527F);
    SquareRoot(13, 3, 0x9B05688C);
    SquareRoot(17, 4, 0x1F83D9AB);
    SquareRoot(19, 4, 0x5BE0CD19);
    hide IsSquareRoot;
  }
}
