/**
 What the functions of section 4.1.2 of FIPS 180-2 do to each bit of their words, counted from the
 least significant.
 */
module Sha256Functions {
  import opened Bits
  import opened Sha256Spec

  lemma WordOperatorBits(x: Word, y: Word, i: nat)
    ensures Bit(WAnd(x, y), i) <==> Bit(x, i) && Bit(y, i)
    ensures Bit(WXor(x, y), i) <==> Bit(x, i) != Bit(y, i)
    ensures i < 32 ==> (Bit(WNot(x), i) <==> !Bit(x, i))
  {
    OperatorBits(x, y, i);
    Pow2Values();
    hide And, Xor, Bit, Pow2;
    if i < 32 {
      NotBits(32, x, i);
    }
  }

  /** Ch chooses: the bit of y where x has a 1, the bit of z elsewhere. */
  lemma ChBits(x: Word, y: Word, z: Word, i: nat)
    requires i < 32
    ensures Bit(Ch(x, y, z), i) <==> if Bit(x, i) then Bit(y, i) else Bit(z, i)
  {
    ChIs(x, y, z);
    hide *;
    WordOperatorBits(x, y, i);
    WordOperatorBits(WNot(x), z, i);
    WordOperatorBits(x, x, i);
    WordOperatorBits(WAnd(x, y), WAnd(WNot(x), z), i);
  }

  lemma ChIs(x: Word, y: Word, z: Word)
    ensures Ch(x, y, z) == WXor(WAnd(x, y), WAnd(WNot(x), z))
  {
  }

  /** Maj is the majority: a bit that at least two of the three words have. */
  lemma MajBits(x: Word, y: Word, z: Word, i: nat)
    ensures Bit(Maj(x, y, z), i) <==> (Bit(x, i) && Bit(y, i)) || (Bit(x, i) && Bit(z, i)) || (Bit(y, i) && Bit(z, i))
  {
    MajIs(x, y, z);
    hide *;
    WordOperatorBits(x, y, i);
    WordOperatorBits(x, z, i);
    WordOperatorBits(y, z, i);
    WordOperatorBits(WAnd(x, y), WAnd(x, z), i);
    WordOperatorBits(WXor(WAnd(x, y), WAnd(x, z)), WAnd(y, z), i);
  }

  lemma MajIs(x: Word, y: Word, z: Word)
    ensures Maj(x, y, z) == WXor(WXor(WAnd(x, y), WAnd(x, z)), WAnd(y, z))
  {
  }

  lemma {:induction false} HighBits(k: nat, x: nat, i: nat)
    requires x < Pow2(k) && k <= i
    ensures !Bit(x, i)
    decreases k
  {
    if k == 0 {
      NoBits(i);
    } else {
      HighBits(k - 1, x / 2, i - 1);
    }
  }

  /** Rotation right by n: bit i is bit i + n, around the word. */
  lemma RotrBits(n: nat, x: Word, i: nat)
    requires n <= 32 && i < 32
    ensures Bit(Rotr(n, x), i) <==> Bit(x, (i + n) % 32)
  {
    RotrParts(n, x);
    RotrIndex(i, n);
    hide *;
    BitsJoined(x % Pow2(n), Shifted(x, n), 32 - n, i);
    if i < 32 - n {
      BitShifted(x, n, i);
    } else {
      BitsKept(x, n, i - (32 - n));
    }
  }

  lemma RotrIndex(i: nat, n: nat)
    requires n <= 32 && i < 32
    ensures (i + n) % 32 == if i < 32 - n then i + n else i - (32 - n)
  {
  }

  lemma RotrParts(n: nat, x: Word)
    requires n <= 32
    ensures Shifted(x, n) < Pow2(32 - n) && Rotr(n, x) == Shifted(x, n) + (x % Pow2(n)) * Pow2(32 - n)
  {
    RotrBound(n, x);
    hide Pow2;
  }

  lemma ShrBits(n: nat, x: Word, i: nat)
    ensures Bit(Shr(n, x), i) <==> i + n < 32 && Bit(x, i + n)
  {
    ShrIs(n, x);
    Pow2Values();
    hide *;
    BitShifted(x, n, i);
    if i + n >= 32 {
      HighBits(32, x, i + n);
    }
  }

  lemma ShrIs(n: nat, x: Word)
    ensures Shr(n, x) == Shifted(x, n)
  {
    hide Pow2;
  }

  lemma XorOfThree(a: Word, b: Word, c: Word, i: nat)
    ensures Bit(WXor(WXor(a, b), c), i) <==> ((Bit(a, i) != Bit(b, i)) != Bit(c, i))
  {
    hide *;
    WordOperatorBits(a, b, i);
    WordOperatorBits(WXor(a, b), c, i);
  }

  /** Each bit of a sigma function is the exclusive or of three bits of its word. */
  lemma BigSigmaBits(x: Word, i: nat)
    requires i < 32
    ensures Bit(BigSigma0(x), i) <==> ((Bit(x, (i + 2) % 32) != Bit(x, (i + 13) % 32)) != Bit(x, (i + 22) % 32))
    ensures Bit(BigSigma1(x), i) <==> ((Bit(x, (i + 6) % 32) != Bit(x, (i + 11) % 32)) != Bit(x, (i + 25) % 32))
  {
    SigmasAre(x);
    hide *;
    RotrBits(2, x, i);
    RotrBits(13, x, i);
    RotrBits(22, x, i);
    XorOfThree(Rotr(2, x), Rotr(13, x), Rotr(22, x), i);
    RotrBits(6, x, i);
    RotrBits(11, x, i);
    RotrBits(25, x, i);
    XorOfThree(Rotr(6, x), Rotr(11, x), Rotr(25, x), i);
  }

  lemma SmallSigmaBits(x: Word, i: nat)
    requires i < 32
    ensures Bit(SmallSigma0(x), i) <==> ((Bit(x, (i + 7) % 32) != Bit(x, (i + 18) % 32)) != (i + 3 < 32 && Bit(x, i + 3)))
    ensures Bit(SmallSigma1(x), i) <==> ((Bit(x, (i + 17) % 32) != Bit(x, (i + 19) % 32)) != (i + 10 < 32 && Bit(x, i + 10)))
  {
    SigmasAre(x);
    hide *;
    RotrBits(7, x, i);
    RotrBits(18, x, i);
    ShrBits(3, x, i);
    XorOfThree(Rotr(7, x), Rotr(18, x), Shr(3, x), i);
    RotrBits(17, x, i);
    RotrBits(19, x, i);
    ShrBits(10, x, i);
    XorOfThree(Rotr(17, x), Rotr(19, x), Shr(10, x), i);
  }

  lemma SigmasAre(x: Word)
    ensures BigSigma0(x) == WXor(WXor(Rotr(2, x), Rotr(13, x)), Rotr(22, x))
    ensures BigSigma1(x) == WXor(WXor(Rotr(6, x), Rotr(11, x)), Rotr(25, x))
    ensures SmallSigma0(x) == WXor(WXor(Rotr(7, x), Rotr(18, x)), Shr(3, x))
    ensures SmallSigma1(x) == WXor(WXor(Rotr(17, x), Rotr(19, x)), Shr(10, x))
  {
    hide WXor, Rotr, Shr;
  }
}
