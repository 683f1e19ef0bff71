/**
 The bitwise operators of C on unsigned 32-bit words, defined on natural numbers, what they do to
 each bit, and the few facts that tie masks and shifts to arithmetic.
 */
module Bits {

  const WORD_SIZE := 0x1_0000_0000

  type Byte = b: int | 0 <= b < 0x100

  type Word = w: int | 0 <= w < WORD_SIZE

  function And(a: nat, b: nat): nat {
    if a == 0 || b == 0 then 0 else (if a % 2 + b % 2 == 2 then 1 else 0) + 2 * And(a / 2, b / 2)
  }

  function Or(a: nat, b: nat): nat {
    if a == 0 && b == 0 then 0 else (if a % 2 + b % 2 > 0 then 1 else 0) + 2 * Or(a / 2, b / 2)
  }

  function Xor(a: nat, b: nat): nat {
    if a == 0 && b == 0 then 0 else (if a % 2 != b % 2 then 1 else 0) + 2 * Xor(a / 2, b / 2)
  }

  function Pow2(k: nat): (p: nat)
    ensures p > 0
  {
    if k == 0 then 1 else 2 * Pow2(k - 1)
  }

  lemma Pow2Values()
    ensures Pow2(3) == 8 && Pow2(4) == 16 && Pow2(5) == 32 && Pow2(6) == 64 && Pow2(8) == 0x100
    ensures Pow2(16) == 0x1_0000 && Pow2(24) == 0x100_0000 && Pow2(32) == WORD_SIZE
  {
    assert Pow2(8) == 0x100;
    assert Pow2(12) == 0x1000;
    assert Pow2(16) == 0x1_0000;
    assert Pow2(20) == 0x10_0000;
    assert Pow2(24) == 0x100_0000;
    assert Pow2(28) == 0x1000_0000;
  }

  lemma {:induction false} AndCommutes(a: nat, b: nat)
    ensures And(a, b) == And(b, a)
  {
    if a > 0 && b > 0 {
      AndCommutes(a / 2, b / 2);
    }
  }

  lemma AndOdd(m: nat, x: nat)
    ensures And(2 * m + 1, x) == x % 2 + 2 * And(m, x / 2)
  {
    assert (2 * m + 1) % 2 == 1 && (2 * m + 1) / 2 == m;
  }

  /** Masking with k ones is the remainder by 2^k. */
  lemma {:induction false} AndMask(k: nat, x: nat)
    ensures And(Pow2(k) - 1, x) == x % Pow2(k)
  {
    if k > 0 {
      AndMask(k - 1, x / 2);
      assert Pow2(k) == 2 * Pow2(k - 1);
      hide And, Pow2;
      AndMaskStep(Pow2(k - 1), x);
    }
  }

  lemma AndMaskStep(p: nat, x: nat)
    requires p > 0 && And(p - 1, x / 2) == (x / 2) % p
    ensures And(2 * p - 1, x) == x % (2 * p)
  {
    hide And;
    assert 2 * p - 1 == 2 * (p - 1) + 1;
    AndOdd(p - 1, x);
    ModHalves(x, p);
  }

  lemma ModHalves(x: nat, p: nat)
    requires p > 0
    ensures x % (2 * p) == x % 2 + 2 * ((x / 2) % p)
  {
    var q, r := (x / 2) / p, (x / 2) % p;
    assert x == 2 * (p * q + r) + x % 2;
    assert 2 * (p * q) == (2 * p) * q;
    DivModUnique(x, 2 * p, q, x % 2 + 2 * r);
  }

  lemma MulGrows(d: nat, t: int)
    ensures t >= 1 ==> d * t >= d
    ensures t <= -1 ==> d * t <= 0 - d
  {
  }

  lemma DivModUnique(x: nat, d: nat, q: nat, r: nat)
    requires r < d && x == d * q + r
    ensures x / d == q && x % d == r
  {
    var t := x / d - q;
    assert d * t == d * (x / d) - d * q;
    MulGrows(d, t);
  }

  lemma OrEven(c: nat, b: nat)
    ensures Or(2 * c, b) == b % 2 + 2 * Or(c, b / 2)
  {
    assert (2 * c) % 2 == 0 && (2 * c) / 2 == c;
    if c == 0 && b == 0 {
      assert Or(0, 0) == 0;
    }
  }

  /** Operands without a common bit: or is addition. */
  lemma {:induction false} OrDisjoint(k: nat, a: nat, b: nat)
    requires b < Pow2(k)
    ensures Or(Pow2(k) * a, b) == Pow2(k) * a + b
  {
    hide Or;
    if k == 0 {
      OrZero(a);
    } else {
      var c := Pow2(k - 1) * a;
      assert Pow2(k) * a == 2 * c;
      OrDisjoint(k - 1, a, b / 2);
      OrEven(c, b);
    }
  }

  lemma {:induction false} OrZero(a: nat)
    ensures Or(a, 0) == a && Or(0, a) == a
  {
    if a > 0 {
      OrZero(a / 2);
    }
  }

  lemma {:induction false} Bounds(k: nat, a: nat, b: nat)
    requires a < Pow2(k) && b < Pow2(k)
    ensures And(a, b) < Pow2(k) && Or(a, b) < Pow2(k) && Xor(a, b) < Pow2(k)
  {
    if k > 0 {
      Bounds(k - 1, a / 2, b / 2);
    }
  }

  // ---------------------------------------------------------------------------
  // Single bits
  // ---------------------------------------------------------------------------

  /** Bit i of a number, from the least significant. */
  predicate Bit(x: nat, i: nat) {
    if i == 0 then x % 2 == 1 else Bit(x / 2, i - 1)
  }

  lemma {:induction false} BitIs(x: nat, i: nat)
    ensures Bit(x, i) <==> (x / Pow2(i)) % 2 == 1
  {
    if i > 0 {
      BitIs(x / 2, i - 1);
      HalfQuotient(x, Pow2(i - 1));
    }
  }

  lemma HalfQuotient(x: nat, p: nat)
    requires p > 0
    ensures x / (2 * p) == (x / 2) / p
  {
    var q, r := (x / 2) / p, (x / 2) % p;
    assert x == 2 * (p * q + r) + x % 2;
    assert 2 * (p * q) == (2 * p) * q;
    DivModUnique(x, 2 * p, q, 2 * r + x % 2);
  }

  /** Each operator works on the bits one by one. */
  lemma {:induction false} OperatorBits(x: nat, y: nat, i: nat)
    ensures Bit(And(x, y), i) <==> Bit(x, i) && Bit(y, i)
    ensures Bit(Or(x, y), i) <==> Bit(x, i) || Bit(y, i)
    ensures Bit(Xor(x, y), i) <==> Bit(x, i) != Bit(y, i)
  {
    hide *;
    AndUnfold(x, y);
    OrUnfold(x, y);
    XorUnfold(x, y);
    BitUnfold(x, i);
    BitUnfold(y, i);
    DoubledBit(x % 2 == 1 && y % 2 == 1, And(x / 2, y / 2), i);
    DoubledBit(x % 2 == 1 || y % 2 == 1, Or(x / 2, y / 2), i);
    DoubledBit((x % 2 == 1) != (y % 2 == 1), Xor(x / 2, y / 2), i);
    if i > 0 {
      OperatorBits(x / 2, y / 2, i - 1);
    }
  }

  lemma DoubledBit(b: bool, m: nat, i: nat)
    ensures Bit((if b then 1 else 0) + 2 * m, i) <==> if i == 0 then b else Bit(m, i - 1)
  {
    var x := (if b then 1 else 0) + 2 * m;
    assert x % 2 == (if b then 1 else 0) && x / 2 == m;
  }

  lemma AndUnfold(x: nat, y: nat)
    ensures And(x, y) == (if x % 2 == 1 && y % 2 == 1 then 1 else 0) + 2 * And(x / 2, y / 2)
  {
    if x == 0 || y == 0 {
      assert And(x / 2, y / 2) == 0;
    }
  }

  lemma OrUnfold(x: nat, y: nat)
    ensures Or(x, y) == (if x % 2 == 1 || y % 2 == 1 then 1 else 0) + 2 * Or(x / 2, y / 2)
  {
  }

  lemma XorUnfold(x: nat, y: nat)
    ensures Xor(x, y) == (if (x % 2 == 1) != (y % 2 == 1) then 1 else 0) + 2 * Xor(x / 2, y / 2)
  {
  }

  lemma BitUnfold(x: nat, i: nat)
    ensures Bit(x, i) <==> if i == 0 then x % 2 == 1 else Bit(x / 2, i - 1)
  {
  }

  lemma {:induction false} NotBits(k: nat, x: nat, i: nat)
    requires x < Pow2(k) && i < k
    ensures Bit(Pow2(k) - 1 - x, i) <==> !Bit(x, i)
  {
    var y := Pow2(k) - 1 - x;
    assert Pow2(k) == 2 * Pow2(k - 1);
    assert y / 2 == Pow2(k - 1) - 1 - x / 2;
    if i > 0 {
      NotBits(k - 1, x / 2, i - 1);
    }
  }

  /** Numbers with the same bits are the same. */
  lemma {:induction false} SameBits(k: nat, x: nat, y: nat)
    requires x < Pow2(k) && y < Pow2(k) && forall i :: 0 <= i < k ==> Bit(x, i) == Bit(y, i)
    ensures x == y
  {
    if k > 0 {
      assert Bit(x, 0) == Bit(y, 0);
      forall i | 0 <= i < k - 1 ensures Bit(x / 2, i) == Bit(y / 2, i) {
        assert Bit(x, i + 1) == Bit(y, i + 1);
      }
      SameBits(k - 1, x / 2, y / 2);
    }
  }

  /** Dividing by a power of two moves the bits down, multiplying moves them up. */
  lemma {:induction false} BitShifted(x: nat, n: nat, i: nat)
    ensures Bit(Shifted(x, n), i) <==> Bit(x, i + n)
    decreases n
  {
    hide *;
    ShiftedUnfold(x, n);
    if n > 0 {
      BitUnfold(x, i + n);
      BitShifted(x / 2, n - 1, i);
    }
  }

  lemma ShiftedUnfold(x: nat, n: nat)
    ensures Shifted(x, n) == if n == 0 then x else Shifted(x / 2, n - 1)
  {
    if n > 0 {
      HalfQuotient(x, Pow2(n - 1));
    }
  }

  function Shifted(x: nat, n: nat): nat {
    NonNegative(x, Pow2(n));
    x / Pow2(n)
  }

  lemma NonNegative(x: nat, d: nat)
    requires d > 0
    ensures x / d >= 0
  {
    MulGrows(d, x / d);
  }

  lemma {:induction false} BitsJoined(high: nat, low: nat, k: nat, i: nat)
    requires low < Pow2(k)
    ensures Bit(low + high * Pow2(k), i) <==> if i < k then Bit(low, i) else Bit(high, i - k)
    decreases k
  {
    if k > 0 {
      var x := low + high * Pow2(k);
      assert high * Pow2(k) == 2 * (high * Pow2(k - 1));
      assert x / 2 == low / 2 + high * Pow2(k - 1) && x % 2 == low % 2;
      if i > 0 {
        BitsJoined(high, low / 2, k - 1, i - 1);
      }
    }
  }

  lemma {:induction false} BitsKept(x: nat, k: nat, i: nat)
    ensures Bit(x % Pow2(k), i) <==> i < k && Bit(x, i)
    decreases k
  {
    hide *;
    Pow2Unfold(k);
    BitUnfold(x % Pow2(k), i);
    BitUnfold(x, i);
    if k > 0 {
      ModHalves(x, Pow2(k - 1));
      if i > 0 {
        BitsKept(x / 2, k - 1, i - 1);
      }
    } else {
      NoBits(i);
    }
  }

  lemma Pow2Unfold(k: nat)
    ensures Pow2(k) == if k == 0 then 1 else 2 * Pow2(k - 1)
  {
  }

  lemma {:induction false} NoBits(i: nat)
    ensures !Bit(0, i)
  {
    if i > 0 {
      NoBits(i - 1);
    }
  }
}
