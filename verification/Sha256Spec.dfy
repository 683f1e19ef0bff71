/**
 SHA-256 of a whole message, as FIPS 180-2 defines it: padding (section 5.1.1), the functions and
 constants of section 4, the initial value (section 5.3.2) and the computation (section 6.2.2).
 The length field holds the length in bits modulo 2^64, which for every message the standard
 covers is the length itself.
 */
module Sha256Spec {
  import opened Bits

  // ---------------------------------------------------------------------------
  // Operations on words
  // ---------------------------------------------------------------------------

  function WAnd(x: Word, y: Word): Word {
    InWord(x, y);
    And(x, y)
  }

  function WXor(x: Word, y: Word): Word {
    InWord(x, y);
    Xor(x, y)
  }

  function WNot(x: Word): Word {
    WORD_SIZE - 1 - x
  }

  function Sum(x: nat): Word {
    x % WORD_SIZE
  }

  function Add(x: nat, y: nat): Word {
    (x + y) % WORD_SIZE
  }

  lemma InWord(x: Word, y: Word)
    ensures And(x, y) < WORD_SIZE && Or(x, y) < WORD_SIZE && Xor(x, y) < WORD_SIZE
  {
    Pow2Values();
    Bounds(32, x, y);
  }

  /** The right shift of section 3.2. */
  function Shr(n: nat, x: Word): (w: Word)
  {
    Quotient(x, Pow2(n));
    x / Pow2(n)
  }

  lemma Quotient(x: nat, d: nat)
    requires d > 0
    ensures 0 <= x / d <= x
  {
    QuotientBound(x, d, x + 1);
  }

  /** Rotation right: the low n bits move to the top. */
  function Rotr(n: nat, x: Word): Word
    requires n <= 32
  {
    RotrBound(n, x);
    x / Pow2(n) + (x % Pow2(n)) * Pow2(32 - n)
  }

  lemma {:induction false} Pow2Sum(a: nat, b: nat)
    ensures Pow2(a) * Pow2(b) == Pow2(a + b)
  {
    hide *;
    Pow2Unfold(a);
    Pow2Unfold(a + b);
    if a > 0 {
      Pow2Sum(a - 1, b);
      TwiceProduct(Pow2(a - 1), Pow2(b));
    }
  }

  lemma TwiceProduct(x: nat, y: nat)
    ensures (2 * x) * y == 2 * (x * y)
  {
  }

  lemma RotrBound(n: nat, x: Word)
    requires n <= 32
    ensures 0 <= x / Pow2(n) < Pow2(32 - n)
    ensures 0 <= (x % Pow2(n)) * Pow2(32 - n) <= WORD_SIZE - Pow2(32 - n)
  {
    Pow2Values();
    Pow2Sum(n, 32 - n);
    QuotientBound(x, Pow2(n), Pow2(32 - n));
    ProductBound(x % Pow2(n), Pow2(n), Pow2(32 - n));
  }

  lemma QuotientBound(x: nat, d: nat, e: nat)
    requires d > 0 && x < d * e
    ensures 0 <= x / d < e
  {
    var q := x / d;
    assert x == d * q + x % d;
    assert d * (q - e) < d;
    MulGrows(d, q - e);
    NonNegative(x, d);
  }

  lemma ProductBound(r: nat, d: nat, e: nat)
    requires r < d
    ensures 0 <= r * e <= d * e - e
  {
    assert (d - 1 - r) * e >= 0;
    assert (d - 1 - r) * e == d * e - e - r * e;
  }

  // ---------------------------------------------------------------------------
  // Functions and constants, section 4
  // ---------------------------------------------------------------------------

  function Ch(x: Word, y: Word, z: Word): Word {
    WXor(WAnd(x, y), WAnd(WNot(x), z))
  }

  function Maj(x: Word, y: Word, z: Word): Word {
    WXor(WXor(WAnd(x, y), WAnd(x, z)), WAnd(y, z))
  }

  function BigSigma0(x: Word): Word {
    WXor(WXor(Rotr(2, x), Rotr(13, x)), Rotr(22, x))
  }

  function BigSigma1(x: Word): Word {
    WXor(WXor(Rotr(6, x), Rotr(11, x)), Rotr(25, x))
  }

  function SmallSigma0(x: Word): Word {
    WXor(WXor(Rotr(7, x), Rotr(18, x)), Shr(3, x))
  }

  function SmallSigma1(x: Word): Word {
    WXor(WXor(Rotr(17, x), Rotr(19, x)), Shr(10, x))
  }

  const K0: seq<Word> := [0x428A2F98, 0x71374491, 0xB5C0FBCF, 0xE9B5DBA5, 0x3956C25B, 0x59F111F1, 0x923F82A4, 0xAB1C5ED5]
  const K1: seq<Word> := [0xD807AA98, 0x12835B01, 0x243185BE, 0x550C7DC3, 0x72BE5D74, 0x80DEB1FE, 0x9BDC06A7, 0xC19BF174]
  const K2: seq<Word> := [0xE49B69C1, 0xEFBE4786, 0x0FC19DC6, 0x240CA1CC, 0x2DE92C6F, 0x4A7484AA, 0x5CB0A9DC, 0x76F988DA]
  const K3: seq<Word> := [0x983E5152, 0xA831C66D, 0xB00327C8, 0xBF597FC7, 0xC6E00BF3, 0xD5A79147, 0x06CA6351, 0x14292967]
  const K4: seq<Word> := [0x27B70A85, 0x2E1B2138, 0x4D2C6DFC, 0x53380D13, 0x650A7354, 0x766A0ABB, 0x81C2C92E, 0x92722C85]
  const K5: seq<Word> := [0xA2BFE8A1, 0xA81A664B, 0xC24B8B70, 0xC76C51A3, 0xD192E819, 0xD6990624, 0xF40E3585, 0x106AA070]
  const K6: seq<Word> := [0x19A4C116, 0x1E376C08, 0x2748774C, 0x34B0BCB5, 0x391C0CB3, 0x4ED8AA4A, 0x5B9CCA4F, 0x682E6FF3]
  const K7: seq<Word> := [0x748F82EE, 0x78A5636F, 0x84C87814, 0x8CC70208, 0x90BEFFFA, 0xA4506CEB, 0xBEF9A3F7, 0xC67178F2]

  const K: seq<Word> := K0 + K1 + K2 + K3 + K4 + K5 + K6 + K7

  const INITIAL: seq<Word> := [
    0x6A09E667, 0xBB67AE85, 0x3C6EF372, 0xA54FF53A, 0x510E527F, 0x9B05688C, 0x1F83D9AB, 0x5BE0CD19
  ]

  // ---------------------------------------------------------------------------
  // Big-endian numbers
  // ---------------------------------------------------------------------------

  /** The number's last k bytes, most significant first. */
  ghost function BigEndian(n: nat, k: nat): (bytes: seq<Byte>)
    ensures |bytes| == k
  {
    if k == 0 then [] else BigEndian(n / 0x100, k - 1) + [n % 0x100]
  }

  ghost function Number(bytes: seq<Byte>): nat {
    if bytes == [] then 0 else 0x100 * Number(bytes[..|bytes| - 1]) + bytes[|bytes| - 1]
  }

  /** Words are written without loss. */
  lemma {:induction false} NumberOfBigEndian(n: nat, k: nat)
    ensures Number(BigEndian(n, k)) == n % Pow2(8 * k)
  {
    if k > 0 {
      var p := Pow2(8 * (k - 1));
      NumberOfBigEndian(n / 0x100, k - 1);
      Pow2Values();
      Pow2Sum(8, 8 * (k - 1));
      assert BigEndian(n, k)[..k - 1] == BigEndian(n / 0x100, k - 1);
      ModBytes(n, p);
    } else {
      assert Pow2(0) == 1;
    }
  }

  lemma ModBytes(n: nat, p: nat)
    requires p > 0
    ensures n % (0x100 * p) == 0x100 * ((n / 0x100) % p) + n % 0x100
  {
    var q, r := (n / 0x100) / p, (n / 0x100) % p;
    assert n == 0x100 * (p * q + r) + n % 0x100;
    assert 0x100 * (p * q) == (0x100 * p) * q;
    DivModUnique(n, 0x100 * p, q, 0x100 * r + n % 0x100);
  }

  // ---------------------------------------------------------------------------
  // Padding, section 5.1.1
  // ---------------------------------------------------------------------------

  ghost function Zeros(k: nat): (z: seq<Byte>)
    ensures |z| == k
    ensures forall i :: 0 <= i < k ==> z[i] == 0
  {
    seq(k, _ => 0)
  }

  /** The smallest number of zero bytes that completes a block up to the length field. */
  function ZerosNeeded(length: nat): (k: nat)
    ensures (length + 1 + k) % 64 == 56 && k < 64
  {
    (55 - length) % 64
  }

  /** The padding of a message of `length` bytes, with the length field of one of `counted` bytes. */
  ghost function PaddingFor(length: nat, counted: nat): (p: seq<Byte>)
    ensures (length + |p|) % 64 == 0
  {
    [0x80] + Zeros(ZerosNeeded(length)) + BigEndian(8 * counted, 8)
  }

  // ---------------------------------------------------------------------------
  // Computation, section 6.2.2
  // ---------------------------------------------------------------------------

  type Block = b: seq<Byte> | |b| == 64 witness seq(64, _ => 0)

  type State = s: seq<Word> | |s| == 8 witness seq(8, _ => 0)

  /** Word t of the message schedule. */
  ghost function ScheduleWord(block: Block, t: nat): Word {
    if t < 16 then BlockWord(block, t)
    else Sum(SmallSigma1(ScheduleWord(block, t - 2)) + ScheduleWord(block, t - 7)
             + SmallSigma0(ScheduleWord(block, t - 15)) + ScheduleWord(block, t - 16))
  }

  function BlockWord(block: Block, t: nat): (w: Word)
    requires t < 16
  {
    FourBytes(block[4 * t], block[4 * t + 1], block[4 * t + 2], block[4 * t + 3])
  }

  function FourBytes(b0: Byte, b1: Byte, b2: Byte, b3: Byte): Word {
    var i0: int, i1: int, i2: int, i3: int := b0, b1, b2, b3;
    0x100_0000 * i0 + 0x1_0000 * i1 + 0x100 * i2 + i3
  }

  /** One round on the working variables a to h. */
  function Round(s: State, k: Word, w: Word): State {
    var t1 := s[7] + BigSigma1(s[4]) + Ch(s[4], s[5], s[6]) + k + w;
    var t2 := BigSigma0(s[0]) + Maj(s[0], s[1], s[2]);
    [Sum(t1 + t2), s[0], s[1], s[2], Sum(s[3] + t1), s[4], s[5], s[6]]
  }

  ghost function Rounds(s: State, block: Block, t: nat): State
    requires t <= 64
  {
    if t == 0 then s else Round(Rounds(s, block, t - 1), K[t - 1], ScheduleWord(block, t - 1))
  }

  function AddState(a: State, b: State): State {
    [Add(a[0], b[0]), Add(a[1], b[1]), Add(a[2], b[2]), Add(a[3], b[3]),
     Add(a[4], b[4]), Add(a[5], b[5]), Add(a[6], b[6]), Add(a[7], b[7])]
  }

  ghost function Compress(s: State, block: Block): State {
    AddState(s, Rounds(s, block, 64))
  }

  /** The blocks of `data` folded into s, the first block first. */
  ghost function HashBlocks(s: State, data: seq<Byte>): State
    decreases |data|
  {
    if |data| < 64 then s else HashBlocks(Compress(s, data[..64]), data[64..])
  }

  /** The first k words of a state, written one after the other. */
  ghost function Words(s: State, k: nat): (d: seq<Byte>)
    requires k <= 8
    ensures |d| == 4 * k
  {
    if k == 0 then [] else Words(s, k - 1) + BigEndian(s[k - 1], 4)
  }

  /** The digest, if the length field said `counted` bytes. */
  ghost function DigestFor(message: seq<Byte>, counted: nat): (d: seq<Byte>)
    ensures |d| == 32
  {
    Words(HashBlocks(INITIAL, message + PaddingFor(|message|, counted)), 8)
  }

  ghost function Sha256(message: seq<Byte>): (d: seq<Byte>)
    ensures |d| == 32
  {
    DigestFor(message, |message|)
  }

  /** Folding whole blocks splits at any block boundary. */
  lemma {:induction false} HashBlocksSplit(s: State, a: seq<Byte>, b: seq<Byte>)
    requires |a| % 64 == 0
    ensures HashBlocks(s, a + b) == HashBlocks(HashBlocks(s, a), b)
    decreases |a|
  {
    hide Compress;
    if a == [] {
      assert a + b == b;
    } else {
      assert (a + b)[..64] == a[..64] && (a + b)[64..] == a[64..] + b;
      HashBlocksSplit(Compress(s, a[..64]), a[64..], b);
    }
  }

  lemma HashOneBlock(s: State, data: seq<Byte>, block: Block)
    requires |data| % 64 == 0
    ensures HashBlocks(s, data + block) == Compress(HashBlocks(s, data), block)
  {
    hide Compress;
    HashBlocksSplit(s, data, block);
    assert block[..64] == block && block[64..] == [];
  }
}
