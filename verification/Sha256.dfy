/**
 The streaming SHA-256 of the key tools: a block buffer, a byte counter kept in two words, and
 padding written through the same entry point as data.  Tied to the one-shot digest of
 Sha256Spec.
 */
module Sha256 {
  import opened Bits
  import opened Sequences
  import opened Sha256Spec

  // ---------------------------------------------------------------------------
  // The words of C
  // ---------------------------------------------------------------------------

  /** The macro ROTR: a shift right joined with a shift left that drops what leaves the word. */
  function RotrMacro(word: Word, bits: nat): (r: Word)
    requires 0 < bits < 32
    ensures r == Rotr(bits, word)
  {
    hide *;
    var high := ShiftLeft(word, 32 - bits);
    var low := Shr(bits, word);
    InWord(low, high);
    RotrParts(word, bits);
    Or(low, high)
  }

  function ShiftLeft(word: Word, bits: nat): Word {
    (word * Pow2(bits)) % WORD_SIZE
  }

  lemma {:induction false} OrCommutes(a: nat, b: nat)
    ensures Or(a, b) == Or(b, a)
  {
    if a > 0 || b > 0 {
      OrCommutes(a / 2, b / 2);
    }
  }

  lemma RotrParts(word: Word, bits: nat)
    requires 0 < bits < 32
    ensures Or(Shr(bits, word), ShiftLeft(word, 32 - bits)) == Rotr(bits, word)
  {
    var p, q := Pow2(bits), Pow2(32 - bits);
    Pow2Values();
    Pow2Sum(bits, 32 - bits);
    RotrBound(bits, word);
    ShiftDrops(word, p, q);
    OrCommutes(Shr(bits, word), ShiftLeft(word, 32 - bits));
    OrDisjoint(32 - bits, word % p, word / p);
    assert q * (word % p) == (word % p) * q;
  }

  lemma ShiftDrops(word: nat, p: nat, q: nat)
    requires p > 0 && q > 0 && p * q == WORD_SIZE
    ensures (word * q) % WORD_SIZE == (word % p) * q
  {
    var d, r := word / p, word % p;
    ProductBound(r, p, q);
    Distribute(p, d, r, q);
    DivModUnique(word * q, WORD_SIZE, d, r * q);
  }

  lemma Distribute(p: nat, d: int, r: nat, q: nat)
    ensures (p * d + r) * q == (p * q) * d + r * q
  {
    assert (p * d) * q == p * (d * q) == p * (q * d) == (p * q) * d;
  }

  /** The first loop of SHA256Block: four shifted bytes joined by `|=`. */
  method JoinBytes(b0: Byte, b1: Byte, b2: Byte, b3: Byte) returns (w: Word)
    ensures w == FourBytes(b0, b1, b2, b3)
  {
    JoinIs(b0, b1, b2, b3);
    hide Or, ShiftLeft, FourBytes, And, Xor;
    var x0 := ShiftLeft(b0, 24);
    InWord(0, x0);
    w := Or(0, x0);
    var x1 := ShiftLeft(b1, 16);
    InWord(w, x1);
    w := Or(w, x1);
    var x2 := ShiftLeft(b2, 8);
    InWord(w, x2);
    w := Or(w, x2);
    InWord(w, b3);
    w := Or(w, b3);
  }

  lemma JoinIs(b0: Byte, b1: Byte, b2: Byte, b3: Byte)
    ensures Or(Or(Or(Or(0, ShiftLeft(b0, 24)), ShiftLeft(b1, 16)), ShiftLeft(b2, 8)), b3) == FourBytes(b0, b1, b2, b3)
  {
    hide Or, Pow2, ShiftLeft;
    var i0: int, i1: int, i2: int, i3: int := b0, b1, b2, b3;
    ShiftedByte(b0, b1, b2);
    Pow2Values();
    OrZero(0x100_0000 * i0);
    OrStep(24, 0x100_0000, i0, 0x1_0000 * i1);
    OrStep(16, 0x1_0000, 0x100 * i0 + i1, 0x100 * i2);
    OrStep(8, 0x100, 0x1_0000 * i0 + 0x100 * i1 + i2, i3);
  }

  lemma ShiftedByte(b0: Byte, b1: Byte, b2: Byte)
    ensures ShiftLeft(b0, 24) == 0x100_0000 * (b0 as int)
    ensures ShiftLeft(b1, 16) == 0x1_0000 * (b1 as int)
    ensures ShiftLeft(b2, 8) == 0x100 * (b2 as int)
  {
    Pow2Values();
  }

  lemma OrStep(k: nat, p: nat, a: nat, b: nat)
    requires Pow2(k) == p && b < p
    ensures Or(p * a, b) == p * a + b
  {
    OrDisjoint(k, a, b);
  }

  /** encode, whose casts keep the low byte of each shift. */
  method Encode(number: Word) returns (memory: seq<Byte>)
    ensures memory == BigEndian(number, 4)
  {
    FourBytesOf(number);
    memory := [number / 0x100_0000 % 0x100, number / 0x1_0000 % 0x100, number / 0x100 % 0x100, number % 0x100];
  }

  // ---------------------------------------------------------------------------
  // The byte counter
  // ---------------------------------------------------------------------------

  /** The two count words hold the number of bytes, modulo 2^64. */
  ghost predicate Counts(count0: Word, count1: Word, length: nat) {
    WORD_SIZE * count1 + count0 == length % (WORD_SIZE * WORD_SIZE)
  }

  /** The low word after `extent` more bytes, and the carry as SHA256Write decides it. */
  function Low(count0: Word, extent: nat): Word {
    (count0 + extent) % WORD_SIZE
  }

  function High(count0: Word, count1: Word, extent: nat): Word {
    if Low(count0, extent) < extent then (count1 + 1) % WORD_SIZE else count1
  }

  lemma CountAfter(count0: Word, count1: Word, length: nat, extent: nat, q: nat)
    requires Counts(count0, count1, length) && count0 + extent == WORD_SIZE * q + Low(count0, extent)
    ensures (length + extent) % (WORD_SIZE * WORD_SIZE) == WORD_SIZE * ((count1 + q) % WORD_SIZE) + Low(count0, extent)
  {
    var w, low := WORD_SIZE, Low(count0, extent);
    var d := length / (w * w);
    var e := (count1 + q) / w;
    assert length == (w * w) * d + w * count1 + count0;
    assert count1 + q == w * e + (count1 + q) % w;
    assert w * (count1 + q) == (w * w) * e + w * ((count1 + q) % w);
    DivModUnique(length + extent, w * w, d + e, w * ((count1 + q) % w) + low);
  }

  /** One write keeps the counter exact if and only if the low word goes around at most once,
      whatever the extent, a 64-bit number. */
  lemma CarryExact(count0: Word, count1: Word, length: nat, extent: nat)
    requires Counts(count0, count1, length) && extent < WORD_SIZE * WORD_SIZE
    ensures Counts(Low(count0, extent), High(count0, count1, extent), length + extent) <==>
            count0 + extent < 2 * WORD_SIZE
  {
    var low := Low(count0, extent);
    var q := (count0 + extent) / WORD_SIZE;
    CountAfter(count0, count1, length, extent, q);
    assert q <= WORD_SIZE;
  }

  /** The low word alone says how full the block buffer is, and stays exact whatever is written. */
  lemma CountedInBlock(count0: Word, length: nat)
    requires count0 == length % WORD_SIZE
    ensures And(count0, 0x3F) == length % 64
  {
    Pow2Values();
    AndMask(6, count0);
    AndCommutes(count0, 0x3F);
    assert length == 64 * (0x4000000 * (length / WORD_SIZE) + count0 / 64) + count0 % 64;
    DivModUnique(length, 64, 0x4000000 * (length / WORD_SIZE) + count0 / 64, count0 % 64);
  }

  lemma LowExact(count0: Word, length: nat, extent: nat)
    requires count0 == length % WORD_SIZE
    ensures Low(count0, extent) == (length + extent) % WORD_SIZE
  {
    var sum: nat := count0 + extent;
    assert length + extent == WORD_SIZE * (length / WORD_SIZE + sum / WORD_SIZE) + sum % WORD_SIZE;
    DivModUnique(length + extent, WORD_SIZE, length / WORD_SIZE + sum / WORD_SIZE, sum % WORD_SIZE);
  }

  // ---------------------------------------------------------------------------
  // The length field
  // ---------------------------------------------------------------------------

  lemma DivDiv(n: nat)
    ensures n / 0x100 / 0x100 / 0x100 / 0x100 == n / WORD_SIZE
  {
  }

  lemma BigEndianWords(n: nat)
    ensures BigEndian(n, 8) == BigEndian(n / WORD_SIZE, 4) + BigEndian(n, 4)
  {
    DivDiv(n);
    var n1, n2, n3 := n / 0x100, n / 0x100 / 0x100, n / 0x100 / 0x100 / 0x100;
    var top := BigEndian(n / WORD_SIZE, 4);
    assert BigEndian(n3, 5) == top + [n3 % 0x100];
    assert BigEndian(n2, 6) == top + [n3 % 0x100, n2 % 0x100];
    assert BigEndian(n1, 7) == top + [n3 % 0x100, n2 % 0x100, n1 % 0x100];
    assert BigEndian(n3, 1) == [n3 % 0x100];
    assert BigEndian(n2, 2) == [n3 % 0x100, n2 % 0x100];
    assert BigEndian(n1, 3) == [n3 % 0x100, n2 % 0x100, n1 % 0x100];
  }

  lemma LastByte(r: nat, q: nat, m: nat)
    ensures ((0x100 * r) * q + m) / 0x100 == r * q + m / 0x100 && ((0x100 * r) * q + m) % 0x100 == m % 0x100
  {
    assert (0x100 * r) * q == 0x100 * (r * q);
    DivModUnique(0x100 * (r * q) + m, 0x100, r * q + m / 0x100, m % 0x100);
  }

  lemma BytePower(k: nat)
    requires k > 0
    ensures Pow2(8 * k) == 0x100 * Pow2(8 * (k - 1))
  {
    Pow2Values();
    Pow2Sum(8, 8 * (k - 1));
  }

  lemma {:induction false} BigEndianKeeps(k: nat, q: nat, m: nat)
    ensures BigEndian(Pow2(8 * k) * q + m, k) == BigEndian(m, k)
  {
    hide Pow2;
    if k > 0 {
      var r := Pow2(8 * (k - 1));
      BytePower(k);
      LastByte(r, q, m);
      BigEndianKeeps(k - 1, q, m / 0x100);
    }
  }

  lemma BigEndianLow(n: nat)
    ensures BigEndian(n, 4) == BigEndian(n % WORD_SIZE, 4)
  {
    Pow2Values();
    hide Pow2, BigEndian;
    assert 8 * 4 == 32;
    BigEndianKeeps(4, n / WORD_SIZE, n % WORD_SIZE);
  }

  lemma FourBytesOf(n: nat)
    ensures BigEndian(n, 4) == [n / 0x100_0000 % 0x100, n / 0x1_0000 % 0x100, n / 0x100 % 0x100, n % 0x100]
  {
    var a, b, c := n / 0x100, n / 0x1_0000, n / 0x100_0000;
    assert a / 0x100 == b && b / 0x100 == c;
    assert BigEndian(c, 1) == [c % 0x100];
    assert BigEndian(b, 2) == [c % 0x100, b % 0x100];
    assert BigEndian(a, 3) == [c % 0x100, b % 0x100, a % 0x100];
  }

  /** The words `upper` and `lower` of SHA256Fetch. */
  function Lower(count0: Word): Word {
    ShiftLeft(count0, 3)
  }

  function Upper(count0: Word, count1: Word): Word {
    InWord(Shr(29, count0), ShiftLeft(count1, 3));
    Or(Shr(29, count0), ShiftLeft(count1, 3))
  }

  lemma Shifts(w: Word)
    ensures Shr(29, w) == w / 0x2000_0000 && ShiftLeft(w, 3) == (8 * w) % WORD_SIZE
  {
    Pow2Values();
    assert Pow2(29) == 32 * Pow2(24);
  }

  lemma UpperIs(count0: Word, count1: Word)
    ensures Upper(count0, count1) == (8 * count1) % WORD_SIZE + count0 / 0x2000_0000
  {
    Pow2Values();
    hide Or, Shr, ShiftLeft;
    Shifts(count0);
    Shifts(count1);
    OrCommutes(Shr(29, count0), ShiftLeft(count1, 3));
    var m := count1 % 0x2000_0000;
    assert (8 * count1) % WORD_SIZE == 8 * m;
    OrStep(3, 8, m, count0 / 0x2000_0000);
  }

  /** They are the message length in bits, as a big-endian number of eight bytes. */
  lemma LengthField(count0: Word, count1: Word, length: nat)
    requires Counts(count0, count1, length)
    ensures BigEndian(Upper(count0, count1), 4) + BigEndian(Lower(count0), 4) == BigEndian(8 * length, 8)
  {
    LengthWords(count0, count1, length);
    hide *;
    BigEndianWords(8 * length);
    BigEndianLow(8 * length / WORD_SIZE);
    BigEndianLow(8 * length);
  }

  /** What the two words say, the number of bytes or something else with the same low word. */
  function CountOf(count0: Word, count1: Word): nat {
    WORD_SIZE * count1 + count0
  }

  lemma CountOfCounts(count0: Word, count1: Word)
    ensures Counts(count0, count1, CountOf(count0, count1))
  {
  }

  /** While the counter is exact, the digest is that of the standard. */
  lemma ExactDigest(message: seq<Byte>, count0: Word, count1: Word)
    requires Counts(count0, count1, |message|)
    ensures DigestFor(message, CountOf(count0, count1)) == Sha256(message)
  {
    hide HashBlocks, Words, Zeros, BigEndian, CountOf, Counts;
    CountOfCounts(count0, count1);
    LengthField(count0, count1, |message|);
    LengthField(count0, count1, CountOf(count0, count1));
  }

  lemma LengthWords(count0: Word, count1: Word, length: nat)
    requires Counts(count0, count1, length)
    ensures Lower(count0) == (8 * length) % WORD_SIZE && Upper(count0, count1) == 8 * length / WORD_SIZE % WORD_SIZE
  {
    UpperIs(count0, count1);
    Shifts(count0);
    hide Upper, Or, ShiftLeft;
    LengthSplit(count0, count1, length / (WORD_SIZE * WORD_SIZE));
  }

  lemma LengthSplit(c0: Word, c1: Word, d: nat)
    ensures var bits := 8 * ((WORD_SIZE * WORD_SIZE) * d + WORD_SIZE * c1 + c0);
            && bits % WORD_SIZE == (8 * c0) % WORD_SIZE
            && bits / WORD_SIZE % WORD_SIZE == (8 * c1) % WORD_SIZE + c0 / 0x2000_0000
  {
    var i0: int, i1: int := c0, c1;
    var bits := 8 * ((WORD_SIZE * WORD_SIZE) * d + WORD_SIZE * i1 + i0);
    var low := (8 * i0) % WORD_SIZE;
    assert 8 * i0 == WORD_SIZE * (i0 / 0x2000_0000) + low;
    var high := WORD_SIZE * (8 * d) + 8 * i1 + i0 / 0x2000_0000;
    DivModUnique(bits, WORD_SIZE, high, low);
    var e := 8 * i1 / WORD_SIZE;
    DivModUnique(high, WORD_SIZE, 8 * d + e, (8 * i1) % WORD_SIZE + i0 / 0x2000_0000);
  }

  // ---------------------------------------------------------------------------
  // The hash state
  // ---------------------------------------------------------------------------

  /** The second argument of SHA256Write when it pads: 0x80 and zero bytes. */
  ghost function Extra(): (e: seq<Byte>)
    ensures |e| == 64
  {
    [0x80] + Zeros(63)
  }

  /** `digested` is the message up to the last whole block and `pending` the rest. */
  ghost predicate Buffered(state: seq<Word>, digested: seq<Byte>, pending: seq<Byte>) {
    |digested| % 64 == 0 && |pending| < 64 && |state| == 8 && state == HashBlocks(INITIAL, digested)
  }

  lemma NothingCounted()
    ensures Counts(0, 0, 0) && 0 % WORD_SIZE == 0
  {
  }

  lemma ExtraIs(e: seq<Byte>)
    ensures |e| == 64 && (forall i :: 0 <= i < 64 ==> e[i] == 0) ==> e[0 := 0x80] == Extra()
  {
  }

  lemma InitialIs()
    ensures INITIAL == [0x6A09E667, 0xBB67AE85, 0x3C6EF372, 0xA54FF53A, 0x510E527F, 0x9B05688C, 0x1F83D9AB, 0x5BE0CD19]
  {
  }

  lemma NothingBuffered()
    ensures Buffered(INITIAL, [], [])
  {
  }

  /** The next block of a message digested. */
  lemma NextBlock(state: seq<Word>, all: seq<Byte>, n: nat, left: nat)
    requires n + 64 <= |all| && n + left <= |all| && Buffered(state, all[..n], all[n..n + left])
    ensures Buffered(Compress(state, all[n..n + 64]), all[..n + 64], [])
    ensures all[n + 64..n + 64] == []
  {
    hide Compress;
    HashOneBlock(INITIAL, all[..n], all[n..n + 64]);
    assert all[..n] + all[n..n + 64] == all[..n + 64];
  }

  lemma BufferedIs(state: seq<Word>, digested: seq<Byte>, pending: seq<Byte>)
    ensures Buffered(state, digested, pending) <==>
            |digested| % 64 == 0 && |pending| < 64 && |state| == 8 && state == HashBlocks(INITIAL, digested)
  {
  }

  lemma Pending(state: seq<Word>, message: seq<Byte>, whole: nat)
    requires whole <= |message| && Buffered(state, message[..whole], message[whole..])
    ensures |message| % 64 == |message| - whole < 64
  {
    hide HashBlocks;
  }

  /** The bytes left from before and the bytes that fill the block up are the next block. */
  lemma Joined(block: seq<Byte>, left: nat, all: seq<Byte>, n: nat)
    requires |block| == 64 && left < 64 && n + 64 <= |all|
    requires block[..left] == all[n..n + left] && block[left..left + (64 - left)] == all[n + left..][..64 - left]
    ensures block == all[n..n + 64]
  {
    assert block == block[..left] + block[left..left + (64 - left)];
  }

  /** After the last copy the block buffer begins with the rest of the message. */
  lemma Held(block: seq<Byte>, all: seq<Byte>, n: nat, left: nat)
    requires n + left <= |all| <= n + 64 == n + |block|
    requires block[..left] == all[n..n + left] && block[left..|all| - n] == all[n + left..]
    ensures block[..|all| - n] == all[n..]
  {
    assert block[..|all| - n] == block[..left] + block[left..|all| - n];
    assert all[n..] == all[n..n + left] + all[n + left..];
  }

  /** What SHA256Fetch writes is the padding of the standard, with the length the counter says. */
  lemma PaddingIs(n: nat, counted: nat, length: nat)
    requires length == if n % 64 < 56 then 56 - n % 64 else 120 - n % 64
    ensures length <= 64 && Extra()[..length] + BigEndian(8 * counted, 8) == PaddingFor(n, counted)
  {
    assert length == 1 + ZerosNeeded(n);
    hide BigEndian, ZerosNeeded;
    assert Extra()[..length] == [0x80] + Zeros(length - 1);
  }

  /** Once padded the message is all digested. */
  lemma PaddedWhole(state: seq<Word>, written: seq<Byte>, counted: nat, message: seq<Byte>, whole: nat)
    requires message == written + PaddingFor(|written|, counted)
    requires whole <= |message| && Buffered(state, message[..whole], message[whole..])
    ensures |state| == 8 && Words(state, 8) == DigestFor(written, counted)
  {
    hide *;
    Pending(state, message, whole);
    assert message[..whole] == message;
    BufferedIs(state, message[..whole], message[whole..]);
    DigestIs(written, counted);
  }

  lemma DigestIs(written: seq<Byte>, counted: nat)
    ensures DigestFor(written, counted) == Words(HashBlocks(INITIAL, written + PaddingFor(|written|, counted)), 8)
  {
    hide Words, PaddingFor, HashBlocks;
  }

  lemma LowHigh(count0: Word, count1: Word, extent: nat)
    ensures Low(count0, extent) == (count0 + extent % WORD_SIZE) % WORD_SIZE
    ensures High(count0, count1, extent) == if Low(count0, extent) < extent then (count1 + 1) % WORD_SIZE else count1
  {
    var c, r: nat := count0, extent % WORD_SIZE;
    assert c + extent == WORD_SIZE * (extent / WORD_SIZE) + (c + r);
    DivModUnique(c + extent, WORD_SIZE, extent / WORD_SIZE + (c + r) / WORD_SIZE, (c + r) % WORD_SIZE);
  }

  lemma Appended(was: seq<Byte>, memory: seq<Byte>, whole: nat)
    requires whole <= |was|
    ensures var m := was + memory;
            m[..whole] == was[..whole] && m[whole..|was|] == was[whole..] && m[|was|..] == memory
  {
  }

  lemma NoExtent(count0: Word, count1: Word)
    ensures Low(count0, 0) == count0 && High(count0, count1, 0) == count1
  {
  }

  class Hasher {
    var count0: Word
    var count1: Word
    const state: array<Word>
    const block: array<Byte>
    const extra: array<Byte>
    /** The bytes written since the last reset. */
    ghost var message: seq<Byte>
    /** How many of them make up whole blocks, already digested. */
    ghost var whole: nat

    ghost predicate Shape() {
      state.Length == 8 && block.Length == 64 && extra.Length == 64 && block != extra
    }

    ghost predicate Valid()
      reads this, state, block, extra
    {
      && Shape()
      && count0 == |message| % WORD_SIZE
      && extra[..] == Extra()
      && whole <= |message|
      && Buffered(state[..], message[..whole], message[whole..])
      && block[..|message| - whole] == message[whole..]
    }

    /** The counter holds the number of bytes written. */
    ghost predicate Exact()
      reads this
    {
      Counts(count0, count1, |message|)
    }

    constructor ()
      ensures Shape() && fresh(state) && fresh(block) && fresh(extra)
    {
      count0, count1, message, whole := 0, 0, [], 0;
      state, block, extra := new Word[8](_ => 0), new Byte[64](_ => 0), new Byte[64](_ => 0);
    }

    /** memset of the whole structure. */
    method Clear()
      requires Shape()
      modifies this, state, block, extra
      ensures Cleared() && Shape() && count0 == 0 && count1 == 0
    {
      count0, count1 := 0, 0;
      forall i | 0 <= i < 8 {
        state[i] := 0;
      }
      forall i | 0 <= i < 64 {
        block[i] := 0;
      }
      forall i | 0 <= i < 64 {
        extra[i] := 0;
      }
    }

    ghost predicate Cleared()
      reads this, state, block, extra
    {
      && Shape() && count0 == 0 && count1 == 0
      && (forall i :: 0 <= i < 8 ==> state[i] == 0)
      && (forall i :: 0 <= i < 64 ==> block[i] == 0 && extra[i] == 0)
    }

    method Reset()
      requires Shape()
      modifies this, state, block, extra
      ensures Valid() && message == [] && count0 == 0 && count1 == 0
    {
      hide *;
      NothingCounted();
      NothingBuffered();
      Clear();
      SetInitial();
      message, whole := [], 0;
      assert message[..0] == [] && message[0..] == [] && block[..0] == [];
      Filled();
    }

    /** The assignments of SHA256Reset. */
    method SetInitial()
      requires Cleared()
      modifies state, extra
      ensures state[..] == INITIAL && extra[..] == Extra()
    {
      ghost var zeros := extra[..];
      ExtraIs(zeros);
      hide INITIAL, Extra;
      InitialIs();
      state[0], state[1], state[2], state[3] := 0x6A09E667, 0xBB67AE85, 0x3C6EF372, 0xA54FF53A;
      state[4], state[5], state[6], state[7] := 0x510E527F, 0x9B05688C, 0x1F83D9AB, 0x5BE0CD19;
      assert state[..] == INITIAL;
      extra[0] := 0x80;
      assert extra[..] == zeros[0 := 0x80];
    }

    lemma Filled()
      requires Shape() && count0 == |message| % WORD_SIZE && extra[..] == Extra() && whole <= |message|
      requires Buffered(state[..], message[..whole], message[whole..])
      requires block[..|message| - whole] == message[whole..]
      ensures Valid()
    {
    }

    /** The schedule of SHA256Block: its first two loops. */
    method Schedule(memory: Block) returns (W: array<Word>)
      ensures fresh(W) && W.Length == 64
      ensures forall t :: 0 <= t < 64 ==> W[t] == ScheduleWord(memory, t)
    {
      hide WXor, Rotr, RotrMacro, Shr, FourBytes, SumOfFour;
      W := new Word[64];
      var word := 0;
      while word < 16
        invariant 0 <= word <= 16
        invariant forall t :: 0 <= t < word ==> W[t] == ScheduleWord(memory, t)
      {
        W[word] := JoinBytes(memory[4 * word], memory[4 * word + 1], memory[4 * word + 2], memory[4 * word + 3]);
        word := word + 1;
      }
      while word < 64
        invariant 16 <= word <= 64
        invariant forall t :: 0 <= t < word ==> W[t] == ScheduleWord(memory, t)
      {
        var s0 := WXor(WXor(RotrMacro(W[word - 15], 7), RotrMacro(W[word - 15], 18)), Shr(3, W[word - 15]));
        var s1 := WXor(WXor(RotrMacro(W[word - 2], 17), RotrMacro(W[word - 2], 19)), Shr(10, W[word - 2]));
        ScheduleWordIs(memory, word);
        W[word] := SumOfFour(W[word - 16], s0, W[word - 7], s1);
        word := word + 1;
      }
    }

    /** One pass of the last loop: new values for the ends, the register shifted by one. */
    method Pass(H: array<Word>, k: Word, w: Word)
      requires H.Length == 8
      modifies H
      ensures H[..] == Round(old(H[..]), k, w)
    {
      ghost var h := H[..];
      var s2 := WXor(WXor(RotrMacro(H[0], 2), RotrMacro(H[0], 13)), RotrMacro(H[0], 22));
      var maj := WXor(WXor(WAnd(H[0], H[1]), WAnd(H[0], H[2])), WAnd(H[1], H[2]));
      var t2 := Add(s2, maj);
      var s3 := WXor(WXor(RotrMacro(H[4], 6), RotrMacro(H[4], 11)), RotrMacro(H[4], 25));
      var ch := WXor(WAnd(H[4], H[5]), WAnd(WNot(H[4]), H[6]));
      var t1 := Add(Add(Add(Add(H[7], s3), ch), k), w);
      RoundIs(h, k, w, s2, maj, s3, ch);
      var word := 7;
      while word > 0
        invariant 0 <= word <= 7
        invariant forall i :: 0 <= i <= word ==> H[i] == h[i]
        invariant forall i :: word < i < 8 ==> H[i] == h[i - 1]
      {
        H[word] := H[word - 1];
        word := word - 1;
      }
      H[0] := Add(t1, t2);
      H[4] := Add(H[4], t1);
    }

    method CompressBlock(memory: Block)
      requires Shape()
      modifies state
      ensures state[..] == Compress(old(state[..]), memory)
    {
      hide Rounds, Round, ScheduleWord, Compress, AddState, K;
      var W := Schedule(memory);
      ghost var words := W[..];
      var H := new Word[8];
      ghost var s: State := state[..];
      var word := 0;
      while word < 8
        invariant 0 <= word <= 8 && state[..] == s && W[..] == words
        invariant H[..word] == s[..word]
      {
        H[word] := state[word];
        word := word + 1;
      }
      assert H[..] == H[..8] && s[..8] == s;
      RoundsIs(s, memory, 0);
      var pass := 0;
      while pass < 64
        invariant 0 <= pass <= 64 == |K| && state[..] == s && W[..] == words
        invariant H[..] == Rounds(s, memory, pass)
      {
        assert words[pass] == ScheduleWord(memory, pass);
        RoundsIs(s, memory, pass + 1);
        Pass(H, K[pass], W[pass]);
        pass := pass + 1;
      }
      AddTo(H);
      CompressIs(s, memory);
    }

    /** The last loop. */
    method AddTo(H: array<Word>)
      requires Shape() && H.Length == 8 && H != state
      modifies state
      ensures state[..] == AddState(old(state[..]), H[..])
    {
      var word := 0;
      while word < 8
        invariant 0 <= word <= 8
        invariant forall i :: 0 <= i < word ==> state[i] == Add(old(state[i]), H[i])
        invariant forall i :: word <= i < 8 ==> state[i] == old(state[i])
      {
        state[word] := Add(state[word], H[word]);
        word := word + 1;
      }
      hide Add;
      assert state[..] == AddState(old(state[..]), H[..]);
    }

    /** Whatever is written is appended to the message, and counted as CarryExact says. */
    method Write(memory: seq<Byte>)
      requires Valid()
      modifies this, state, block
      ensures Valid() && message == old(message) + memory
      ensures count0 == Low(old(count0), |memory|) && count1 == High(old(count0), old(count1), |memory|)
    {
      hide *;
      Opened();
      if |memory| == 0 {
        NoExtent(count0, count1);
        assert message + memory == message;
      } else {
        InWord(count0, 0x3F);
        var left := And(count0, 0x3F);
        CountedInBlock(count0, |message|);
        Pending(state[..], message, whole);
        AddCount(|memory|, |message|);
        Appended(message, memory, whole);
        message := message + memory;
        whole := Absorb(left, memory, message, whole);
        Filled();
      }
    }

    /** The part of SHA256Write that counts bytes. */
    method AddCount(extent: nat, ghost length: nat)
      requires count0 == length % WORD_SIZE
      modifies this`count0, this`count1
      ensures count0 == Low(old(count0), extent) && count1 == High(old(count0), old(count1), extent)
      ensures count0 == (length + extent) % WORD_SIZE
      ensures old(Counts(count0, count1, length)) && extent < WORD_SIZE * WORD_SIZE ==>
                (Counts(count0, count1, length + extent) <==> old(count0) + extent < 2 * WORD_SIZE)
    {
      hide Counts, Low, High;
      if Counts(count0, count1, length) && extent < WORD_SIZE * WORD_SIZE {
        CarryExact(count0, count1, length, extent);
      }
      LowExact(count0, length, extent);
      LowHigh(count0, count1, extent);
      count0 := (count0 + extent % WORD_SIZE) % WORD_SIZE;
      if count0 < extent {
        count1 := (count1 + 1) % WORD_SIZE;
      }
    }

    /** The part of SHA256Write that moves bytes.  `all` is the message with the new bytes, of
        which `whole` bytes have been digested and `left0` are in the block buffer. */
    method Absorb(left0: nat, memory: seq<Byte>, ghost all: seq<Byte>, ghost whole: nat)
      returns (ghost n: nat)
      requires Shape() && whole + left0 + |memory| == |all| && memory == all[whole + left0..]
      requires Buffered(state[..], all[..whole], all[whole..whole + left0])
      requires block[..left0] == all[whole..whole + left0]
      modifies state, block
      ensures n <= |all| && Buffered(state[..], all[..n], all[n..]) && block[..|all| - n] == all[n..]
    {
      hide HashBlocks, Compress, Buffered;
      BufferedIs(state[..], all[..whole], all[whole..whole + left0]);
      n := whole;
      var left, buffer, extent := left0, memory, |memory|;
      var fill := 64 - left;
      if left > 0 && extent >= fill {
        Copy(left, buffer[..fill]);
        Joined(block[..], left, all, n);
        NextBlock(state[..], all, n, left);
        CompressBlock(block[..]);
        n := n + 64;
        extent := extent - fill;
        buffer := buffer[fill..];
        left := 0;
      }
      while extent >= 64
        invariant 0 <= left && 0 <= extent && n + left + extent == |all| && buffer == all[n + left..]
        invariant left < 64 && (left > 0 ==> left + extent < 64)
        invariant Buffered(state[..], all[..n], all[n..n + left]) && block[..left] == all[n..n + left]
      {
        assert buffer[..64] == all[n..n + 64];
        NextBlock(state[..], all, n, left);
        CompressBlock(buffer[..64]);
        n := n + 64;
        extent := extent - 64;
        buffer := buffer[64..];
      }
      BufferedIs(state[..], all[..n], all[n..n + left]);
      BufferedIs(state[..], all[..n], all[n..]);
      if extent > 0 {
        Copy(left, buffer);
      }
      Held(block[..], all, n, left);
    }

    /** The digest of everything written since the reset, with the length the counter says: that of
        the standard when the counter is exact.  The structure is left all zero. */
    method Fetch(digest: array<Byte>)
      requires Valid() && digest.Length >= 32 && digest != block && digest != extra
      modifies this, state, block, extra, digest
      ensures digest[..32] == DigestFor(old(message), CountOf(old(count0), old(count1)))
      ensures old(Exact()) ==> digest[..32] == Sha256(old(message))
      ensures digest[32..] == old(digest[32..]) && Cleared()
    {
      ghost var written, counted := message, CountOf(count0, count1);
      if Exact() {
        ExactDigest(message, count0, count1);
      }
      assert Exact() ==> DigestFor(written, counted) == Sha256(written);
      hide *;
      Opened();
      InWord(count0, 0x3F);
      CountedInBlock(count0, |message|);
      CountOfCounts(count0, count1);
      var upper, lower := Upper(count0, count1), Lower(count0);
      var final := And(count0, 0x3F);
      var length := if final < 56 then 56 - final else 120 - final;
      var high := Encode(upper);
      var low := Encode(lower);
      LengthField(count0, count1, counted);
      PaddingIs(|message|, counted, length);
      Write(extra[..length]);
      Opened();
      Write(high + low);
      Opened();
      Assoc(written, extra[..length], high + low);
      PaddedWhole(state[..], written, counted, message, whole);
      WriteDigest(digest);
      Clear();
    }

    lemma Opened()
      requires Valid()
      ensures Shape() && state.Length == 8 && extra.Length == 64 && count0 == |message| % WORD_SIZE && extra[..] == Extra()
      ensures whole <= |message| && Buffered(state[..], message[..whole], message[whole..])
      ensures block.Length == 64 && block[..|message| - whole] == message[whole..]
      ensures 0 <= count0 < WORD_SIZE && WORD_SIZE == 0x1_0000_0000
    {
    }

    /** The loop of SHA256Fetch. */
    method WriteDigest(digest: array<Byte>)
      requires Shape() && digest.Length >= 32
      modifies digest
      ensures digest[..32] == Words(state[..], 8) && digest[32..] == old(digest[32..])
    {
      hide BigEndian;
      var word := 0;
      while word < 8
        invariant 0 <= word <= 8
        invariant digest[..4 * word] == Words(state[..], word) && digest[32..] == old(digest[32..])
      {
        var memory := Encode(state[word]);
        ghost var before := digest[..4 * word];
        digest[4 * word], digest[4 * word + 1] := memory[0], memory[1];
        digest[4 * word + 2], digest[4 * word + 3] := memory[2], memory[3];
        word := word + 1;
        assert digest[..4 * word] == before + memory;
      }
    }

    /** memcpy into the block buffer. */
    method Copy(at: nat, bytes: seq<Byte>)
      requires Shape() && at + |bytes| <= 64
      modifies block
      ensures block[..at] == old(block[..at]) && block[at..at + |bytes|] == bytes
    {
      forall i | 0 <= i < |bytes| {
        block[at + i] := bytes[i];
      }
    }
  }


  lemma CompressIs(s: State, memory: Block)
    ensures Compress(s, memory) == AddState(s, Rounds(s, memory, 64))
  {
  }

  lemma RoundsIs(s: State, memory: Block, t: nat)
    requires t <= 64
    ensures t == 0 ==> Rounds(s, memory, t) == s
    ensures |K| == 64 && (t > 0 ==> Rounds(s, memory, t) == Round(Rounds(s, memory, t - 1), K[t - 1], ScheduleWord(memory, t - 1)))
  {
    hide Round, ScheduleWord;
  }

  lemma ScheduleWordIs(memory: Block, t: nat)
    requires 16 <= t
    ensures ScheduleWord(memory, t) ==
            SumOfFour(ScheduleWord(memory, t - 16), SmallSigma0(ScheduleWord(memory, t - 15)),
                      ScheduleWord(memory, t - 7), SmallSigma1(ScheduleWord(memory, t - 2)))
  {
    hide SmallSigma0, SmallSigma1;
  }

  function SumOfFour(a: nat, b: nat, c: nat, d: nat): Word {
    (a + b + c + d) % WORD_SIZE
  }

  lemma AddSum(x: nat, y: nat)
    ensures Add(Sum(x), y) == Sum(x + y) == Add(y, Sum(x)) && Add(x, y) == Sum(x + y)
  {
  }

  /** The program reduces every sum as it goes; the standard reduces once. */
  lemma RoundIs(h: State, k: Word, w: Word, s2: Word, maj: Word, s3: Word, ch: Word)
    requires s2 == BigSigma0(h[0]) && maj == Maj(h[0], h[1], h[2]) && s3 == BigSigma1(h[4]) && ch == Ch(h[4], h[5], h[6])
    ensures var t1, t2 := Add(Add(Add(Add(h[7], s3), ch), k), w), Add(s2, maj);
            Round(h, k, w) == [Add(t1, t2), h[0], h[1], h[2], Add(h[3], t1), h[4], h[5], h[6]]
  {
    hide BigSigma0, Maj, BigSigma1, Ch, Add, Sum;
    var x1: nat := h[7] + s3 + ch + k + w;
    var x2: nat := s2 + maj;
    AddSum(h[7], s3);
    AddSum(h[7] + s3, ch);
    AddSum(h[7] + s3 + ch, k);
    AddSum(h[7] + s3 + ch + k, w);
    AddSum(s2, maj);
    AddSum(x1, Sum(x2));
    AddSum(x2, x1);
    AddSum(x1, h[3]);
  }

  ghost function Concat(chunks: seq<seq<Byte>>): seq<Byte> {
    if chunks == [] then [] else Concat(chunks[..|chunks| - 1]) + chunks[|chunks| - 1]
  }

  /** The counter after some writes. */
  ghost function CounterAfter(chunks: seq<seq<Byte>>): (Word, Word) {
    if chunks == [] then (0, 0)
    else
      var (count0, count1) := CounterAfter(chunks[..|chunks| - 1]);
      var extent := |chunks[|chunks| - 1]|;
      (Low(count0, extent), High(count0, count1, extent))
  }

  /** In no write does the low count word go around more than once. */
  ghost predicate Countable(chunks: seq<seq<Byte>>) {
    forall i :: 0 <= i < |chunks| ==> CounterAfter(chunks[..i]).0 + |chunks[i]| < 2 * WORD_SIZE
  }

  lemma SmallWrites(chunks: seq<seq<Byte>>)
    requires forall i :: 0 <= i < |chunks| ==> |chunks[i]| < WORD_SIZE
    ensures Countable(chunks)
  {
    hide CounterAfter;
  }

  /** One write after another, from a reset. */
  method WriteAll(hasher: Hasher, chunks: seq<seq<Byte>>)
    requires hasher.Valid() && hasher.message == [] && hasher.count0 == 0 && hasher.count1 == 0
    modifies hasher, hasher.state, hasher.block
    ensures hasher.Valid() && hasher.message == Concat(chunks)
    ensures hasher.count0 == CounterAfter(chunks).0 && hasher.count1 == CounterAfter(chunks).1
    ensures Countable(chunks) ==> hasher.Exact()
  {
    ExactIs(hasher);
    NothingCounted();
    hide *;
    NoChunks();
    assert chunks[..0] == [];
    var i := 0;
    while i < |chunks|
      invariant 0 <= i <= |chunks| && hasher.Valid() && hasher.message == Concat(chunks[..i])
      invariant hasher.count0 == CounterAfter(chunks[..i]).0 && hasher.count1 == CounterAfter(chunks[..i]).1
      invariant Countable(chunks) ==> Counts(hasher.count0, hasher.count1, |hasher.message|)
    {
      NextChunk(chunks, i);
      NextExact(chunks, i, hasher.count0, hasher.count1, |hasher.message|);
      hasher.Write(chunks[i]);
      i := i + 1;
    }
    assert chunks[..i] == chunks;
    ExactIs(hasher);
  }

  /** However a message is cut into writes, the digest is that of the whole message with the length
      the counter says; and it is the one the standard defines when no write makes the low count
      word go around more than once, as no write of fewer than 2^32 bytes does. */
  method HashInPieces(hasher: Hasher, chunks: seq<seq<Byte>>) returns (digest: array<Byte>)
    requires hasher.Shape()
    modifies hasher, hasher.state, hasher.block, hasher.extra
    ensures digest.Length == 32
    ensures digest[..] == DigestFor(Concat(chunks), CountOf(CounterAfter(chunks).0, CounterAfter(chunks).1))
    ensures Countable(chunks) ==> digest[..] == Sha256(Concat(chunks))
  {
    digest := new Byte[32](_ => 0);
    hasher.Reset();
    hide *;
    WriteAll(hasher, chunks);
    hasher.Fetch(digest);
    assert digest[..] == digest[..32];
  }

  lemma ExactIs(hasher: Hasher)
    ensures hasher.Exact() <==> Counts(hasher.count0, hasher.count1, |hasher.message|)
  {
  }

  /** The counter after one write more, exact again. */
  lemma NextExact(chunks: seq<seq<Byte>>, i: nat, count0: Word, count1: Word, length: nat)
    requires i < |chunks| && count0 == CounterAfter(chunks[..i]).0 && count1 == CounterAfter(chunks[..i]).1
    ensures var extent := |chunks[i]|;
            && CounterAfter(chunks[..i + 1]).0 == Low(count0, extent)
            && CounterAfter(chunks[..i + 1]).1 == High(count0, count1, extent)
            && (Countable(chunks) && Counts(count0, count1, length) ==>
                  Counts(Low(count0, extent), High(count0, count1, extent), length + extent))
  {
    assert chunks[..i + 1][..i] == chunks[..i];
    hide Low, High, Counts;
    if Countable(chunks) && Counts(count0, count1, length) {
      LongEnough();
      CarryExact(count0, count1, length, |chunks[i]|);
    }
  }

  lemma LongEnough()
    ensures 2 * WORD_SIZE < WORD_SIZE * WORD_SIZE
  {
  }

  lemma NoChunks()
    ensures Concat([]) == [] && CounterAfter([]) == (0, 0)
  {
  }

  lemma NextChunk(chunks: seq<seq<Byte>>, i: nat)
    requires i < |chunks|
    ensures Concat(chunks[..i + 1]) == Concat(chunks[..i]) + chunks[i]
  {
    assert chunks[..i + 1][..i] == chunks[..i];
  }
}
