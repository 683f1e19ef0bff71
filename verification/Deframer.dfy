/**
 The serial line: frames of a start byte 0x02, a length byte and that many more bytes, taken out of
 a stream that arrives in arbitrary pieces.
 */
module Deframer {
  import opened Bits
  import opened Sequences

  type Bytes = seq<Byte>

  const START: Byte := 2

  /** The most a call of read_serial_data reads. */
  const READ_SIZE := 256

  // ---------------------------------------------------------------------------
  // The frames of a whole stream
  // ---------------------------------------------------------------------------

  /** Going through the stream once: a start byte begins a frame, which ends where its length byte
      says; other bytes between frames are skipped. */
  ghost function Frames(s: Bytes): seq<Bytes>
    decreases |s|
  {
    if s == [] then []
    else if s[0] != START then Frames(s[1..])
    else if !Complete(s) then []
    else [s[..FrameLength(s)]] + Frames(s[FrameLength(s)..])
  }

  function FrameLength(s: Bytes): nat
    requires |s| >= 2
  {
    var length: int := s[1];
    length + 2
  }

  /** A start byte, its length byte, and at least as many bytes as that says. */
  predicate Complete(s: Bytes) {
    |s| >= 2 && s[0] == START && |s| >= FrameLength(s)
  }

  /** What a stream can be cut into: a frame, or bytes that belong to none. */
  datatype Piece = Frame(bytes: Bytes) | Noise(bytes: Bytes)

  predicate GoodPiece(p: Piece) {
    match p
    case Frame(b) => Complete(b) && |b| == FrameLength(b)
    case Noise(b) => START !in b
  }

  predicate Good(pieces: seq<Piece>) {
    forall i :: 0 <= i < |pieces| ==> GoodPiece(pieces[i])
  }

  ghost function Joined(pieces: seq<Piece>): Bytes {
    if pieces == [] then [] else pieces[0].bytes + Joined(pieces[1..])
  }

  ghost function Messages(pieces: seq<Piece>): seq<Bytes> {
    if pieces == [] then []
    else (if pieces[0].Frame? then [pieces[0].bytes] else []) + Messages(pieces[1..])
  }

  lemma {:induction false} NoiseSkipped(noise: Bytes, s: Bytes)
    requires START !in noise
    ensures Frames(noise + s) == Frames(s)
  {
    if noise == [] {
      assert noise + s == s;
    } else {
      assert (noise + s)[1..] == noise[1..] + s;
      NoiseSkipped(noise[1..], s);
    }
  }

  lemma FrameTaken(frame: Bytes, s: Bytes)
    requires GoodPiece(Frame(frame))
    ensures Frames(frame + s) == [frame] + Frames(s)
  {
    assert (frame + s)[..|frame|] == frame && (frame + s)[|frame|..] == s;
  }

  /** Whole frames with anything between them that holds no start byte are recovered exactly and
      in order, whatever follows. */
  lemma {:induction false} Recovered(pieces: seq<Piece>, tail: Bytes)
    requires Good(pieces)
    ensures Frames(Joined(pieces) + tail) == Messages(pieces) + Frames(tail)
  {
    hide Frames;
    if pieces == [] {
      assert Joined(pieces) + tail == tail;
    } else {
      var p, rest := pieces[0], pieces[1..];
      Recovered(rest, tail);
      GoodFirst(pieces);
      FirstPiece(pieces);
      hide *;
      Assoc(p.bytes, Joined(rest), tail);
      match p {
        case Frame(b) =>
          FrameTaken(b, Joined(rest) + tail);
          Assoc([b], Messages(rest), Frames(tail));
        case Noise(b) => NoiseSkipped(b, Joined(rest) + tail);
      }
    }
  }

  lemma FirstPiece(pieces: seq<Piece>)
    requires pieces != []
    ensures Joined(pieces) == pieces[0].bytes + Joined(pieces[1..])
    ensures pieces[0].Frame? ==> Messages(pieces) == [pieces[0].bytes] + Messages(pieces[1..])
    ensures pieces[0].Noise? ==> Messages(pieces) == Messages(pieces[1..])
  {
  }

  lemma GoodFirst(pieces: seq<Piece>)
    requires Good(pieces) && pieces != []
    ensures Good(pieces[1..]) && GoodPiece(pieces[0])
    ensures pieces[0].Frame? ==> GoodPiece(Frame(pieces[0].bytes))
    ensures pieces[0].Noise? ==> START !in pieces[0].bytes
  {
  }

  lemma {:induction false} JoinedConcat(a: seq<Piece>, b: seq<Piece>)
    ensures Joined(a + b) == Joined(a) + Joined(b) && Messages(a + b) == Messages(a) + Messages(b)
  {
    if a == [] {
      assert a + b == b;
    } else {
      assert (a + b)[1..] == a[1..] + b && (a + b)[0] == a[0];
      JoinedConcat(a[1..], b);
      FirstPiece(a);
      FirstPiece(a + b);
      hide *;
      Assoc(a[0].bytes, Joined(a[1..]), Joined(b));
      Assoc([a[0].bytes], Messages(a[1..]), Messages(b));
    }
  }

  // ---------------------------------------------------------------------------
  // read_serial_data
  // ---------------------------------------------------------------------------

  /** std::find of the start byte: its first position, or the length. */
  function Find(s: Bytes): (i: nat)
    ensures i <= |s| && START !in s[..i]
    ensures i < |s| ==> s[i] == START
  {
    if s == [] || s[0] == START then 0 else
      assert s[..Find(s[1..]) + 1] == [s[0]] + s[1..][..Find(s[1..])];
      1 + Find(s[1..])
  }

  /** What stays in the buffer between calls: at most one byte, or an unfinished frame after bytes
      that came with its start byte in one read. */
  ghost predicate Settled(s: Bytes) {
    |s| < 2 || (Find(s) < |s| && Find(s) <= READ_SIZE && !Complete(s[Find(s)..]))
  }

  lemma SettledIsShort(s: Bytes)
    requires Settled(s)
    ensures |s| <= 512 && Frames(s) == []
  {
    var i := Find(s);
    NoiseSkipped(s[..i], s[i..]);
    assert s == s[..i] + s[i..];
  }

  class SerialReader {
    /** The static buffer of read_serial_data. */
    var incomingBuffer: Bytes
    /** Everything read so far, and the pieces taken out of it. */
    ghost var stream: Bytes
    ghost var pieces: seq<Piece>

    ghost predicate Valid()
      reads this
    {
      Good(pieces) && stream == Joined(pieces) + incomingBuffer && Settled(incomingBuffer)
    }

    constructor ()
      ensures Valid() && stream == [] && pieces == []
    {
      incomingBuffer, stream, pieces := [], [], [];
    }

    lemma Unpack()
      requires Valid()
      ensures Good(pieces) && stream == Joined(pieces) + incomingBuffer && Settled(incomingBuffer)
    {
    }

    /** One call, which reads `bytesRead` bytes, none, or fails (a negative number). */
    method ReadSerialData(buffer: Bytes, bytesRead: int, messages: seq<Bytes>) returns (more: seq<Bytes>, ghost taken: seq<Piece>)
      requires Valid() && bytesRead <= |buffer| == READ_SIZE
      modifies this
      ensures Valid() && stream == if bytesRead > 0 then old(stream) + buffer[..bytesRead] else old(stream)
      ensures pieces == old(pieces) + taken && more == messages + Messages(taken)
    {
      hide Joined, Messages, Good, GoodPiece, Find, Settled, Complete, Fresh;
      NoPieces();
      more, taken := messages, [];
      if bytesRead > 0 {
        ghost var before, was := incomingBuffer, pieces;
        incomingBuffer := incomingBuffer + buffer[..bytesRead];
        stream := stream + buffer[..bytesRead];
        FreshStart(before, buffer[..bytesRead]);
        while |incomingBuffer| >= 2
          invariant Good(pieces) && stream == Joined(pieces) + incomingBuffer
          invariant stream == old(stream) + buffer[..bytesRead] && pieces == was + taken && more == messages + Messages(taken)
          invariant Fresh(before, incomingBuffer, bytesRead)
        {
          var start := Find(incomingBuffer);
          if start == |incomingBuffer| {
            Discarded(pieces, taken, incomingBuffer);
            taken := taken + [Noise(incomingBuffer)];
            pieces := pieces + [Noise(incomingBuffer)];
            incomingBuffer := [];
            break;
          }
          if |incomingBuffer| - start < 2 {
            Waiting(before, incomingBuffer, bytesRead);
            return;
          }
          var messageLength := incomingBuffer[start + 1] as int + 2;
          if |incomingBuffer| - start < messageLength {
            Waiting(before, incomingBuffer, bytesRead);
            return;
          }
          var message := incomingBuffer[start..start + messageLength];
          more := more + [message];
          GoodMessage(incomingBuffer, messageLength);
          Cut(incomingBuffer, start, messageLength);
          Extracted(pieces, taken, incomingBuffer[..start], message, incomingBuffer[start + messageLength..]);
          Ends(before, incomingBuffer, bytesRead, messageLength);
          taken := taken + [Noise(incomingBuffer[..start]), Frame(message)];
          pieces := pieces + [Noise(incomingBuffer[..start]), Frame(message)];
          incomingBuffer := incomingBuffer[start + messageLength..];
        }
        Short(incomingBuffer);
      }
    }
  }

  lemma NoPieces()
    ensures Messages([]) == []
  {
  }

  lemma Short(s: Bytes)
    ensures |s| < 2 ==> Settled(s)
  {
  }

  /** The buffer is what was there before the call and all that was read, or a frame has been taken
      out, which ended in what was read. */
  ghost predicate Fresh(before: Bytes, now: Bytes, bytesRead: int) {
    && Settled(before) && 0 < bytesRead <= READ_SIZE
    && (|now| < bytesRead || (|now| == |before| + bytesRead && now[..|before|] == before))
  }

  lemma FreshStart(before: Bytes, chunk: Bytes)
    requires Settled(before) && 0 < |chunk| <= READ_SIZE
    ensures Fresh(before, before + chunk, |chunk|)
  {
    hide Settled;
  }

  lemma {:induction false} FindIs(s: Bytes, i: nat)
    requires i < |s| && s[i] == START && START !in s[..i]
    ensures Find(s) == i
  {
    if i > 0 {
      assert s[0] == s[..i][0];
      assert s[1..][..i - 1] == s[..i][1..];
      FindIs(s[1..], i - 1);
    }
  }

  /** The start byte found before the call is the one found now. */
  lemma SameStart(before: Bytes, now: Bytes)
    requires |before| <= |now| && now[..|before|] == before && Find(before) < |before|
    ensures Find(now) == Find(before)
  {
    hide Find;
    var i := Find(before);
    assert now[..i] == before[..i] && now[i] == before[i];
    FindIs(now, i);
  }

  lemma Waiting(before: Bytes, now: Bytes, bytesRead: int)
    requires Fresh(before, now, bytesRead) && Find(now) < |now|
    requires |now| - Find(now) < 2 || |now| - Find(now) < now[Find(now) + 1] as int + 2
    ensures Settled(now)
  {
    hide Find;
    if |now| >= bytesRead && |before| >= 2 {
      SameStart(before, now);
    }
  }

  lemma Ends(before: Bytes, now: Bytes, bytesRead: int, length: nat)
    requires Fresh(before, now, bytesRead) && Find(now) + 2 <= |now|
    requires length == now[Find(now) + 1] as int + 2 <= |now| - Find(now)
    ensures Fresh(before, now[Find(now) + length..], bytesRead)
  {
    hide Find;
    var i := Find(now);
    if |now| >= bytesRead && |before| >= 2 {
      SameStart(before, now);
      if i + 1 < |before| {
        assert now[i + 1] == before[i..][1];
      }
    }
  }

  lemma Discarded(pieces: seq<Piece>, taken: seq<Piece>, now: Bytes)
    requires Good(pieces) && Find(now) == |now|
    ensures var noise := [Noise(now)];
            && Good(pieces + noise) && Messages(taken + noise) == Messages(taken)
            && Joined(pieces) + now == Joined(pieces + noise) + []
  {
    hide Find;
    assert now[..|now|] == now;
    JoinedConcat(pieces, [Noise(now)]);
    JoinedConcat(taken, [Noise(now)]);
    assert Joined([Noise(now)]) == now && Messages([Noise(now)]) == [];
  }

  lemma Extracted(pieces: seq<Piece>, taken: seq<Piece>, noise: Bytes, message: Bytes, tail: Bytes)
    requires Good(pieces) && START !in noise && GoodPiece(Frame(message))
    ensures var out := [Noise(noise), Frame(message)];
            && Good(pieces + out) && Messages(taken + out) == Messages(taken) + [message]
            && Joined(pieces) + ((noise + message) + tail) == Joined(pieces + out) + tail
  {
    hide Good, Joined, Messages, GoodPiece;
    var out := [Noise(noise), Frame(message)];
    GoodOut(noise, message);
    JoinedConcat(pieces, out);
    JoinedConcat(taken, out);
    GoodConcat(pieces, out);
    Assoc(Joined(pieces), noise + message, tail);
  }

  lemma Cut(s: Bytes, i: nat, n: nat)
    requires i + n <= |s|
    ensures s == (s[..i] + s[i..i + n]) + s[i + n..]
  {
  }

  lemma GoodMessage(now: Bytes, length: nat)
    requires Find(now) + 2 <= |now|
    requires length == now[Find(now) + 1] as int + 2 <= |now| - Find(now)
    ensures START !in now[..Find(now)] && GoodPiece(Frame(now[Find(now)..Find(now) + length]))
  {
    hide Find, GoodPiece;
    GoodFrame(now, Find(now), length);
  }

  lemma GoodFrame(now: Bytes, i: nat, length: nat)
    requires i + 2 <= |now| && now[i] == START && length == now[i + 1] as int + 2 <= |now| - i
    ensures GoodPiece(Frame(now[i..i + length]))
  {
    var m := now[i..i + length];
    assert |m| == length && m[0] == now[i] && m[1] == now[i + 1];
  }

  lemma GoodOut(noise: Bytes, message: Bytes)
    requires START !in noise && GoodPiece(Frame(message))
    ensures var out := [Noise(noise), Frame(message)];
            Good(out) && Joined(out) == noise + message && Messages(out) == [message]
  {
    var out := [Noise(noise), Frame(message)];
    assert out[1..] == [Frame(message)] && out[1..][1..] == [];
    assert Joined(out[1..]) == message + [] == message;
    assert Messages(out[1..]) == [message] + [] == [message];
    assert Messages(out) == [] + [message];
    hide GoodPiece;
  }

  lemma GoodConcat(a: seq<Piece>, b: seq<Piece>)
    requires Good(a) && Good(b)
    ensures Good(a + b)
  {
    hide GoodPiece;
  }

  // ---------------------------------------------------------------------------
  // Many calls
  // ---------------------------------------------------------------------------

  ghost function Concat(chunks: seq<Bytes>): Bytes {
    if chunks == [] then [] else Concat(chunks[..|chunks| - 1]) + chunks[|chunks| - 1]
  }

  lemma ConcatNext(chunks: seq<Bytes>, i: nat)
    requires i < |chunks|
    ensures Concat(chunks[..i + 1]) == Concat(chunks[..i]) + chunks[i]
  {
    assert chunks[..i + 1][..i] == chunks[..i];
  }

  /** In any state that cuts the stream so far, in order, into good pieces and a settled buffer, the
      messages are the frames of the stream and the buffer is short. */
  lemma StateMeans(pieces: seq<Piece>, stream: Bytes, buffer: Bytes)
    requires Good(pieces) && stream == Joined(pieces) + buffer && Settled(buffer)
    ensures Messages(pieces) == Frames(stream) && |buffer| <= 512
  {
    Recovered(pieces, buffer);
    SettledIsShort(buffer);
  }

  lemma PiecesAre(pieces: seq<Piece>)
    requires Good(pieces)
    ensures forall i :: 0 <= i < |pieces| ==>
              match pieces[i]
              case Frame(b) => |b| >= 2 && b[0] == START && |b| == b[1] as int + 2
              case Noise(b) => START !in b
  {
  }

  /** However a stream is split into reads, the messages are the frames of the whole stream.  Every
      byte read is in a message, discarded, or still in the buffer, in this order; every message has
      a start byte and the length it says; no start byte is discarded. */
  method ReadAll(chunks: seq<Bytes>) returns (messages: seq<Bytes>, reader: SerialReader)
    requires forall i :: 0 <= i < |chunks| ==> |chunks[i]| <= READ_SIZE
    ensures messages == Frames(Concat(chunks)) && fresh(reader) && |reader.incomingBuffer| <= 512
    ensures reader.Valid() && Concat(chunks) == reader.stream == Joined(reader.pieces) + reader.incomingBuffer
    ensures messages == Messages(reader.pieces)
    ensures forall i :: 0 <= i < |reader.pieces| ==>
              match reader.pieces[i]
              case Frame(b) => |b| >= 2 && b[0] == START && |b| == b[1] as int + 2
              case Noise(b) => START !in b
  {
    reader := new SerialReader();
    messages := [];
    hide *;
    assert chunks[..0] == [];
    var i := 0;
    NothingRead();
    while i < |chunks|
      invariant 0 <= i <= |chunks| && fresh(reader) && reader.Valid()
      invariant reader.stream == Concat(chunks[..i]) && messages == Messages(reader.pieces)
    {
      var filler := seq(READ_SIZE - |chunks[i]|, _ => 0);
      var buffer := chunks[i] + filler;
      ConcatNext(chunks, i);
      ghost var before := reader.pieces;
      ghost var taken;
      assert buffer[..|chunks[i]|] == chunks[i];
      messages, taken := reader.ReadSerialData(buffer, |chunks[i]|, messages);
      JoinedConcat(before, taken);
      i := i + 1;
    }
    assert chunks[..i] == chunks;
    reader.Unpack();
    StateMeans(reader.pieces, reader.stream, reader.incomingBuffer);
    PiecesAre(reader.pieces);
  }

  lemma NothingRead()
    ensures Concat([]) == [] && Messages([]) == []
  {
  }

  // ---------------------------------------------------------------------------
  // The block check character
  // ---------------------------------------------------------------------------

  ghost function Bcc(data: Bytes): (c: nat)
  {
    if data == [] then 0 else Xor(Bcc(data[..|data| - 1]), data[|data| - 1])
  }

  method CalculateBcc(data: Bytes) returns (bcc: nat)
    ensures bcc == Bcc(data)
  {
    bcc := 0;
    var i := 0;
    while i < |data|
      invariant 0 <= i <= |data| && bcc == Bcc(data[..i])
    {
      assert data[..i + 1][..i] == data[..i];
      bcc := Xor(bcc, data[i]);
      i := i + 1;
    }
    assert data[..i] == data;
  }

  lemma {:induction false} XorSelf(a: nat)
    ensures Xor(a, a) == 0
  {
    if a > 0 {
      XorSelf(a / 2);
    }
  }

  lemma {:induction false} XorCancels(a: nat, b: nat, c: nat)
    requires Xor(a, c) == Xor(b, c) || Xor(c, a) == Xor(c, b)
    ensures a == b
    decreases a + b
  {
    hide Xor;
    if a > 0 || b > 0 {
      XorUnfold(a, c);
      XorUnfold(b, c);
      XorUnfold(c, a);
      XorUnfold(c, b);
      XorCancels(a / 2, b / 2, c / 2);
    }
  }

  /** Data followed by its check character has check character zero. */
  lemma BccClears(data: Bytes)
    ensures Bcc(data) < 0x100 && Bcc(data + [Bcc(data)]) == 0
  {
    BccIsByte(data);
    var all := data + [Bcc(data)];
    assert all[..|data|] == data;
    XorSelf(Bcc(data));
  }

  lemma {:induction false} BccIsByte(data: Bytes)
    ensures Bcc(data) < 0x100
  {
    if data != [] {
      BccIsByte(data[..|data| - 1]);
      Pow2Values();
      Bounds(8, Bcc(data[..|data| - 1]), data[|data| - 1]);
    }
  }

  /** Changing any one byte changes the check character. */
  lemma {:induction false} BccDetects(data: Bytes, i: nat, b: Byte)
    requires i < |data| && b != data[i]
    ensures Bcc(data[i := b]) != Bcc(data)
  {
    var n := |data| - 1;
    var other := data[i := b];
    if Bcc(other) == Bcc(data) {
      if i == n {
        assert other[..n] == data[..n];
        XorCancels(data[n], b, Bcc(data[..n]));
      } else {
        assert other[..n] == data[..n][i := b];
        BccDetects(data[..n], i, b);
        XorCancels(Bcc(other[..n]), Bcc(data[..n]), data[n]);
      }
    }
  }

  /** How many of the bytes have bit k. */
  ghost function WithBit(data: Bytes, k: nat): nat {
    if data == [] then 0 else WithBit(data[..|data| - 1], k) + if Bit(data[|data| - 1], k) then 1 else 0
  }

  /** Each bit of the check character is the parity of that bit over the data: it is set if an odd
      number of bytes have it. */
  lemma {:induction false} BccParity(data: Bytes, k: nat)
    ensures Bit(Bcc(data), k) <==> WithBit(data, k) % 2 == 1
  {
    hide Bit, Xor;
    if data == [] {
      NoBits(k);
    } else {
      var front, last := data[..|data| - 1], data[|data| - 1];
      BccParity(front, k);
      OperatorBits(Bcc(front), last, k);
    }
  }
}
