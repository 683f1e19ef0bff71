/**
 The relay's wire encoding: bytes as text of two hexadecimal digits each.
 */
module Hex {
  import opened Bits

  function HexDigit(n: nat): char
    requires n < 16
  {
    if n < 10 then '0' + n as char else 'a' + (n - 10) as char
  }

  function DigitValue(c: char): (n: nat)
    requires IsHexDigit(c)
    ensures n < 16
  {
    if c <= '9' then (c - '0') as nat else if c <= 'F' then (c - 'A') as nat + 10 else (c - 'a') as nat + 10
  }

  predicate IsHexDigit(c: char) {
    '0' <= c <= '9' || 'a' <= c <= 'f' || 'A' <= c <= 'F'
  }

  /** The text of some bytes. */
  function Encode(bytes: seq<Byte>): (text: string)
    ensures |text| == 2 * |bytes|
  {
    if bytes == [] then "" else [HexDigit(bytes[0] / 16), HexDigit(bytes[0] % 16)] + Encode(bytes[1..])
  }

  lemma EncodeOne(b: Byte)
    ensures Encode([]) == [] && Encode([b]) == [HexDigit(b / 16), HexDigit(b % 16)]
  {
    hide HexDigit;
    assert [b][1..] == [];
  }

  const DIGITS := "0123456789abcdef"

  /** Two lower-case digits for each byte, the high half first. */
  lemma DigitsOf(bytes: seq<Byte>, i: nat)
    requires i < |bytes|
    ensures Encode(bytes)[2 * i] == DIGITS[bytes[i] / 16] && Encode(bytes)[2 * i + 1] == DIGITS[bytes[i] % 16]
  {
    EncodeAt(bytes, i);
    DigitIs(bytes[i] / 16);
    DigitIs(bytes[i] % 16);
    hide Encode, HexDigit;
  }

  lemma DigitIs(n: nat)
    requires n < 16
    ensures HexDigit(n) == DIGITS[n]
  {
  }

  lemma {:induction false} EncodeAt(bytes: seq<Byte>, i: nat)
    requires i < |bytes|
    ensures Encode(bytes)[2 * i] == HexDigit(bytes[i] / 16)
    ensures Encode(bytes)[2 * i + 1] == HexDigit(bytes[i] % 16)
  {
    if i > 0 {
      EncodeAt(bytes[1..], i - 1);
    }
  }

  lemma {:induction false} EncodeConcat(a: seq<Byte>, b: seq<Byte>)
    ensures Encode(a + b) == Encode(a) + Encode(b)
  {
    hide *;
    EncodeUnfold(a);
    EncodeUnfold(a + b);
    if a == [] {
      assert a + b == b;
    } else {
      EncodeConcat(a[1..], b);
      assert (a + b)[1..] == a[1..] + b;
    }
  }

  lemma EncodeUnfold(bytes: seq<Byte>)
    ensures bytes == [] ==> Encode(bytes) == []
    ensures bytes != [] ==> Encode(bytes) == [HexDigit(bytes[0] / 16), HexDigit(bytes[0] % 16)] + Encode(bytes[1..])
  {
    hide HexDigit;
  }

  /** The length up to the first NUL. */
  function Strlen(text: string): (n: nat)
    ensures n <= |text| && (n < |text| ==> text[n] == '\0')
    ensures forall i :: 0 <= i < n ==> text[i] != '\0'
  {
    if text == "" || text[0] == '\0' then 0 else 1 + Strlen(text[1..])
  }

  /** What sscanf makes of text that does not start with two hexadecimal digits: library code. */
  type ScanHex = (string, Byte) -> Byte

  /** The byte sscanf stores for "%2hhx", given the text from that point and the byte it replaces. */
  function Scanned(text: string, was: Byte, scan: ScanHex): Byte {
    if |text| >= 2 && IsHexDigit(text[0]) && IsHexDigit(text[1]) then 16 * DigitValue(text[0]) + DigitValue(text[1])
    else scan(text, was)
  }

  method ConvertBinaryToHex(buffer: seq<Byte>, length: nat, hexOutput: array<char>)
    requires length <= |buffer| && hexOutput.Length > 2 * length
    modifies hexOutput
    ensures hexOutput[..2 * length] == Encode(buffer[..length]) && hexOutput[2 * length] == '\0'
    ensures hexOutput[2 * length + 1..] == old(hexOutput[2 * length + 1..])
  {
    hide Encode, HexDigit;
    assert Encode(buffer[..0]) == [] by { EncodeOne(0); }
    var i := 0;
    while i < length
      invariant 0 <= i <= length
      invariant hexOutput[..2 * i] == Encode(buffer[..i])
      invariant hexOutput[2 * length + 1..] == old(hexOutput[2 * length + 1..])
    {
      ghost var before := hexOutput[..2 * i];
      EncodeConcat(buffer[..i], [buffer[i]]);
      EncodeOne(buffer[i]);
      assert buffer[..i + 1] == buffer[..i] + [buffer[i]];
      hexOutput[2 * i] := HexDigit(buffer[i] / 16);
      hexOutput[2 * i + 1] := HexDigit(buffer[i] % 16);
      hexOutput[2 * i + 2] := '\0';
      i := i + 1;
      assert hexOutput[..2 * i] == before + [HexDigit(buffer[i - 1] / 16), HexDigit(buffer[i - 1] % 16)];
    }
    hexOutput[length * 2] := '\0';
  }

  /** The bytes convert_hex_to_binary leaves in the buffer. */
  method ConvertHexToBinary(hexData: string, buffer: array<Byte>, scan: ScanHex) returns (dataLength: nat)
    requires buffer.Length >= Strlen(hexData) / 2
    modifies buffer
    ensures dataLength == Strlen(hexData) / 2
    ensures forall i :: 0 <= i < dataLength ==> buffer[i] == Scanned(hexData[2 * i..Strlen(hexData)], old(buffer[i]), scan)
    ensures Decodes(hexData, buffer[..dataLength], scan)
    ensures buffer[dataLength..] == old(buffer[dataLength..])
  {
    var length := Strlen(hexData);
    dataLength := length / 2;
    var i := 0;
    while i < dataLength
      invariant 0 <= i <= dataLength
      invariant forall j :: 0 <= j < i ==> buffer[j] == Scanned(hexData[2 * j..length], old(buffer[j]), scan)
      invariant buffer[i..] == old(buffer[i..])
    {
      assert buffer[i] == old(buffer[i..])[0];
      ghost var rest := buffer[i..];
      buffer[i] := Scanned(hexData[i * 2..length], buffer[i], scan);
      i := i + 1;
      assert buffer[i..] == rest[1..];
    }
    forall j | 0 <= j < dataLength ensures CanScan(hexData[2 * j..length], buffer[..dataLength][j], scan) {
      assert buffer[..dataLength][j] == Scanned(hexData[2 * j..length], old(buffer[j]), scan);
    }
  }

  lemma DigitReads(n: nat)
    requires n < 16
    ensures IsHexDigit(HexDigit(n)) && DigitValue(HexDigit(n)) == n && HexDigit(n) != '\0'
  {
  }

  lemma EncodedLength(bytes: seq<Byte>)
    ensures Strlen(Encode(bytes)) == 2 * |bytes|
  {
    var text := Encode(bytes);
    var n := Strlen(text);
    if n < |text| {
      hide *;
      var b: int := bytes[n / 2];
      EncodeAt(bytes, n / 2);
      DigitReads(b / 16);
      DigitReads(b % 16);
    }
  }

  /** Encoded bytes come back whole, and never take the library's path. */
  lemma EncodedScans(bytes: seq<Byte>, i: nat, was: Byte, scan: ScanHex)
    requires i < |bytes|
    ensures Scanned(Encode(bytes)[2 * i..], was, scan) == bytes[i]
  {
    var text := Encode(bytes);
    var b: int := bytes[i];
    ScannedPair(text[2 * i..], was, scan);
    hide *;
    EncodeAt(bytes, i);
    DigitReads(b / 16);
    DigitReads(b % 16);
    assert text[2 * i..][0] == text[2 * i] && text[2 * i..][1] == text[2 * i + 1];
  }

  lemma ScannedPair(text: string, was: Byte, scan: ScanHex)
    ensures |text| >= 2 && IsHexDigit(text[0]) && IsHexDigit(text[1]) ==>
              Scanned(text, was, scan) == 16 * DigitValue(text[0]) + DigitValue(text[1])
  {
    hide IsHexDigit, DigitValue;
  }

  /** What convert_hex_to_binary can leave in a buffer of any content. */
  ghost predicate Decodes(text: string, bytes: seq<Byte>, scan: ScanHex) {
    && |bytes| == Strlen(text) / 2
    && forall i :: 0 <= i < |bytes| ==> CanScan(text[2 * i..Strlen(text)], bytes[i], scan)
  }

  ghost predicate CanScan(text: string, b: Byte, scan: ScanHex) {
    exists was :: b == Scanned(text, was, scan)
  }

  lemma OneScan(text: string, only: Byte, scan: ScanHex)
    requires forall was: Byte :: Scanned(text, was, scan) == only
    ensures forall b: Byte :: CanScan(text, b, scan) <==> b == only
  {
    hide Scanned;
    assert Scanned(text, 0, scan) == only;
  }

  /** On encoded text that is the bytes, and nothing else. */
  lemma EncodedDecodes(original: seq<Byte>, bytes: seq<Byte>, scan: ScanHex)
    ensures Decodes(Encode(original), bytes, scan) <==> bytes == original
  {
    hide Encode, Strlen, Scanned;
    EncodedLength(original);
    var text := Encode(original);
    assert text[..Strlen(text)] == text;
    forall i | 0 <= i < |original| ensures forall b: Byte :: CanScan(text[2 * i..Strlen(text)], b, scan) <==> b == original[i] {
      assert text[2 * i..Strlen(text)] == text[2 * i..];
      forall was: Byte ensures Scanned(text[2 * i..], was, scan) == original[i] {
        EncodedScans(original, i, was, scan);
      }
      OneScan(text[2 * i..], original[i], scan);
    }
    if Decodes(text, bytes, scan) {
      assert forall i :: 0 <= i < |bytes| ==> bytes[i] == original[i];
    }
  }

  /** The bytes of encoded text. */
  function Decode(text: string): (bytes: seq<Byte>) {
    if |text| < 2 || !IsHexDigit(text[0]) || !IsHexDigit(text[1]) then []
    else [16 * DigitValue(text[0]) + DigitValue(text[1])] + Decode(text[2..])
  }

  lemma {:induction false} DecodeEncode(bytes: seq<Byte>)
    ensures Decode(Encode(bytes)) == bytes
  {
    if bytes != [] {
      var b: int := bytes[0];
      DigitReads(b / 16);
      DigitReads(b % 16);
      DecodeEncode(bytes[1..]);
      hide HexDigit, IsHexDigit, DigitValue;
      assert Encode(bytes)[2..] == Encode(bytes[1..]);
    }
  }

  /** One device encodes, the other decodes, whatever its buffer held. */
  method SendAcross(bytes: seq<Byte>, buffer: array<Byte>, scan: ScanHex) returns (n: nat)
    requires buffer.Length >= |bytes|
    modifies buffer
    ensures n == |bytes| && buffer[..n] == bytes
  {
    hide *;
    var hex := new char[|bytes| * 2 + 1];
    ConvertBinaryToHex(bytes, |bytes|, hex);
    assert bytes[..|bytes|] == bytes;
    var text := hex[..2 * |bytes|];
    EncodedLength(bytes);
    n := ConvertHexToBinary(text, buffer, scan);
    EncodedDecodes(bytes, buffer[..n], scan);
  }

  /** A handshake message is never taken for data: encoded data has even length. */
  lemma EncodedIsNoHandshake(bytes: seq<Byte>)
    ensures |Encode(bytes)| % 2 == 0 && Encode(bytes) != "1"
  {
  }
}
