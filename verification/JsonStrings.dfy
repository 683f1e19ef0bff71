/**
 JSON strings: `valueToQuotedStringN` on the writing side; `decodeString`,
 `decodeUnicodeCodePoint` and `codePointToUTF8` on the reading side.
 */
module JsonStrings {
  import opened Bits
  import opened Sequences
  import opened JsonValues

  // ---------------------------------------------------------------------------
  // UTF-8
  // ---------------------------------------------------------------------------

  /** static_cast<char> */
  function Byte(x: nat): char {
    (x % 256) as char
  }

  function CodePointToUtf8(cp: nat): string {
    if cp <= 0x7F then
      [Byte(cp)]
    else if cp <= 0x7FF then
      [Byte(Or(0xC0, And(0x1F, cp / 0x40))), Byte(Or(0x80, And(0x3F, cp)))]
    else if cp <= 0xFFFF then
      [Byte(Or(0xE0, And(0xF, cp / 0x1000))), Byte(Or(0x80, And(0x3F, cp / 0x40))), Byte(Or(0x80, And(0x3F, cp)))]
    else if cp <= 0x10FFFF then
      [Byte(Or(0xF0, And(0x7, cp / 0x4_0000))), Byte(Or(0x80, And(0x3F, cp / 0x1000))),
       Byte(Or(0x80, And(0x3F, cp / 0x40))), Byte(Or(0x80, And(0x3F, cp)))]
    else []
  }

  /** Section 3 of RFC 3629: the low bits of the number go six at a time into tail bytes
      10xxxxxx, the rest into the lead byte after the mark that tells the length. */
  ghost function Utf8(cp: nat): string
    requires cp <= 0x10FFFF
  {
    if cp <= 0x7F then [cp as char]
    else if cp <= 0x7FF then [(0xC0 + cp / 0x40) as char, Tail(cp)]
    else if cp <= 0xFFFF then [(0xE0 + cp / 0x1000) as char, Tail(cp / 0x40), Tail(cp)]
    else [(0xF0 + cp / 0x4_0000) as char, Tail(cp / 0x1000), Tail(cp / 0x40), Tail(cp)]
  }

  ghost function Tail(x: nat): char {
    (0x80 + x % 0x40) as char
  }

  lemma ContinuationByte(x: nat)
    ensures Byte(Or(0x80, And(0x3F, x))) == Tail(x)
  {
    Pow2Values();
    hide And, Or, Pow2;
    AndMask(6, x);
    OrDisjoint(6, 2, x % 0x40);
  }

  lemma LeadByte(k: nat, mark: nat, x: nat)
    requires x < Pow2(k)
    ensures Or(Pow2(k) * mark, And(Pow2(k) - 1, x)) == Pow2(k) * mark + x
  {
    hide And, Or, Pow2;
    AndMask(k, x);
    DivModUnique(x, Pow2(k), 0, x);
    OrDisjoint(k, mark, x);
  }

  lemma LeadBytes(cp: nat)
    requires cp <= 0x10FFFF
    ensures 0x7F < cp <= 0x7FF ==> Or(0xC0, And(0x1F, cp / 0x40)) == 0xC0 + cp / 0x40
    ensures 0x7FF < cp <= 0xFFFF ==> Or(0xE0, And(0xF, cp / 0x1000)) == 0xE0 + cp / 0x1000
    ensures 0xFFFF < cp ==> Or(0xF0, And(0x7, cp / 0x4_0000)) == 0xF0 + cp / 0x4_0000
  {
    Pow2Values();
    hide And, Or, Pow2;
    if 0x7F < cp <= 0x7FF {
      LeadByte(5, 6, cp / 0x40);
    } else if 0x7FF < cp <= 0xFFFF {
      LeadByte(4, 14, cp / 0x1000);
    } else if 0xFFFF < cp {
      LeadByte(3, 30, cp / 0x4_0000);
    }
  }

  lemma Utf8Correct(cp: nat)
    requires cp <= 0x10FFFF
    ensures CodePointToUtf8(cp) == Utf8(cp)
  {
    hide And, Or, Tail;
    LeadBytes(cp);
    ContinuationByte(cp);
    ContinuationByte(cp / 0x40);
    ContinuationByte(cp / 0x1000);
    if 0x7F < cp <= 0x7FF {
      assert Byte(0xC0 + cp / 0x40) == (0xC0 + cp / 0x40) as char;
    } else if 0x7FF < cp <= 0xFFFF {
      assert Byte(0xE0 + cp / 0x1000) == (0xE0 + cp / 0x1000) as char;
    } else if 0xFFFF < cp {
      assert Byte(0xF0 + cp / 0x4_0000) == (0xF0 + cp / 0x4_0000) as char;
    }
  }

  /** The examples of section 7 of RFC 3629. */
  lemma Utf8Examples()
    ensures Utf8(0x41) == [0x41 as char] && Utf8(0x2262) == [0xE2 as char, 0x89 as char, 0xA2 as char]
    ensures Utf8(0x391) == [0xCE as char, 0x91 as char]
    ensures Utf8(0x233B4) == [0xF0 as char, 0xA3 as char, 0x8E as char, 0xB4 as char]
  {
  }

  // ---------------------------------------------------------------------------
  // Reading: the decoder
  // ---------------------------------------------------------------------------

  /** The messages decodeString and the functions below it report. */
  datatype Message =
    | EmptyEscape
    | BadEscape
    | FourDigitsExpected
    | HexDigitExpected
    | SixCharactersExpected
    | SecondHalfExpected

  /** A decoded string, or the message and place of the error. */
  datatype Decoded = Text(text: string) | Bad(message: Message, extra: nat)
  {
    function Prepend(s: string): Decoded {
      if Text? then Text(s + text) else this
    }
  }

  /** A decoded \u escape and the place after it, or an error. */
  datatype Unicode = Code(unicode: nat, next: nat) | BadCode(message: Message, extra: nat)

  function HexDigit(c: char): (d: Option<nat>)
    ensures d.Some? ==> d.value < 16
  {
    if '0' <= c <= '9' then Some(c as nat - '0' as nat)
    else if 'a' <= c <= 'f' then Some(c as nat - 'a' as nat + 10)
    else if 'A' <= c <= 'F' then Some(c as nat - 'A' as nat + 10)
    else None
  }

  /** `count` hexadecimal digits from `current` on, after the digits that gave `unicode`. */
  function HexRun(document: string, current: nat, count: nat, unicode: nat): (r: Unicode)
    requires current + count <= |document|
    ensures r.Code? ==> r.next == current + count
    decreases count
  {
    if count == 0 then Code(unicode, current)
    else
      match HexDigit(document[current])
      case Some(d) => HexRun(document, current + 1, count - 1, unicode * 16 + d)
      case None => BadCode(HexDigitExpected, current + 1)
  }

  function EscapeSequence(document: string, current: nat, end: nat): (r: Unicode)
    requires current <= end <= |document|
    ensures r.Code? ==> r.next == current + 4 <= end
  {
    if end - current < 4 then BadCode(FourDigitsExpected, current) else HexRun(document, current, 4, 0)
  }

  /** An escape, or two when the first is a leading surrogate. */
  function CodePoint(document: string, current: nat, end: nat): (r: Unicode)
    requires current <= end <= |document|
    ensures r.Code? ==> current < r.next <= end
  {
    var first := EscapeSequence(document, current, end);
    if first.BadCode? || !(0xD800 <= first.unicode <= 0xDBFF) then first
    else
      var next := first.next;
      if end - next < 6 then BadCode(SixCharactersExpected, next)
      else if document[next] != '\\' then BadCode(SecondHalfExpected, next + 1)
      else if document[next + 1] != 'u' then BadCode(SecondHalfExpected, next + 2)
      else
        match EscapeSequence(document, next + 2, end)
        case BadCode(m, e) => BadCode(m, e)
        case Code(second, after) =>
          Code(0x10000 + And(first.unicode, 0x3FF) * 0x400 + And(second, 0x3FF), after)
  }

  /** The character a one-letter escape stands for. */
  function ShortEscape(letter: char): Option<char> {
    match letter
    case '"' => Some('"')
    case '/' => Some('/')
    case '\\' => Some('\\')
    case 'b' => Some(8 as char)
    case 'f' => Some(12 as char)
    case 'n' => Some('\n')
    case 'r' => Some('\r')
    case 't' => Some('\t')
    case _ => None
  }

  /** What decodeString makes of document[current..end], the text between the quotes. */
  function Decode(document: string, current: nat, end: nat): Decoded
    requires current <= end <= |document|
    decreases end - current
  {
    if current == end then Text("")
    else
      var c := document[current];
      if c == '"' then Text("")
      else if c != '\\' then Decode(document, current + 1, end).Prepend([c])
      else if current + 1 == end then Bad(EmptyEscape, end)
      else
        var letter := document[current + 1];
        if letter == 'u' then
          match CodePoint(document, current + 2, end)
          case BadCode(m, e) => Bad(m, e)
          case Code(unicode, next) => Decode(document, next, end).Prepend(CodePointToUtf8(unicode))
        else
          match ShortEscape(letter)
          case Some(x) => Decode(document, current + 2, end).Prepend([x])
          case None => Bad(BadEscape, current + 2)
  }

  method DecodeUnicodeEscapeSequence(document: string, start: nat, end: nat) returns (r: Unicode)
    requires start <= end <= |document|
    ensures r == EscapeSequence(document, start, end)
  {
    if end - start < 4 {
      return BadCode(FourDigitsExpected, start);
    }
    hide HexRun;
    var unicode: nat, current := 0, start;
    for index := 0 to 4
      invariant current == start + index
      invariant HexRun(document, current, 4 - index, unicode) == HexRun(document, start, 4, 0)
    {
      HexRunStep(document, current, 4 - index, unicode);
      var digit := HexDigit(document[current]);
      current := current + 1;
      if digit.None? {
        return BadCode(HexDigitExpected, current);
      }
      unicode := unicode * 16 + digit.value;
    }
    HexRunStep(document, current, 0, unicode);
    r := Code(unicode, current);
  }

  lemma HexRunStep(document: string, current: nat, count: nat, unicode: nat)
    requires current + count <= |document|
    ensures HexRun(document, current, count, unicode) ==
            if count == 0 then Code(unicode, current)
            else if HexDigit(document[current]).None? then BadCode(HexDigitExpected, current + 1)
            else HexRun(document, current + 1, count - 1, unicode * 16 + HexDigit(document[current]).value)
  {
  }

  method DecodeUnicodeCodePoint(document: string, start: nat, end: nat) returns (r: Unicode)
    requires start <= end <= |document|
    ensures r == CodePoint(document, start, end)
  {
    hide And, HexRun;
    r := DecodeUnicodeEscapeSequence(document, start, end);
    if r.Code? && 0xD800 <= r.unicode <= 0xDBFF {
      var unicode, current := r.unicode, r.next;
      if end - current < 6 {
        return BadCode(SixCharactersExpected, current);
      }
      current := current + 1;
      if document[current - 1] == '\\' {
        current := current + 1;
        if document[current - 1] == 'u' {
          r := DecodeUnicodeEscapeSequence(document, current, end);
          if r.Code? {
            r := Code(0x10000 + And(unicode, 0x3FF) * 0x400 + And(r.unicode, 0x3FF), r.next);
          }
          return;
        }
      }
      return BadCode(SecondHalfExpected, current);
    }
  }

  method DecodeString(document: string, start: nat, end: nat) returns (r: Decoded)
    requires start <= end <= |document|
    ensures r == Decode(document, start, end)
  {
    hide CodePoint, CodePointToUtf8, ShortEscape, Decoded.Prepend;
    NoPrefix(Decode(document, start, end));
    LetterU();
    var decoded, current := "", start;
    while current != end
      invariant start <= current <= end
      invariant Decode(document, current, end).Prepend(decoded) == Decode(document, start, end)
      decreases end - current
    {
      var c := document[current];
      current := current + 1;
      if c == '"' {
        break;
      } else if c == '\\' {
        if current == end {
          return Bad(EmptyEscape, current);
        }
        var escape := document[current];
        current := current + 1;
        if escape == 'u' {
          var code := DecodeUnicodeCodePoint(document, current, end);
          match code
          case BadCode(m, e) => return Bad(m, e);
          case Code(unicode, next) =>
            PrependTwice(Decode(document, next, end), decoded, CodePointToUtf8(unicode));
            decoded := decoded + CodePointToUtf8(unicode);
            current := next;
        } else {
          match ShortEscape(escape)
          case None => return Bad(BadEscape, current);
          case Some(x) =>
            PrependTwice(Decode(document, current, end), decoded, [x]);
            decoded := decoded + [x];
        }
      } else {
        PrependTwice(Decode(document, current, end), decoded, [c]);
        decoded := decoded + [c];
      }
    }
    r := Text(decoded);
  }

  lemma NoPrefix(d: Decoded)
    ensures d.Prepend("") == d
    ensures forall s: string :: Text("").Prepend(s) == Text(s)
    ensures forall s: string, m, e :: Bad(m, e).Prepend(s) == Bad(m, e)
  {
    assert forall s: string :: s + "" == s;
  }

  lemma PrependTwice(d: Decoded, s: string, t: string)
    ensures d.Prepend(t).Prepend(s) == d.Prepend(s + t)
  {
    if d.Text? {
      assert s + (t + d.text) == s + t + d.text;
    }
  }

  // ---------------------------------------------------------------------------
  // Reading: what is decoded
  // ---------------------------------------------------------------------------

  /** What a JSON string is made of (section 7 of RFC 8259): characters as they are, one-letter
      escapes, and \u escapes with any four hexadecimal digits. */
  datatype Piece = Raw(c: char) | Short(letter: char) | Unit(digits: string)

  /** The sixteen digits, and the letters of the one-letter escapes with what they stand for. */
  const LOWER_DIGITS := "0123456789abcdef"
  const UPPER_DIGITS := "0123456789ABCDEF"
  const ESCAPE_LETTERS: string := ['"', '\\', '/', 'b', 'f', 'n', 'r', 't']
  const ESCAPED_CHARS: string := [0x22 as char, 0x5C as char, 0x2F as char, 8 as char, 12 as char, 10 as char, 13 as char, 9 as char]

  /** c is digit d, in either case. */
  ghost predicate SpellsDigit(c: char, d: nat) {
    d < 16 && |LOWER_DIGITS| == |UPPER_DIGITS| == 16 && (c == LOWER_DIGITS[d] || c == UPPER_DIGITS[d])
  }

  /** The value of a digit, 16 for any other character. */
  ghost function DigitValue(c: char): nat {
    if exists d: nat :: SpellsDigit(c, d) then
      var d: nat :| SpellsDigit(c, d);
      d
    else 16
  }

  ghost predicate IsHex(s: string) {
    |s| == 4 && forall i :: 0 <= i < 4 ==> DigitValue(s[i]) < 16
  }

  ghost function HexNumber(s: string): (n: nat)
    requires IsHex(s)
    ensures n < 0x1_0000
  {
    DigitValue(s[0]) * 0x1000 + DigitValue(s[1]) * 0x100 + DigitValue(s[2]) * 0x10 + DigitValue(s[3])
  }

  lemma DigitAt(d: nat)
    requires d < 16
    ensures |LOWER_DIGITS| == 16 == |UPPER_DIGITS|
    ensures LOWER_DIGITS[d] == (if d < 10 then '0' + d as char else 'a' + (d - 10) as char)
    ensures UPPER_DIGITS[d] == (if d < 10 then '0' + d as char else 'A' + (d - 10) as char)
  {
  }

  /** The program's digits are these, and no other character is one. */
  lemma HexDigitSpells(c: char, d: nat)
    ensures SpellsDigit(c, d) <==> HexDigit(c) == Some(d)
  {
    if d < 16 {
      DigitAt(d);
    }
    hide LOWER_DIGITS, UPPER_DIGITS;
  }

  lemma HexDigitIs(c: char)
    ensures HexDigit(c) == if DigitValue(c) < 16 then Some(DigitValue(c)) else None
    ensures forall d: nat :: SpellsDigit(c, d) ==> DigitValue(c) == d
  {
    forall d: nat ensures SpellsDigit(c, d) <==> HexDigit(c) == Some(d) {
      HexDigitSpells(c, d);
    }
    hide HexDigit, SpellsDigit;
    if HexDigit(c).Some? {
      assert SpellsDigit(c, HexDigit(c).value);
    }
  }

  /** Any four digits, each in either case, spell the number they should. */
  lemma HexSpells(s: string, d0: nat, d1: nat, d2: nat, d3: nat)
    requires |s| == 4 && SpellsDigit(s[0], d0) && SpellsDigit(s[1], d1) && SpellsDigit(s[2], d2) && SpellsDigit(s[3], d3)
    ensures IsHex(s) && HexNumber(s) == ((d0 * 16 + d1) * 16 + d2) * 16 + d3
  {
    assert d0 < 16 && d1 < 16 && d2 < 16 && d3 < 16;
    hide DigitValue, SpellsDigit;
    HexDigitIs(s[0]);
    HexDigitIs(s[1]);
    HexDigitIs(s[2]);
    HexDigitIs(s[3]);
  }

  ghost predicate SpellsEscape(letter: char, k: nat) {
    k < 8 && |ESCAPE_LETTERS| == |ESCAPED_CHARS| == 8 && letter == ESCAPE_LETTERS[k]
  }

  ghost predicate IsEscape(letter: char) {
    exists k: nat :: SpellsEscape(letter, k)
  }

  /** What a one-letter escape stands for. */
  ghost function EscapedChar(letter: char): char
    requires IsEscape(letter)
  {
    var k: nat :| SpellsEscape(letter, k);
    ESCAPED_CHARS[k]
  }

  lemma EscapeAt(letter: char, k: nat)
    requires SpellsEscape(letter, k)
    ensures |ESCAPED_CHARS| == 8 && ShortEscape(letter) == Some(ESCAPED_CHARS[k])
  {
  }

  lemma EscapeKnown(letter: char)
    requires ShortEscape(letter).Some?
    ensures IsEscape(letter)
  {
    var k := if letter == '"' then 0 else if letter == '\\' then 1 else if letter == '/' then 2 else if letter == 'b' then 3
      else if letter == 'f' then 4 else if letter == 'n' then 5 else if letter == 'r' then 6 else 7;
    assert SpellsEscape(letter, k);
  }

  /** The program knows these escapes and no others. */
  lemma ShortEscapeIs(letter: char)
    ensures ShortEscape(letter).Some? <==> IsEscape(letter)
    ensures IsEscape(letter) ==> ShortEscape(letter) == Some(EscapedChar(letter))
  {
    if ShortEscape(letter).Some? {
      EscapeKnown(letter);
    }
    hide ShortEscape, SpellsEscape, ESCAPE_LETTERS, ESCAPED_CHARS;
    if IsEscape(letter) {
      var k: nat :| SpellsEscape(letter, k) && EscapedChar(letter) == ESCAPED_CHARS[k];
      EscapeAt(letter, k);
    }
  }

  ghost predicate WellSpelled(p: Piece) {
    match p
    case Raw(c) => c != '"' && c != '\\'
    case Short(letter) => IsEscape(letter)
    case Unit(h) => IsHex(h)
  }

  ghost predicate AllWellSpelled(ps: seq<Piece>) {
    forall i :: 0 <= i < |ps| ==> WellSpelled(ps[i])
  }

  /** An escape for a leading surrogate. */
  ghost predicate Leading(p: Piece) {
    p.Unit? && IsHex(p.digits) && 0xD800 <= HexNumber(p.digits) <= 0xDBFF
  }

  /** Every leading surrogate, pairing from the left, is directly followed by another \u escape. */
  ghost predicate Paired(ps: seq<Piece>)
    decreases |ps|
  {
    ps == [] || if Leading(ps[0]) then |ps| > 1 && ps[1].Unit? && Paired(ps[2..]) else Paired(ps[1..])
  }

  ghost predicate Decodable(ps: seq<Piece>) {
    AllWellSpelled(ps) && Paired(ps)
  }

  function Spelling(p: Piece): string {
    match p
    case Raw(c) => [c]
    case Short(letter) => ['\\', letter]
    case Unit(h) => "\\u" + h
  }

  ghost function Meaning(p: Piece): string
    requires WellSpelled(p)
  {
    match p
    case Raw(c) => [c]
    case Short(letter) => [EscapedChar(letter)]
    case Unit(h) => Utf8(HexNumber(h))
  }

  /** Ten bits of each of two escapes: what a leading surrogate and the escape after it are joined to,
      whether or not the second is a trailing surrogate. */
  function Joined(first: nat, second: nat): nat {
    0x10000 + (first % 0x400) * 0x400 + second % 0x400
  }

  ghost function PairMeaning(p: Piece, q: Piece): string
    requires Leading(p) && WellSpelled(q) && q.Unit?
  {
    Utf8(Joined(HexNumber(p.digits), HexNumber(q.digits)))
  }

  ghost function Spellings(ps: seq<Piece>): string {
    if ps == [] then "" else Spelling(ps[0]) + Spellings(ps[1..])
  }

  ghost function Meanings(ps: seq<Piece>): string
    requires Decodable(ps)
    decreases |ps|
  {
    if ps == [] then ""
    else if Leading(ps[0]) then PairMeaning(ps[0], ps[1]) + Meanings(ps[2..])
    else Meaning(ps[0]) + Meanings(ps[1..])
  }

  /** text stands in document at position i. */
  ghost predicate At(document: string, i: nat, text: string) {
    i + |text| <= |document| && document[i..i + |text|] == text
  }

  lemma AtConcat(document: string, i: nat, a: string, b: string)
    ensures At(document, i, a + b) <==> At(document, i, a) && At(document, i + |a|, b)
  {
    if i + |a| + |b| <= |document| {
      var t := document[i..i + |a + b|];
      assert document[i..i + |a|] == t[..|a|] && document[i + |a|..i + |a| + |b|] == t[|a|..];
      assert t == t[..|a|] + t[|a|..];
      assert (a + b)[..|a|] == a && (a + b)[|a|..] == b;
    }
  }

  lemma HexRunNumber(document: string, i: nat, h: string)
    requires IsHex(h) && At(document, i, h)
    ensures HexRun(document, i, 4, 0) == Code(HexNumber(h), i + 4)
  {
    AtChar(document, i, h, 0);
    AtChar(document, i, h, 1);
    AtChar(document, i, h, 2);
    AtChar(document, i, h, 3);
    HexDigitIs(h[0]);
    HexDigitIs(h[1]);
    HexDigitIs(h[2]);
    HexDigitIs(h[3]);
    hide HexDigit, DigitValue, HexRun, At;
    var n1 := DigitValue(h[0]);
    var n2 := n1 * 16 + DigitValue(h[1]);
    var n3 := n2 * 16 + DigitValue(h[2]);
    var n4 := n3 * 16 + DigitValue(h[3]);
    HexRunStep(document, i, 4, 0);
    HexRunStep(document, i + 1, 3, n1);
    HexRunStep(document, i + 2, 2, n2);
    HexRunStep(document, i + 3, 1, n3);
    HexRunStep(document, i + 4, 0, n4);
  }

  /** The low ten bits of a number. */
  lemma TenBits(x: nat)
    ensures And(x, 0x3FF) == x % 0x400
  {
    assert Pow2(10) == 0x400;
    hide And, Pow2;
    AndMask(10, x);
    AndCommutes(x, 0x3FF);
  }

  lemma JoinedBound(first: nat, second: nat)
    ensures 0x10000 <= Joined(first, second) <= 0x10FFFF
    ensures 0xD800 <= first <= 0xDBFF && 0xDC00 <= second <= 0xDFFF ==>
              Joined(first, second) == 0x10000 + (first - 0xD800) * 0x400 + (second - 0xDC00)
  {
    if 0xD800 <= first <= 0xDBFF && 0xDC00 <= second <= 0xDFFF {
      DivModUnique(first, 0x400, 54, first - 0xD800);
      DivModUnique(second, 0x400, 55, second - 0xDC00);
    }
  }

  lemma JoinedLow(first: nat, second: nat, third: nat)
    requires third == 0xDC00 + second % 0x400
    ensures 0xDC00 <= third <= 0xDFFF && Joined(first, second) == Joined(first, third)
  {
    DivModUnique(third, 0x400, 55, second % 0x400);
  }

  lemma UnitCode(document: string, i: nat, end: nat, h: string)
    requires IsHex(h) && !(0xD800 <= HexNumber(h) <= 0xDBFF)
    requires At(document, i, h) && i + 4 <= end <= |document|
    ensures CodePoint(document, i, end) == Code(HexNumber(h), i + 4)
  {
    hide HexRun, HexNumber, IsHex;
    HexRunNumber(document, i, h);
  }

  lemma CodePointOfTwo(document: string, i: nat, end: nat, first: nat, second: nat)
    requires i + 10 <= end <= |document| && document[i + 4] == '\\' && document[i + 5] == 'u'
    requires EscapeSequence(document, i, end) == Code(first, i + 4) && 0xD800 <= first <= 0xDBFF
    requires EscapeSequence(document, i + 6, end) == Code(second, i + 10)
    ensures CodePoint(document, i, end) == Code(0x10000 + And(first, 0x3FF) * 0x400 + And(second, 0x3FF), i + 10)
  {
    hide And, EscapeSequence;
  }

  lemma PairCode(document: string, i: nat, end: nat, h: string, l: string)
    requires IsHex(h) && IsHex(l) && 0xD800 <= HexNumber(h) <= 0xDBFF
    requires At(document, i, h) && At(document, i + 4, "\\u") && At(document, i + 6, l)
    requires i + 10 <= end <= |document|
    ensures CodePoint(document, i, end) == Code(Joined(HexNumber(h), HexNumber(l)), i + 10)
  {
    var u := document[i + 4..i + 6];
    assert u[0] == document[i + 4] && u[1] == document[i + 5];
    hide HexRun, HexNumber, IsHex, And, CodePoint, At;
    HexRunNumber(document, i, h);
    HexRunNumber(document, i + 6, l);
    CodePointOfTwo(document, i, end, HexNumber(h), HexNumber(l));
    TenBits(HexNumber(h));
    TenBits(HexNumber(l));
  }

  /** A \u escape that is no leading surrogate. */
  lemma UnitEscape(document: string, i: nat, end: nat, p: Piece)
    requires WellSpelled(p) && p.Unit? && !Leading(p)
    requires At(document, i, Spelling(p)) && i + |Spelling(p)| <= end <= |document|
    ensures CodePoint(document, i + 2, end).Code? && CodePoint(document, i + 2, end).next == i + |Spelling(p)|
    ensures CodePointToUtf8(CodePoint(document, i + 2, end).unicode) == Meaning(p)
  {
    hide CodePoint, CodePointToUtf8, At, HexNumber;
    AtConcat(document, i, "\\u", p.digits);
    UnitCode(document, i + 2, end, p.digits);
    Utf8Correct(HexNumber(p.digits));
  }

  /** A leading surrogate and the escape after it. */
  lemma PairEscape(document: string, i: nat, end: nat, p: Piece, q: Piece)
    requires Leading(p) && WellSpelled(q) && q.Unit?
    requires At(document, i, Spelling(p)) && At(document, i + 6, Spelling(q)) && i + 12 <= end <= |document|
    ensures CodePoint(document, i + 2, end).Code? && CodePoint(document, i + 2, end).next == i + 12
    ensures CodePointToUtf8(CodePoint(document, i + 2, end).unicode) == PairMeaning(p, q)
  {
    hide CodePoint, CodePointToUtf8, At, HexNumber;
    AtConcat(document, i, "\\u", p.digits);
    AtConcat(document, i + 6, "\\u", q.digits);
    PairCode(document, i + 2, end, p.digits, q.digits);
    JoinedBound(HexNumber(p.digits), HexNumber(q.digits));
    Utf8Correct(Joined(HexNumber(p.digits), HexNumber(q.digits)));
  }

  /** A leading surrogate before the end or before a piece that is no \u escape. */
  lemma LoneEscape(document: string, i: nat, end: nat, p: Piece, rest: seq<Piece>)
    requires Leading(p) && AllWellSpelled(rest) && (rest != [] ==> !rest[0].Unit?)
    requires At(document, i, Spelling(p)) && At(document, i + 6, Spellings(rest))
    requires end == i + 6 + |Spellings(rest)| <= |document|
    ensures CodePoint(document, i + 2, end).BadCode?
  {
    hide HexRun, HexNumber, And;
    AtConcat(document, i, "\\u", p.digits);
    HexRunNumber(document, i + 2, p.digits);
    if end - (i + 6) >= 6 {
      NoEscapeNext(document, i + 6, rest);
    }
    hide At, IsHex;
  }

  lemma NoEscapeNext(document: string, i: nat, rest: seq<Piece>)
    requires AllWellSpelled(rest) && rest != [] && !rest[0].Unit? && At(document, i, Spellings(rest))
    ensures i < |document| && (document[i] == '\\' ==> i + 1 < |document| && document[i + 1] != 'u')
  {
    LetterU();
    AtConcat(document, i, Spelling(rest[0]), Spellings(rest[1..]));
    if rest[0].Short? {
      ShortEscapeIs(rest[0].letter);
    }
    hide ShortEscape, IsEscape, EscapedChar;
    AtChar(document, i, Spelling(rest[0]), 0);
    if rest[0].Short? {
      AtChar(document, i, Spelling(rest[0]), 1);
    }
  }

  lemma AtChar(document: string, i: nat, text: string, k: nat)
    requires At(document, i, text) && k < |text|
    ensures i + |text| <= |document| && document[i + k] == text[k]
  {
    assert document[i..i + |text|][k] == document[i + k];
  }

  lemma DecodePiece(document: string, i: nat, end: nat, p: Piece)
    requires WellSpelled(p) && !Leading(p) && At(document, i, Spelling(p)) && i + |Spelling(p)| <= end <= |document|
    ensures Decode(document, i, end) == Decode(document, i + |Spelling(p)|, end).Prepend(Meaning(p))
  {
    hide CodePoint, CodePointToUtf8, At, ShortEscape, Decode, HexNumber, IsHex, Utf8, Decoded.Prepend, Leading, IsEscape, EscapedChar;
    AtChar(document, i, Spelling(p), 0);
    if !p.Raw? {
      AtChar(document, i, Spelling(p), 1);
    }
    match p {
      case Raw(_) => DecodeRaw(document, i, end);
      case Short(letter) =>
        ShortEscapeIs(letter);
        DecodeShort(document, i, end);
      case Unit(_) =>
        UnitEscape(document, i, end, p);
        DecodeUnicode(document, i, end);
    }
  }

  lemma DecodePair(document: string, i: nat, end: nat, p: Piece, q: Piece)
    requires Leading(p) && WellSpelled(q) && q.Unit?
    requires At(document, i, Spelling(p)) && At(document, i + 6, Spelling(q)) && i + 12 <= end <= |document|
    ensures Decode(document, i, end) == Decode(document, i + 12, end).Prepend(PairMeaning(p, q))
  {
    hide CodePoint, CodePointToUtf8, At, Decode, HexNumber, IsHex, Utf8, Decoded.Prepend;
    AtChar(document, i, Spelling(p), 0);
    AtChar(document, i, Spelling(p), 1);
    PairEscape(document, i, end, p, q);
    DecodeUnicode(document, i, end);
  }

  lemma DecodeRaw(document: string, i: nat, end: nat)
    requires i < end <= |document| && document[i] != '"' && document[i] != '\\'
    ensures Decode(document, i, end) == Decode(document, i + 1, end).Prepend([document[i]])
  {
  }

  lemma DecodeShort(document: string, i: nat, end: nat)
    requires i + 2 <= end <= |document| && document[i] == '\\' && ShortEscape(document[i + 1]).Some?
    ensures Decode(document, i, end) == Decode(document, i + 2, end).Prepend([ShortEscape(document[i + 1]).value])
  {
    LetterU();
    hide ShortEscape;
  }

  lemma DecodeUnicode(document: string, i: nat, end: nat)
    requires i + 2 <= end <= |document| && document[i] == '\\' && document[i + 1] == 'u'
    requires CodePoint(document, i + 2, end).Code?
    ensures var code := CodePoint(document, i + 2, end);
            Decode(document, i, end) == Decode(document, code.next, end).Prepend(CodePointToUtf8(code.unicode))
  {
    hide CodePoint, CodePointToUtf8;
  }

  lemma DecodeLone(document: string, i: nat, end: nat, p: Piece, rest: seq<Piece>)
    requires Leading(p) && AllWellSpelled(rest) && (rest != [] ==> !rest[0].Unit?)
    requires At(document, i, Spelling(p)) && At(document, i + 6, Spellings(rest))
    requires end == i + 6 + |Spellings(rest)| <= |document|
    ensures Decode(document, i, end).Bad?
  {
    LoneEscape(document, i, end, p, rest);
    AtChar(document, i, Spelling(p), 0);
    AtChar(document, i, Spelling(p), 1);
    hide CodePoint, CodePointToUtf8, At, Leading, Spellings;
  }

  lemma LetterU()
    ensures ShortEscape('u') == None
  {
  }

  lemma DecodeNothing(document: string, i: nat)
    requires i <= |document|
    ensures Decode(document, i, i) == Text("")
  {
  }

  lemma SpellingsUnfold(ps: seq<Piece>)
    requires AllWellSpelled(ps)
    ensures ps == [] ==> Spellings(ps) == ""
    ensures ps != [] ==>
              && WellSpelled(ps[0]) && AllWellSpelled(ps[1..])
              && Spellings(ps) == Spelling(ps[0]) + Spellings(ps[1..])
  {
  }

  lemma NothingDecodable()
    ensures Decodable([]) && Meanings([]) == ""
  {
  }

  /** The pieces without the first, or without the first pair. */
  lemma DecodableUnfold(ps: seq<Piece>)
    requires AllWellSpelled(ps) && ps != []
    ensures !Leading(ps[0]) ==>
              && (Decodable(ps) <==> Decodable(ps[1..]))
              && (Decodable(ps) ==> Meanings(ps) == Meaning(ps[0]) + Meanings(ps[1..]))
    ensures Leading(ps[0]) && |ps| > 1 && ps[1].Unit? ==>
              && WellSpelled(ps[1]) && AllWellSpelled(ps[2..])
              && (Decodable(ps) <==> Decodable(ps[2..]))
              && (Decodable(ps) ==> Meanings(ps) == PairMeaning(ps[0], ps[1]) + Meanings(ps[2..]))
    ensures Leading(ps[0]) && (|ps| == 1 || !ps[1].Unit?) ==> !Decodable(ps)
  {
    hide Meaning, PairMeaning, WellSpelled, Leading;
  }

  lemma LeadingIsUnit(p: Piece)
    ensures Leading(p) ==> p.Unit? && WellSpelled(p) && |Spelling(p)| == 6
    ensures WellSpelled(p) && p.Unit? ==> |Spelling(p)| == 6
  {
  }

  lemma AtBound(document: string, i: nat, text: string)
    requires At(document, i, text)
    ensures i + |text| <= |document|
  {
  }

  /** Decoding a string of well-spelled pieces succeeds if and only if every leading surrogate is
      directly followed by another \u escape, and then it yields the meanings of the pieces. */
  lemma {:induction false} DecodeSpellings(document: string, i: nat, ps: seq<Piece>)
    requires AllWellSpelled(ps) && At(document, i, Spellings(ps))
    ensures i + |Spellings(ps)| <= |document|
    ensures Decode(document, i, i + |Spellings(ps)|).Text? <==> Decodable(ps)
    ensures Decodable(ps) ==> Decode(document, i, i + |Spellings(ps)|) == Text(Meanings(ps))
    decreases |ps|
  {
    hide *;
    AtBound(document, i, Spellings(ps));
    SpellingsUnfold(ps);
    if ps == [] {
      DecodeNothing(document, i);
      NothingDecodable();
    } else {
      var end := i + |Spellings(ps)|;
      var p, rest := ps[0], ps[1..];
      AtConcat(document, i, Spelling(p), Spellings(rest));
      DecodableUnfold(ps);
      LeadingIsUnit(p);
      if !Leading(p) {
        DecodeSpellings(document, i + |Spelling(p)|, rest);
        DecodePiece(document, i, end, p);
        PrependIs(Decode(document, i + |Spelling(p)|, end), Meaning(p));
      } else if rest == [] || !rest[0].Unit? {
        DecodeLone(document, i, end, p, rest);
      } else {
        var q, more := rest[0], rest[1..];
        assert more == ps[2..];
        SpellingsUnfold(rest);
        LeadingIsUnit(q);
        AtConcat(document, i + 6, Spelling(q), Spellings(more));
        DecodeSpellings(document, i + 12, more);
        DecodePair(document, i, end, p, q);
        PrependIs(Decode(document, i + 12, end), PairMeaning(p, q));
      }
    }
  }

  lemma PrependIs(d: Decoded, s: string)
    ensures d.Prepend(s).Text? <==> d.Text?
    ensures d.Text? ==> d.Prepend(s) == Text(s + d.text)
  {
  }

  /** The second half of a pair counts by its low ten bits alone: any other escape there is taken for
      the trailing surrogate with the same ones. */
  lemma SecondHalf(p: Piece, q: Piece, t: Piece)
    requires Leading(p) && WellSpelled(q) && q.Unit? && WellSpelled(t) && t.Unit?
    requires HexNumber(t.digits) == 0xDC00 + HexNumber(q.digits) % 0x400
    ensures PairMeaning(p, q) == PairMeaning(p, t)
    ensures PairMeaning(p, t) == Utf8(0x10000 + (HexNumber(p.digits) - 0xD800) * 0x400 + (HexNumber(t.digits) - 0xDC00))
  {
    hide HexNumber, IsHex, DigitValue, Utf8, Joined;
    JoinedBound(HexNumber(p.digits), HexNumber(t.digits));
    JoinedLow(HexNumber(p.digits), HexNumber(q.digits), HexNumber(t.digits));
  }

  /** A leading surrogate alone is refused, where RFC 8259 allows it (section 8.2). */
  lemma LoneSurrogate(d: string)
    requires d == "\\uD800"
    ensures Decode(d, 0, 6) == Bad(SixCharactersExpected, 6)
  {
    HexRunStep(d, 2, 4, 0);
    HexRunStep(d, 3, 3, 13);
    HexRunStep(d, 4, 2, 0xD8);
    HexRunStep(d, 5, 1, 0xD80);
    HexRunStep(d, 6, 0, 0xD800);
    hide HexRun;
  }

  /** One before an escape that is no surrogate is joined with it: two characters become U+10041. */
  lemma FalsePair(d: string)
    requires d == "\\uD800\\u0041"
    ensures Decode(d, 0, 12) == Text(Utf8(0x10041))
  {
    FalsePairIs();
    AtStart(d);
    hide *;
    DecodableIs([Unit("D800"), Unit("0041")]);
    DecodeSpellings(d, 0, [Unit("D800"), Unit("0041")]);
  }

  lemma AtStart(d: string)
    ensures At(d, 0, d)
  {
  }

  lemma FalsePairIs()
    ensures var ps := [Unit("D800"), Unit("0041")];
            && Decodable(ps) && Spellings(ps) == "\\uD800\\u0041" && Meanings(ps) == Utf8(0x10041)
  {
    var p, q := Unit("D800"), Unit("0041");
    hide IsHex, HexNumber, DigitValue, Utf8;
    Numbers();
    assert Spelling(p) == "\\uD800" && Spelling(q) == "\\u0041";
    TwoPieces(p, q);
    assert "\\uD800" + "\\u0041" == "\\uD800\\u0041";
  }

  lemma LoneSurrogateIs()
    ensures var ps := [Unit("D800")];
            AllWellSpelled(ps) && !Decodable(ps) && Spellings(ps) == "\\uD800"
  {
    var p := Unit("D800");
    hide IsHex, HexNumber, DigitValue;
    Numbers();
    assert Spelling(p) == "\\uD800";
    DecodableUnfold([p]);
    hide Decodable, Paired;
    assert [p][1..] == [] && Spellings([p]) == Spelling(p) + "" == Spelling(p);
  }

  lemma Numbers()
    ensures IsHex("D800") && HexNumber("D800") == 0xD800
    ensures IsHex("0041") && HexNumber("0041") == 0x41
    ensures Joined(0xD800, 0x41) == 0x10041
  {
    DigitsHere();
    hide SpellsDigit, DigitValue, IsHex, HexNumber;
    HexSpells("D800", 13, 8, 0, 0);
    HexSpells("0041", 0, 0, 4, 1);
  }

  lemma DigitsHere()
    ensures SpellsDigit('0', 0) && SpellsDigit('1', 1) && SpellsDigit('4', 4) && SpellsDigit('8', 8) && SpellsDigit('D', 13)
  {
  }

  /** A leading surrogate and another escape. */
  lemma TwoPieces(p: Piece, q: Piece)
    requires Leading(p) && WellSpelled(q) && q.Unit?
    ensures Decodable([p, q]) && Spellings([p, q]) == Spelling(p) + Spelling(q) && Meanings([p, q]) == PairMeaning(p, q)
  {
    var ps := [p, q];
    LeadingIsUnit(p);
    assert ps[1..] == [q] && ps[1..][1..] == [] && ps[2..] == [];
    assert Spellings(ps[1..]) == Spelling(q) + "" == Spelling(q);
    assert Spellings(ps) == Spelling(p) + Spellings(ps[1..]);
    hide Spelling, PairMeaning, Leading, WellSpelled, Spellings;
    DecodableUnfold(ps);
    NothingDecodable();
    assert PairMeaning(p, q) + "" == PairMeaning(p, q);
    hide Decodable, Meanings;
  }

  // ---------------------------------------------------------------------------
  // Unicode scalar values, each spelled in any way RFC 8259 offers
  // ---------------------------------------------------------------------------

  /** A scalar value written as its UTF-8 bytes, by one escape, or by a surrogate pair. */
  datatype Spelled = Utf8Bytes(scalar: nat) | Escaped(p: Piece) | Surrogates(leading: string, trailing: string)

  ghost predicate IsScalar(n: nat) {
    n < 0xD800 || 0xE000 <= n <= 0x10FFFF
  }

  ghost predicate SpellsScalar(x: Spelled) {
    match x
    case Utf8Bytes(n) => IsScalar(n) && n != '"' as nat && n != '\\' as nat
    case Escaped(p) => WellSpelled(p) && !p.Raw? && (p.Unit? ==> IsScalar(HexNumber(p.digits)))
    case Surrogates(h, l) => IsHex(h) && IsHex(l) && 0xD800 <= HexNumber(h) <= 0xDBFF && 0xDC00 <= HexNumber(l) <= 0xDFFF
  }

  ghost function Scalar(x: Spelled): nat
    requires SpellsScalar(x)
  {
    match x
    case Utf8Bytes(n) => n
    case Escaped(Short(letter)) => EscapedChar(letter) as nat
    case Escaped(Unit(h)) => HexNumber(h)
    case Surrogates(h, l) => 0x10000 + (HexNumber(h) - 0xD800) * 0x400 + (HexNumber(l) - 0xDC00)
  }

  ghost function Raws(s: string): seq<Piece> {
    if s == "" then [] else [Raw(s[0])] + Raws(s[1..])
  }

  ghost function PiecesOf(x: Spelled): seq<Piece>
    requires SpellsScalar(x)
  {
    match x
    case Utf8Bytes(n) => Raws(Utf8(n))
    case Escaped(p) => [p]
    case Surrogates(h, l) => [Unit(h), Unit(l)]
  }

  ghost predicate AllSpellScalars(xs: seq<Spelled>) {
    forall i :: 0 <= i < |xs| ==> SpellsScalar(xs[i])
  }

  ghost function AllPieces(xs: seq<Spelled>): seq<Piece>
    requires AllSpellScalars(xs)
  {
    if xs == [] then [] else PiecesOf(xs[0]) + AllPieces(xs[1..])
  }

  /** The UTF-8 text of the scalar values. */
  ghost function Utf8Text(xs: seq<Spelled>): string
    requires AllSpellScalars(xs)
  {
    if xs == [] then "" else Utf8(Scalar(xs[0])) + Utf8Text(xs[1..])
  }

  lemma {:induction false} RawsMean(s: string)
    requires forall i :: 0 <= i < |s| ==> s[i] != '"' && s[i] != '\\'
    ensures Decodable(Raws(s)) && Meanings(Raws(s)) == s
  {
    if s != "" {
      RawsMean(s[1..]);
      assert s == [s[0]] + s[1..];
    }
  }

  lemma WellSpelledConcat(a: seq<Piece>, b: seq<Piece>)
    requires AllWellSpelled(a) && AllWellSpelled(b)
    ensures AllWellSpelled(a + b)
  {
    hide WellSpelled;
  }

  lemma {:induction false} MeaningsConcat(a: seq<Piece>, b: seq<Piece>)
    requires Decodable(a) && Decodable(b)
    ensures Decodable(a + b) && Meanings(a + b) == Meanings(a) + Meanings(b)
    decreases |a|
  {
    hide *;
    DecodableIs(a);
    DecodableIs(b);
    WellSpelledConcat(a, b);
    SpellingsUnfold(a);
    NothingDecodable();
    if a == [] {
      assert a + b == b;
      assert "" + Meanings(b) == Meanings(b);
    } else {
      DecodableUnfold(a);
      DecodableUnfold(a + b);
      assert (a + b)[0] == a[0];
      if Leading(a[0]) {
        assert (a + b)[1] == a[1] && (a + b)[2..] == a[2..] + b;
        MeaningsConcat(a[2..], b);
        Assoc(PairMeaning(a[0], a[1]), Meanings(a[2..]), Meanings(b));
      } else {
        assert (a + b)[1..] == a[1..] + b;
        MeaningsConcat(a[1..], b);
        Assoc(Meaning(a[0]), Meanings(a[1..]), Meanings(b));
      }
    }
  }

  lemma PiecesMean(x: Spelled)
    requires SpellsScalar(x)
    ensures Decodable(PiecesOf(x)) && Meanings(PiecesOf(x)) == Utf8(Scalar(x))
  {
    match x {
      case Utf8Bytes(n) =>
        hide Utf8;
        NoQuoteInUtf8(n);
        RawsMean(Utf8(n));
      case Escaped(p) => EscapeMeans(p);
      case Surrogates(h, l) => SurrogatesMean(h, l);
    }
  }

  lemma NoQuoteInUtf8(n: nat)
    requires IsScalar(n) && n != '"' as nat && n != '\\' as nat
    ensures forall i :: 0 <= i < |Utf8(n)| ==> Utf8(n)[i] != '"' && Utf8(n)[i] != '\\'
  {
  }

  lemma EscapeMeans(p: Piece)
    requires SpellsScalar(Escaped(p))
    ensures Decodable([p]) && Meanings([p]) == Utf8(Scalar(Escaped(p)))
  {
    assert [p][1..] == [];
    DecodableUnfold([p]);
    NothingDecodable();
    assert Meaning(p) + "" == Meaning(p);
    hide Decodable, Meanings;
  }

  lemma SurrogatesMean(h: string, l: string)
    requires SpellsScalar(Surrogates(h, l))
    ensures Decodable([Unit(h), Unit(l)]) && Meanings([Unit(h), Unit(l)]) == Utf8(Scalar(Surrogates(h, l)))
  {
    hide IsHex, HexNumber, DigitValue, Utf8, Decodable, Meanings, Joined;
    JoinedBound(HexNumber(h), HexNumber(l));
    TwoPieces(Unit(h), Unit(l));
  }

  lemma {:induction false} AllPiecesMean(xs: seq<Spelled>)
    requires AllSpellScalars(xs)
    ensures Decodable(AllPieces(xs)) && Meanings(AllPieces(xs)) == Utf8Text(xs)
  {
    hide PiecesOf, Decodable, Meanings, Utf8, Scalar;
    NothingDecodable();
    if xs != [] {
      PiecesMean(xs[0]);
      AllPiecesMean(xs[1..]);
      MeaningsConcat(PiecesOf(xs[0]), AllPieces(xs[1..]));
    }
  }

  lemma DecodableIs(ps: seq<Piece>)
    ensures Decodable(ps) <==> AllWellSpelled(ps) && Paired(ps)
  {
  }

  /** Any sequence of scalar values, each spelled in any allowed way, decodes to its UTF-8. */
  lemma DecodeScalars(document: string, i: nat, xs: seq<Spelled>)
    requires AllSpellScalars(xs) && At(document, i, Spellings(AllPieces(xs)))
    ensures i + |Spellings(AllPieces(xs))| <= |document|
    ensures Decode(document, i, i + |Spellings(AllPieces(xs))|) == Text(Utf8Text(xs))
  {
    hide *;
    AllPiecesMean(xs);
    DecodableIs(AllPieces(xs));
    DecodeSpellings(document, i, AllPieces(xs));
  }

  // ---------------------------------------------------------------------------
  // Writing
  // ---------------------------------------------------------------------------

  /** A control character, NUL included: what must be written as an escape. */
  predicate IsControl(c: char) {
    c as nat <= 0x1F
  }

  function UpperHex(d: nat): char
    requires d < 16
  {
    if d < 10 then ('0' as nat + d) as char else ('A' as nat + d - 10) as char
  }

  /** How the writer spells one character. */
  function Quote(c: char): Piece {
    match c
    case '"' => Short('"')
    case '\\' => Short('\\')
    case '\n' => Short('n')
    case '\r' => Short('r')
    case '\t' => Short('t')
    case _ =>
      if c == 8 as char then Short('b')
      else if c == 12 as char then Short('f')
      else if IsControl(c) then Unit(['0', '0', UpperHex(c as nat / 16), UpperHex(c as nat % 16)])
      else Raw(c)
  }

  ghost function Quotes(s: string): seq<Piece> {
    if s == "" then [] else [Quote(s[0])] + Quotes(s[1..])
  }

  /** The text of a string value or member name. */
  ghost function Quoted(s: string): string {
    "\"" + Spellings(Quotes(s)) + "\""
  }

  lemma QuoteMeans(c: char)
    ensures WellSpelled(Quote(c)) && !Leading(Quote(c)) && Meaning(Quote(c)) == [c]
  {
    hide IsHex, HexNumber, DigitValue, IsEscape, EscapedChar;
    var p := Quote(c);
    match p {
      case Raw(_) =>
      case Short(letter) => ShortEscapeIs(letter);
      case Unit(h) => ControlSpelled(c);
    }
  }

  lemma ControlSpelled(c: char)
    requires c as nat < 0x20
    ensures var h := ['0', '0', UpperHex(c as nat / 16), UpperHex(c as nat % 16)];
            IsHex(h) && HexNumber(h) == c as nat && Utf8(HexNumber(h)) == [c]
  {
    var n := c as nat;
    var h := ['0', '0', UpperHex(n / 16), UpperHex(n % 16)];
    HexDigitSpells('0', 0);
    HexDigitSpells(h[2], n / 16);
    HexDigitSpells(h[3], n % 16);
    hide SpellsDigit, IsHex, HexNumber, DigitValue, UpperHex;
    HexSpells(h, 0, 0, n / 16, n % 16);
  }

  /** How the writer spells each character: as it is, by a letter (a slash never), or by \u and its
      code in upper-case digits. */
  lemma QuoteSpelling(c: char)
    ensures |UPPER_DIGITS| == 16 && |ESCAPE_LETTERS| == |ESCAPED_CHARS| == 8
    ensures c as nat >= 0x20 && c != '"' && c != '\\' ==> Spelling(Quote(c)) == [c]
    ensures forall k :: 0 <= k < 8 && k != 2 && c == ESCAPED_CHARS[k] ==> Spelling(Quote(c)) == ['\\', ESCAPE_LETTERS[k]]
    ensures c as nat < 0x20 && c !in ESCAPED_CHARS ==>
              Spelling(Quote(c)) == "\\u00" + [UPPER_DIGITS[c as nat / 16], UPPER_DIGITS[c as nat % 16]]
  {
    var n := c as nat;
    if n < 0x20 && c !in ESCAPED_CHARS {
      NoLetter(c);
      DigitAt(n / 16);
      DigitAt(n % 16);
      hide UPPER_DIGITS, ESCAPED_CHARS;
      assert Quote(c) == Unit(['0', '0', UPPER_DIGITS[n / 16], UPPER_DIGITS[n % 16]]);
    }
  }

  lemma NoLetter(c: char)
    requires c !in ESCAPED_CHARS
    ensures c != 8 as char && c != 9 as char && c != 10 as char && c != 12 as char && c != 13 as char
  {
    assert ESCAPED_CHARS[3] == 8 as char && ESCAPED_CHARS[4] == 12 as char && ESCAPED_CHARS[5] == 10 as char;
    assert ESCAPED_CHARS[6] == 13 as char && ESCAPED_CHARS[7] == 9 as char;
  }

  /** The writer's spelling is well formed and means the string itself. */
  lemma {:induction false} QuotesMean(s: string)
    ensures Decodable(Quotes(s)) && Meanings(Quotes(s)) == s
  {
    if s != "" {
      QuoteMeans(s[0]);
      QuotesMean(s[1..]);
      hide Quote, Meaning, WellSpelled, Leading;
      assert Quotes(s)[1..] == Quotes(s[1..]);
      assert s == [s[0]] + s[1..];
    }
  }

  predicate IsSpecial(c: char) {
    c in ['"', '\\', 8 as char, 12 as char, '\n', '\r', '\t'] || IsControl(c)
  }

  lemma {:induction false} QuotesPlain(s: string)
    requires forall i :: 0 <= i < |s| ==> !IsSpecial(s[i])
    ensures Spellings(Quotes(s)) == s
  {
    if s != "" {
      QuotesPlain(s[1..]);
      PlainStays(s[0]);
      hide Quote, IsSpecial, IsControl;
      assert Quotes(s)[1..] == Quotes(s[1..]) && Quotes(s)[0] == Quote(s[0]);
      assert Spellings(Quotes(s)) == [s[0]] + s[1..];
    }
  }

  lemma PlainStays(c: char)
    requires !IsSpecial(c)
    ensures Quote(c) == Raw(c) && Spelling(Raw(c)) == [c]
  {
  }

  lemma QuotesStep(s: string, i: nat)
    requires i < |s|
    ensures Spellings(Quotes(s[i..])) == Spelling(Quote(s[i])) + Spellings(Quotes(s[i + 1..]))
  {
    assert Quotes(s[i..])[1..] == Quotes(s[i + 1..]);
  }

  method AnySpecial(value: string) returns (found: bool)
    ensures found <==> exists i :: 0 <= i < |value| && IsSpecial(value[i])
  {
    for i := 0 to |value|
      invariant forall j :: 0 <= j < i ==> !IsSpecial(value[j])
    {
      if IsSpecial(value[i]) {
        return true;
      }
    }
    return false;
  }

  method ValueToQuotedString(value: string) returns (result: string)
    ensures result == Quoted(value)
  {
    hide Quote, IsSpecial, Quotes, Spellings;
    var special := AnySpecial(value);
    if !special {
      QuotesPlain(value);
      return "\"" + value + "\"";
    }
    result := "\"";
    assert value[0..] == value;
    for i := 0 to |value|
      invariant result + Spellings(Quotes(value[i..])) == "\"" + Spellings(Quotes(value))
    {
      QuotesStep(value, i);
      Assoc(result, Spelling(Quote(value[i])), Spellings(Quotes(value[i + 1..])));
      result := result + Spelling(Quote(value[i]));
    }
    NoQuotes();
    assert value[|value|..] == "";
    result := result + "\"";
  }

  lemma NoQuotes()
    ensures Spellings(Quotes("")) == ""
  {
  }
}
