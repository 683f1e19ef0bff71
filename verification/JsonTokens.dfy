/**
 The tokens of rendered JSON text: what `Scan` makes of white space followed by a symbol, a
 literal, a string or a number.
 */
module JsonTokens {
  import opened JsonValues
  import opened JsonScanner
  import opened JsonStrings

  /** A number: minus, whole part, and optionally a fraction and an exponent. */
  datatype Numeral = Numeral(minus: bool, whole: string, fraction: Option<string>, exponent: Option<Exponent>)
  datatype Exponent = Exponent(capital: bool, sign: Option<bool>, digits: string)

  /** The white space of RFC 8259, section 2. */
  predicate White(c: char) {
    c == ' ' || c == '\t' || c == '\n' || c == '\r'
  }

  ghost predicate Blank(w: string) {
    forall i :: 0 <= i < |w| ==> White(w[i])
  }

  ghost predicate Digits(s: string) {
    s != "" && Figures(s)
  }

  ghost predicate Figures(s: string) {
    forall i :: 0 <= i < |s| ==> '0' <= s[i] <= '9'
  }

  ghost predicate IsNumeral(n: Numeral) {
    && Digits(n.whole)
    && (n.fraction.Some? ==> Digits(n.fraction.value))
    && (n.exponent.Some? ==> Digits(n.exponent.value.digits))
  }

  /** What the reader takes for a number: digits may be missing, after a minus, a point or an exponent
      mark, and there may be leading zeros. */
  ghost predicate ReadAsNumeral(n: Numeral) {
    && (n.minus || n.whole != "") && Figures(n.whole)
    && (n.fraction.Some? ==> Figures(n.fraction.value))
    && (n.exponent.Some? ==> Figures(n.exponent.value.digits))
  }

  ghost function FractionText(f: Option<string>): string {
    match f
    case None => ""
    case Some(digits) => "." + digits
  }

  ghost function SignText(s: Option<bool>): string {
    match s
    case None => ""
    case Some(plus) => if plus then "+" else "-"
  }

  ghost function ExponentText(e: Option<Exponent>): string {
    match e
    case None => ""
    case Some(Exponent(capital, sign, digits)) => (if capital then "E" else "e") + (SignText(sign) + digits)
  }

  ghost function NumeralText(n: Numeral): string {
    (if n.minus then "-" else "") + (n.whole + (FractionText(n.fraction) + ExponentText(n.exponent)))
  }

  ghost function StringText(ps: seq<Piece>): string {
    "\"" + (Spellings(ps) + "\"")
  }

  // ---------------------------------------------------------------------------
  // White space, symbols and literals
  // ---------------------------------------------------------------------------

  lemma {:induction false} SpacesSkipped(document: string, i: nat, w: string)
    requires Blank(w) && At(document, i, w)
    requires i + |w| == |document| || !IsSpace(document[i + |w|])
    ensures SpacesEnd(document, i) == i + |w|
    decreases |w|
  {
    if w != "" {
      AtChar(document, i, w, 0);
      AtConcat(document, i, [w[0]], w[1..]);
      assert [w[0]] + w[1..] == w;
      SpacesSkipped(document, i + 1, w[1..]);
    }
  }

  lemma TokenStart(document: string, i: nat, w: string, c: char)
    requires Blank(w) && At(document, i, w + [c]) && !IsSpace(c)
    ensures i + |w| + 1 <= |document| && document[i + |w|] == c && SpacesEnd(document, i) == i + |w|
  {
    AtConcat(document, i, w, [c]);
    AtChar(document, i + |w|, [c], 0);
    SpacesSkipped(document, i, w);
  }

  /** The type of a one-character token. */
  function Symbol(c: char): Option<TokenType> {
    match c
    case '{' => Some(ObjectBegin)
    case '}' => Some(ObjectEnd)
    case '[' => Some(ArrayBegin)
    case ']' => Some(ArrayEnd)
    case ',' => Some(ArraySeparator)
    case ':' => Some(MemberSeparator)
    case _ => None
  }

  lemma ScanSymbol(document: string, i: nat, w: string, c: char)
    requires Blank(w) && At(document, i, w + [c]) && Symbol(c).Some?
    ensures Scan(document, i) == Token(Symbol(c).value, i + |w|, i + |w| + 1)
  {
    TokenStart(document, i, w, c);
    hide SpacesEnd, At, Blank;
  }

  lemma LiteralStart(document: string, i: nat, w: string, first: char, rest: string)
    requires Blank(w) && At(document, i, w + ([first] + rest)) && !IsSpace(first)
    ensures i + |w| + 1 + |rest| <= |document| && document[i + |w|] == first && SpacesEnd(document, i) == i + |w|
    ensures LiteralEnd(document, i + |w| + 1, rest) == Extent(true, i + |w| + 1 + |rest|)
  {
    assert w + ([first] + rest) == (w + [first]) + rest;
    AtConcat(document, i, w + [first], rest);
    TokenStart(document, i, w, first);
  }

  lemma ScanNull(document: string, i: nat, w: string)
    requires Blank(w) && At(document, i, w + "null")
    ensures Scan(document, i) == Token(NullToken, i + |w|, i + |w| + 4)
  {
    assert "null" == ['n'] + "ull";
    LiteralStart(document, i, w, 'n', "ull");
    hide SpacesEnd, At, Blank, LiteralEnd;
  }

  lemma ScanTrue(document: string, i: nat, w: string)
    requires Blank(w) && At(document, i, w + "true")
    ensures Scan(document, i) == Token(True, i + |w|, i + |w| + 4)
  {
    assert "true" == ['t'] + "rue";
    LiteralStart(document, i, w, 't', "rue");
    hide SpacesEnd, At, Blank, LiteralEnd;
  }

  lemma ScanFalse(document: string, i: nat, w: string)
    requires Blank(w) && At(document, i, w + "false")
    ensures Scan(document, i) == Token(False, i + |w|, i + |w| + 5)
  {
    assert "false" == ['f'] + "alse";
    LiteralStart(document, i, w, 'f', "alse");
    hide SpacesEnd, At, Blank, LiteralEnd;
  }

  // ---------------------------------------------------------------------------
  // Strings
  // ---------------------------------------------------------------------------

  /** Characters that are neither quote nor backslash are passed one by one. */
  lemma {:induction false} StringEndPlain(document: string, i: nat, s: string)
    requires At(document, i, s) && forall k :: 0 <= k < |s| ==> s[k] != '"' && s[k] != '\\'
    ensures StringEnd(document, i) == StringEnd(document, i + |s|)
    decreases |s|
  {
    if s != "" {
      AtChar(document, i, s, 0);
      AtConcat(document, i, [s[0]], s[1..]);
      assert [s[0]] + s[1..] == s;
      StringEndPlain(document, i + 1, s[1..]);
    }
  }

  lemma StringEndEscape(document: string, i: nat, letter: char)
    requires At(document, i, ['\\', letter])
    ensures StringEnd(document, i) == StringEnd(document, i + 2)
  {
    AtChar(document, i, ['\\', letter], 0);
  }

  lemma HexIsPlain(h: string)
    requires IsHex(h)
    ensures forall k :: 0 <= k < |h| ==> h[k] != '"' && h[k] != '\\'
  {
  }

  lemma StringEndUnit(document: string, i: nat, h: string)
    requires IsHex(h) && At(document, i, "\\u" + h)
    ensures StringEnd(document, i) == StringEnd(document, i + 6)
  {
    AtConcat(document, i, "\\u", h);
    hide StringEnd;
    StringEndEscape(document, i, 'u');
    HexIsPlain(h);
    StringEndPlain(document, i + 2, h);
  }

  lemma StringEndPiece(document: string, i: nat, p: Piece)
    requires WellSpelled(p) && At(document, i, Spelling(p))
    ensures StringEnd(document, i) == StringEnd(document, i + |Spelling(p)|)
  {
    hide StringEnd, At;
    match p {
      case Raw(c) => StringEndPlain(document, i, [c]);
      case Short(letter) => StringEndEscape(document, i, letter);
      case Unit(h) => StringEndUnit(document, i, h);
    }
  }

  lemma {:induction false} StringEndPieces(document: string, i: nat, ps: seq<Piece>)
    requires AllWellSpelled(ps) && At(document, i, Spellings(ps))
    ensures i + |Spellings(ps)| <= |document|
    ensures StringEnd(document, i) == StringEnd(document, i + |Spellings(ps)|)
    decreases |ps|
  {
    hide *;
    AtBound(document, i, Spellings(ps));
    SpellingsUnfold(ps);
    if ps != [] {
      AtConcat(document, i, Spelling(ps[0]), Spellings(ps[1..]));
      StringEndPiece(document, i, ps[0]);
      StringEndPieces(document, i + |Spelling(ps[0])|, ps[1..]);
    }
  }

  lemma StringEndQuote(document: string, i: nat)
    requires At(document, i, "\"")
    ensures StringEnd(document, i) == Extent(true, i + 1)
  {
    AtChar(document, i, "\"", 0);
  }

  lemma ScanQuote(document: string, i: nat, w: string, end: nat)
    requires Blank(w) && At(document, i, w + "\"")
    requires StringEnd(document, i + |w| + 1) == Extent(true, end)
    ensures Scan(document, i) == Token(StringToken, i + |w|, end)
  {
    TokenStart(document, i, w, '"');
    hide StringEnd, SpacesEnd, At, Blank;
  }

  lemma ScanString(document: string, i: nat, w: string, ps: seq<Piece>)
    requires Blank(w) && AllWellSpelled(ps) && At(document, i, w + StringText(ps))
    ensures Scan(document, i) == Token(StringToken, i + |w|, i + |w| + |StringText(ps)|)
    ensures i + |w| + |StringText(ps)| <= |document|
    ensures Decode(document, i + |w| + 1, i + |w| + |StringText(ps)| - 1).Text? <==> Decodable(ps)
    ensures Decodable(ps) ==> Decode(document, i + |w| + 1, i + |w| + |StringText(ps)| - 1) == Text(Meanings(ps))
  {
    hide Scan, Blank, At, Spellings, Meanings, Decode, StringEnd, AllWellSpelled, Decodable;
    AtBound(document, i, w + StringText(ps));
    AtConcat(document, i, w, StringText(ps));
    AtConcat(document, i + |w|, "\"", Spellings(ps) + "\"");
    AtConcat(document, i + |w| + 1, Spellings(ps), "\"");
    AtConcat(document, i, w, "\"");
    StringEndPieces(document, i + |w| + 1, ps);
    StringEndQuote(document, i + |w| + 1 + |Spellings(ps)|);
    ScanQuote(document, i, w, i + |w| + |StringText(ps)|);
    DecodeSpellings(document, i + |w| + 1, ps);
  }

  // ---------------------------------------------------------------------------
  // Numbers
  // ---------------------------------------------------------------------------

  /** What may follow a value: the end of the document, or a character that continues no number. */
  predicate Delimited(document: string, i: nat) {
    i >= |document| || !(IsDigit(document[i]) || document[i] in ['.', 'e', 'E', '+', '-'])
  }

  lemma {:induction false} DigitsSkipped(document: string, i: nat, s: string)
    requires At(document, i, s) && Figures(s)
    requires i + |s| == |document| || !IsDigit(document[i + |s|])
    ensures DigitsEnd(document, i) == i + |s|
    decreases |s|
  {
    if s != "" {
      AtChar(document, i, s, 0);
      AtConcat(document, i, [s[0]], s[1..]);
      assert [s[0]] + s[1..] == s;
      DigitsSkipped(document, i + 1, s[1..]);
    }
  }

  lemma DelimiterIsNoDigit(document: string, i: nat)
    requires Delimited(document, i) && i <= |document|
    ensures i == |document| || (!IsDigit(document[i]) && document[i] !in ['.', 'e', 'E', '+', '-'])
  {
  }

  lemma ExponentAt(document: string, i: nat, mark: char, sign: Option<bool>)
    requires (mark == 'e' || mark == 'E') && At(document, i, [mark] + SignText(sign))
    requires var next := i + 1 + |SignText(sign)|; next >= |document| || document[next] !in ['+', '-']
    ensures i + 1 + |SignText(sign)| <= |document|
    ensures ExponentEnd(document, i) == DigitsEnd(document, i + 1 + |SignText(sign)|)
  {
    var t := [mark] + SignText(sign);
    AtChar(document, i, t, 0);
    if sign.Some? {
      AtChar(document, i, t, 1);
    }
    hide DigitsEnd;
  }

  lemma NoSign(document: string, i: nat, digits: string)
    requires Figures(digits) && At(document, i, digits) && Delimited(document, i + |digits|)
    ensures i >= |document| || document[i] !in ['+', '-']
  {
    if digits != "" {
      AtChar(document, i, digits, 0);
    }
  }

  lemma ExponentWritten(document: string, i: nat, mark: char, sign: Option<bool>, digits: string)
    requires (mark == 'e' || mark == 'E') && Figures(digits)
    requires At(document, i, ([mark] + SignText(sign)) + digits)
    requires Delimited(document, i + 1 + |SignText(sign)| + |digits|)
    ensures ExponentEnd(document, i) == i + 1 + |SignText(sign)| + |digits|
  {
    hide *;
    var next := i + 1 + |SignText(sign)|;
    AtBound(document, i, ([mark] + SignText(sign)) + digits);
    AtConcat(document, i, [mark] + SignText(sign), digits);
    NoSign(document, next, digits);
    ExponentAt(document, i, mark, sign);
    DelimiterIsNoDigit(document, next + |digits|);
    DigitsSkipped(document, next, digits);
  }

  lemma ExponentSkipped(document: string, i: nat, e: Option<Exponent>)
    requires (e.Some? ==> Figures(e.value.digits)) && At(document, i, ExponentText(e))
    requires Delimited(document, i + |ExponentText(e)|)
    ensures i + |ExponentText(e)| <= |document|
    ensures ExponentEnd(document, i) == i + |ExponentText(e)|
  {
    AtBound(document, i, ExponentText(e));
    hide DigitsEnd, At, SignText, Figures;
    if e.Some? {
      hide ExponentEnd, Delimited;
      var Exponent(capital, sign, digits) := e.value;
      var mark := if capital then 'E' else 'e';
      assert ExponentText(e) == ([mark] + SignText(sign)) + digits;
      ExponentWritten(document, i, mark, sign, digits);
    }
  }

  lemma FractionSkipped(document: string, i: nat, f: Option<string>, rest: string)
    requires (f.Some? ==> Figures(f.value)) && At(document, i, FractionText(f) + rest)
    requires if rest == "" then Delimited(document, i + |FractionText(f)|) else rest[0] == 'e' || rest[0] == 'E'
    ensures i + |FractionText(f)| <= |document| && FractionEnd(document, i) == i + |FractionText(f)|
    ensures i == |document| || !IsDigit(document[i])
  {
    AtConcat(document, i, FractionText(f), rest);
    AtBound(document, i, FractionText(f));
    if rest != "" {
      AtChar(document, i + |FractionText(f)|, rest, 0);
    }
    match f {
      case None =>
      case Some(digits) =>
        AtConcat(document, i, ".", digits);
        AtChar(document, i, ".", 0);
        DigitsSkipped(document, i + 1, digits);
        hide DigitsEnd;
    }
  }

  lemma NumeralSkipped(document: string, i: nat, whole: string, f: Option<string>, e: Option<Exponent>)
    requires Figures(whole)
    requires (f.Some? ==> Figures(f.value)) && (e.Some? ==> Figures(e.value.digits))
    requires At(document, i, whole + (FractionText(f) + ExponentText(e)))
    requires Delimited(document, i + |whole| + |FractionText(f)| + |ExponentText(e)|)
    ensures i + |whole| + |FractionText(f)| + |ExponentText(e)| <= |document|
    ensures NumberEnd(document, i) == i + |whole| + |FractionText(f)| + |ExponentText(e)|
  {
    hide At, Delimited, DigitsEnd, FractionEnd, ExponentEnd, FractionText, ExponentText;
    AtBound(document, i, whole + (FractionText(f) + ExponentText(e)));
    AtConcat(document, i, whole, FractionText(f) + ExponentText(e));
    AtConcat(document, i + |whole|, FractionText(f), ExponentText(e));
    ExponentSkipped(document, i + |whole| + |FractionText(f)|, e);
    ExponentMark(e);
    FractionSkipped(document, i + |whole|, f, ExponentText(e));
    DigitsSkipped(document, i, whole);
  }

  lemma ExponentMark(e: Option<Exponent>)
    ensures ExponentText(e) != "" ==> ExponentText(e)[0] == 'e' || ExponentText(e)[0] == 'E'
  {
  }

  lemma ScanFirstDigit(document: string, i: nat, w: string, c: char)
    requires Blank(w) && At(document, i, w + [c]) && (IsDigit(c) || c == '-')
    ensures i + |w| + 1 <= |document|
    ensures Scan(document, i) == Token(Number, i + |w|, NumberEnd(document, i + |w| + 1))
  {
    TokenStart(document, i, w, c);
    hide NumberEnd, SpacesEnd, At, Blank;
  }

  lemma ScanNumber(document: string, i: nat, w: string, n: Numeral)
    requires Blank(w) && ReadAsNumeral(n) && At(document, i, w + NumeralText(n))
    requires Delimited(document, i + |w| + |NumeralText(n)|)
    ensures i + |w| + |NumeralText(n)| <= |document|
    ensures Scan(document, i) == Token(Number, i + |w|, i + |w| + |NumeralText(n)|)
  {
    hide Scan, At, Blank, FractionText, ExponentText, NumberEnd, Delimited;
    var j := i + |w|;
    var whole := n.whole;
    var rest := FractionText(n.fraction) + ExponentText(n.exponent);
    AtBound(document, i, w + NumeralText(n));
    var first := if n.minus then '-' else whole[0];
    var tail := (if n.minus then whole else whole[1..]) + rest;
    assert NumeralText(n) == [first] + tail;
    assert w + NumeralText(n) == (w + [first]) + tail;
    AtConcat(document, i, w + [first], tail);
    ScanFirstDigit(document, i, w, first);
    NumeralSkipped(document, j + 1, if n.minus then whole else whole[1..], n.fraction, n.exponent);
  }
}
