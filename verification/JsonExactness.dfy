/**
 Which documents the reader accepts, exactly: those that begin with a gap and a readable text of its
 grammar, and no proper prefix of an object's or an array's text.
 */
module JsonExactness {
  import opened JsonValues
  import JsonNumbers
  import opened JsonScanner
  import opened JsonParsing
  import opened JsonStrings
  import opened JsonTokens
  import opened JsonGrammar
  import opened JsonGaps
  import opened JsonLexemes
  import opened JsonAcceptance
  import opened JsonRejection
  import opened JsonSoundness

  // ---------------------------------------------------------------------------
  // A number is read as far as it goes
  // ---------------------------------------------------------------------------

  /** No longer text at i is a number. */
  ghost predicate Longest(document: string, i: nat, n: Numeral) {
    forall m: Numeral :: ReadAsNumeral(m) && At(document, i, NumeralText(m)) ==> |NumeralText(m)| <= |NumeralText(n)|
  }

  lemma {:induction false} DigitsReach(document: string, i: nat, s: string)
    requires At(document, i, s) && Figures(s)
    ensures i + |s| <= DigitsEnd(document, i) <= |document|
    ensures i + |s| == |document| || !IsDigit(document[i + |s|]) ==> DigitsEnd(document, i) == i + |s|
    decreases |s|
  {
    if s != "" {
      AtFirst(document, i, s);
      DigitsReach(document, i + 1, s[1..]);
    }
  }

  lemma ExponentReaches(document: string, i: nat, e: Option<Exponent>)
    requires (e.Some? ==> Figures(e.value.digits)) && At(document, i, ExponentText(e))
    ensures i + |ExponentText(e)| <= ExponentEnd(document, i)
  {
    AtBound(document, i, ExponentText(e));
    hide DigitsEnd, At, SignText, Figures;
    if e.Some? {
      var Exponent(capital, sign, digits) := e.value;
      var mark := if capital then 'E' else 'e';
      assert ExponentText(e) == ([mark] + SignText(sign)) + digits;
      hide ExponentEnd;
      ExponentGoesOn(document, i, mark, sign, digits);
    }
  }

  lemma ExponentGoesOn(document: string, i: nat, mark: char, sign: Option<bool>, digits: string)
    requires (mark == 'e' || mark == 'E') && Figures(digits) && At(document, i, ([mark] + SignText(sign)) + digits)
    ensures i + 1 + |SignText(sign)| + |digits| <= ExponentEnd(document, i)
  {
    hide *;
    var next := i + 1 + |SignText(sign)|;
    AtBound(document, i, ([mark] + SignText(sign)) + digits);
    AtConcat(document, i, [mark] + SignText(sign), digits);
    DigitsReach(document, next, digits);
    if digits != "" {
      DigitIsNoSign(document, next, digits);
      ExponentAt(document, i, mark, sign);
    } else {
      MarkReaches(document, i, mark, sign);
    }
  }

  lemma DigitIsNoSign(document: string, i: nat, digits: string)
    requires Figures(digits) && digits != "" && At(document, i, digits)
    ensures i < |document| && document[i] != '+' && document[i] != '-'
  {
    AtChar(document, i, digits, 0);
  }

  lemma MarkReaches(document: string, i: nat, mark: char, sign: Option<bool>)
    requires (mark == 'e' || mark == 'E') && At(document, i, [mark] + SignText(sign))
    ensures i + 1 + |SignText(sign)| <= ExponentEnd(document, i)
  {
    var t := [mark] + SignText(sign);
    AtChar(document, i, t, 0);
    if sign.Some? {
      AtChar(document, i, t, 1);
    }
    hide DigitsEnd;
  }

  lemma FractionReaches(document: string, i: nat, f: Option<string>, e: Option<Exponent>)
    requires (f.Some? ==> Figures(f.value)) && (e.Some? ==> Figures(e.value.digits))
    requires At(document, i, FractionText(f) + ExponentText(e))
    ensures i + |FractionText(f)| + |ExponentText(e)| <= ExponentEnd(document, FractionEnd(document, i))
    ensures f.Some? || e.Some? ==> i < |document| && !IsDigit(document[i])
  {
    hide DigitsEnd, At, ExponentEnd, Figures;
    var p := i + |FractionText(f)|;
    AtConcat(document, i, FractionText(f), ExponentText(e));
    AtBound(document, i, FractionText(f));
    AtBound(document, p, ExponentText(e));
    ExponentReaches(document, p, e);
    if e.Some? {
      AtChar(document, p, ExponentText(e), 0);
    }
    match f {
      case None =>
        hide ExponentText;
        if e.Some? {
          assert FractionEnd(document, i) == i;
        } else {
          assert ExponentText(e) == "";
        }
      case Some(digits) =>
        AtConcat(document, i, ".", digits);
        AtChar(document, i, ".", 0);
        DigitsReach(document, i + 1, digits);
        hide ExponentText;
    }
  }

  lemma NumeralReaches(document: string, i: nat, m: Numeral)
    requires ReadAsNumeral(m) && At(document, i, NumeralText(m))
    ensures i + |NumeralText(m)| <= NumberEnd(document, i + 1)
  {
    hide *;
    NumeralUnfold(m);
    NumeralStart(m);
    AtBound(document, i, NumeralText(m));
    var whole := if m.minus then m.whole else m.whole[1..];
    var rest := FractionText(m.fraction) + ExponentText(m.exponent);
    var p := i + 1 + |whole|;
    assert NumeralText(m) == [NumeralText(m)[0]] + (whole + rest);
    AtConcat(document, i, [NumeralText(m)[0]], whole + rest);
    AtConcat(document, i + 1, whole, rest);
    RestOfFigures(m.whole);
    DigitsReach(document, i + 1, whole);
    FractionReaches(document, p, m.fraction, m.exponent);
    NumberEndParts(document, i + 1);
    NoFraction(m);
  }

  lemma RestOfFigures(s: string)
    requires Figures(s)
    ensures s != "" ==> Figures(s[1..])
  {
  }

  lemma NoFraction(m: Numeral)
    ensures m.fraction.None? ==> FractionText(m.fraction) == ""
    ensures m.exponent.None? ==> ExponentText(m.exponent) == ""
  {
  }

  /** A number is read to its end if and only if no longer text there is a number. */
  lemma LongestStops(document: string, i: nat, n: Numeral)
    requires ReadAsNumeral(n) && At(document, i, NumeralText(n))
    ensures Stops(document, i, NumberLiteral(n)) <==> Longest(document, i, n)
  {
    hide *;
    StopsIs(document, i, n);
    NumeralStart(n);
    AtFirst(document, i, NumeralText(n));
    DigitStarts(document[i]);
    ScanHere(document, i);
    var m := NumberIs(document, i);
    AtHere(document, i, NumberEnd(document, i + 1));
    NumeralReaches(document, i, n);
    LongestIs(document, i, n);
    if Stops(document, i, NumberLiteral(n)) {
      forall k: Numeral | ReadAsNumeral(k) && At(document, i, NumeralText(k))
        ensures |NumeralText(k)| <= |NumeralText(n)|
      {
        NumeralReaches(document, i, k);
      }
    }
  }

  lemma LongestIs(document: string, i: nat, n: Numeral)
    ensures Longest(document, i, n) <==>
            forall m: Numeral :: ReadAsNumeral(m) && At(document, i, NumeralText(m)) ==> |NumeralText(m)| <= |NumeralText(n)|
  {
    hide ReadAsNumeral, At, NumeralText;
  }

  lemma DigitStarts(c: char)
    requires IsDigit(c) || c == '-'
    ensures !IsSpace(c) && Symbol(c).None? && c !in ['"', '/', 't', 'f', 'n', '\0']
  {
  }

  // ---------------------------------------------------------------------------
  // Documents
  // ---------------------------------------------------------------------------

  /** The document begins with a gap and a text of the grammar that can be read, nests no deeper than
      the stack limit, and is a container if the strict-root feature asks for one. */
  ghost predicate Begins(c: Config, g: string, x: Syntax) {
    && At(c.document, 0, g + Render(x)) && Gap(g, c.allowComments) && Accepted(x, c.allowComments)
    && (x.NumberLiteral? ==> Longest(c.document, |g|, x.n))
    && Readable(x, c.toDouble) && Height(x) <= STACK_LIMIT
    && (c.strictRoot ==> x.ArrayLiteral? || x.ObjectLiteral?)
  }

  lemma BeginsIs(c: Config, g: string, x: Syntax)
    ensures Begins(c, g, x) <==>
            && At(c.document, 0, g + Render(x)) && Gap(g, c.allowComments) && Accepted(x, c.allowComments)
            && (x.NumberLiteral? ==> Longest(c.document, |g|, x.n))
            && Readable(x, c.toDouble) && Height(x) <= STACK_LIMIT
            && (c.strictRoot ==> x.ArrayLiteral? || x.ObjectLiteral?)
  {
    hide At, Gap, Accepted, Render, Longest, Readable, Height;
  }

  lemma FailsOrSucceeds(r: Outcome)
    ensures Fails(r) <==> !Succeeds(r)
  {
  }

  lemma StopsByKind(document: string, i: nat, x: Syntax)
    ensures !x.NumberLiteral? ==> Stops(document, i, x)
  {
  }

  /** In an accepted text only a number can go on. */
  lemma StopsIfLongest(document: string, i: nat, x: Syntax, comments: bool)
    requires Accepted(x, comments) && At(document, i, Render(x))
    ensures Stops(document, i, x) <==> (x.NumberLiteral? ==> Longest(document, i, x.n))
  {
    hide *;
    StopsByKind(document, i, x);
    if x.NumberLiteral? {
      AcceptedScalar(x, comments, y => None);
      LongestStops(document, i, x.n);
    }
  }

  /** What a successful readValue has read. */
  lemma ReadIsDenoted(c: Config, v: Value, s: State) returns (g: string, x: Syntax)
    requires s.pos <= |c.document| && Succeeds(ReadValue(c, v, s))
    ensures TextHere(c, s.pos, g, x, ReadValue(c, v, s).state.pos)
    ensures Readable(x, c.toDouble) && s.depth + Height(x) <= STACK_LIMIT && ReadValue(c, v, s).value == Denote(x, c.toDouble)
  {
    hide *;
    SucceedsIs(ReadValue(c, v, s));
    g, x := ReadIsAccepted(c, v, s);
    TextHereIs(c, s.pos, g, x, ReadValue(c, v, s).state.pos);
    FailsOrSucceeds(ReadValue(c, v, s));
    if !Readable(x, c.toDouble) {
      RefusesValue(c, v, s, g, x);
    } else {
      ReadsValue(c, v, s, g, x);
      ReadsSyntaxIs(c, v, s, g, x);
    }
  }

  lemma ParseFrom(c: Config, root: Value)
    ensures var r, p := ReadValue(c, root, State(0, 0, [])), Parse(c, root);
            && (Succeeds(p) ==> Succeeds(r) && p.value == r.value)
            && (Succeeds(r) ==> (Succeeds(p) <==> (c.strictRoot ==> r.value.Arr? || r.value.Obj?)))
            && (Succeeds(p) ==> p.state.errors == [] && p.state.depth == 0)
  {
    hide ReadValue, NextToken;
  }

  lemma DenotesKind(x: Syntax, comments: bool, toDouble: JsonNumbers.ToDouble)
    requires Accepted(x, comments) && Readable(x, toDouble)
    ensures Denote(x, toDouble).Arr? || Denote(x, toDouble).Obj? <==> x.ArrayLiteral? || x.ObjectLiteral?
  {
    hide NumeralValue, DenoteItems, DenoteMembers, Meanings, Decodable;
    if x.NumberLiteral? {
      NumeralIsScalar(x.n, toDouble);
    }
  }

  lemma NumeralIsScalar(n: Numeral, toDouble: JsonNumbers.ToDouble)
    ensures var v := NumeralValue(n, toDouble); v.Some? ==> !v.value.Arr? && !v.value.Obj?
  {
    hide IsInteger, IntegerOf, NumeralText;
  }

  /** A document that begins with such a text is accepted, with the value the text denotes. */
  lemma ParsesBeginning(c: Config, root: Value, g: string, x: Syntax)
    requires Begins(c, g, x)
    ensures Readable(x, c.toDouble) && Succeeds(Parse(c, root)) && Parse(c, root).value == Denote(x, c.toDouble)
  {
    hide *;
    BeginsIs(c, g, x);
    AtConcat(c.document, 0, g, Render(x));
    StopsIfLongest(c.document, |g|, x, c.allowComments);
    var s := State(0, 0, []);
    ReadsValue(c, root, s, g, x);
    ReadsSyntaxIs(c, root, s, g, x);
    SucceedsIs(ReadValue(c, root, s));
    ParseFrom(c, root);
    DenotesKind(x, c.allowComments, c.toDouble);
  }

  /** What parse has read when it returns true. */
  lemma ParseIsDenoted(c: Config, root: Value) returns (g: string, x: Syntax)
    requires Succeeds(Parse(c, root))
    ensures Begins(c, g, x)
  {
    hide *;
    var s := State(0, 0, []);
    ParseFrom(c, root);
    SucceedsIs(ReadValue(c, root, s));
    g, x := ReadIsDenoted(c, root, s);
    TextHereIs(c, 0, g, x, ReadValue(c, root, s).state.pos);
    AtConcat(c.document, 0, g, Render(x));
    StopsIfLongest(c.document, |g|, x, c.allowComments);
    DenotesKind(x, c.allowComments, c.toDouble);
    BeginsIs(c, g, x);
  }

  /** parse returns true if and only if the document begins with a gap and a text of its grammar that
      can be read, fits below the stack limit, and is a container if one is asked for; and then the
      root is the value of that text.  What follows the text does not matter. */
  lemma ParsesExactly(c: Config, root: Value)
    ensures var r := Parse(c, root);
            && (r.Done? && r.ok <==> exists g, x :: Begins(c, g, x))
            && (forall g, x | Begins(c, g, x) :: Readable(x, c.toDouble) && r == Done(true, Denote(x, c.toDouble), r.state))
  {
    hide *;
    var r := Parse(c, root);
    SucceedsIs(r);
    forall g, x | Begins(c, g, x)
      ensures Readable(x, c.toDouble) && r.Done? && r.ok && r.value == Denote(x, c.toDouble)
    {
      ParsesBeginning(c, root, g, x);
    }
    if Succeeds(r) {
      var g, x := ParseIsDenoted(c, root);
    }
  }

  // ---------------------------------------------------------------------------
  // Cut-off documents
  // ---------------------------------------------------------------------------

  /** Where an accepted container of a longer document starts, no number does. */
  lemma OneStart(c: Config, g: string, x: Syntax, h: string, y: Syntax)
    requires At(c.document, 0, g + Render(x)) && Gap(g, c.allowComments) && Accepted(x, c.allowComments)
    requires x.ArrayLiteral? || x.ObjectLiteral?
    requires At(c.document, 0, h + Render(y)) && Gap(h, c.allowComments) && Accepted(y, c.allowComments)
    ensures !y.NumberLiteral?
  {
    hide *;
    AtConcat(c.document, 0, g, Render(x));
    AtConcat(c.document, 0, h, Render(y));
    NextTokenSkips(c, 0, g);
    NextTokenSkips(c, 0, h);
    if y.NumberLiteral? {
      AcceptedScalar(y, c.allowComments, z => None);
      NumeralStart(y.n);
      AtFirst(c.document, |h|, Render(y));
      DigitStarts(c.document[|h|]);
      ScanHere(c.document, |h|);
      NextTokenIs(c, |h|, Scan(c.document, |h|));
      ContainerStart(x);
      AtFirst(c.document, |g|, Render(x));
      ScanContainer(c.document, |g|);
      NextTokenIs(c, |g|, Scan(c.document, |g|));
    }
  }

  lemma ContainerStart(x: Syntax)
    requires x.ArrayLiteral? || x.ObjectLiteral?
    ensures Render(x) != "" && (Render(x)[0] == '[' || Render(x)[0] == '{')
  {
    hide ItemsText, MembersText;
  }

  lemma ScanContainer(document: string, i: nat)
    requires i < |document| && (document[i] == '[' || document[i] == '{')
    ensures Scan(document, i).kind == ArrayBegin || Scan(document, i).kind == ObjectBegin
  {
    ScanHere(document, i);
    hide Scan;
  }

  /** A container's text is read to its closing bracket, or not at all. */
  lemma ContainerEnd(c: Config, g: string, x: Syntax)
    requires At(c.document, 0, g + Render(x)) && Gap(g, c.allowComments) && Accepted(x, c.allowComments)
    requires x.ArrayLiteral? || x.ObjectLiteral?
    ensures var r := ReadValue(c, Null, State(0, 0, []));
            Succeeds(r) ==> r.state.pos == |g + Render(x)|
  {
    hide *;
    var s := State(0, 0, []);
    AtConcat(c.document, 0, g, Render(x));
    StopsByKind(c.document, |g|, x);
    SucceedsIs(ReadValue(c, Null, s));
    FailsOrSucceeds(ReadValue(c, Null, s));
    if Readable(x, c.toDouble) {
      ReadsValue(c, Null, s, g, x);
      ReadsSyntaxIs(c, Null, s, g, x);
    } else {
      RefusesValue(c, Null, s, g, x);
    }
  }

  /** A document that is cut off inside its object or array is refused. */
  lemma CutOffRefused(c: Config, root: Value, whole: string, g: string, x: Syntax)
    requires whole == g + Render(x) && Gap(g, c.allowComments) && Accepted(x, c.allowComments)
    requires x.ArrayLiteral? || x.ObjectLiteral?
    requires |c.document| < |whole| && c.document == whole[..|c.document|]
    ensures Fails(Parse(c, root))
  {
    hide *;
    FailsOrSucceeds(Parse(c, root));
    if Succeeds(Parse(c, root)) {
      var h, y := ParseIsDenoted(c, root);
      BeginsIs(c, h, y);
      var full := c.(document := whole);
      AtBound(c.document, 0, h + Render(y));
      Widen(c.document, whole, h + Render(y));
      AtAll(whole, g + Render(x));
      OneStart(full, g, x, h, y);
      StopsByKind(whole, |h|, y);
      var s := State(0, 0, []);
      ReadsValue(full, Null, s, h, y);
      ReadsSyntaxIs(full, Null, s, h, y);
      SucceedsIs(ReadValue(full, Null, s));
      ContainerEnd(full, g, x);
    }
  }

  lemma Widen(part: string, whole: string, text: string)
    requires |part| <= |whole| && part == whole[..|part|] && At(part, 0, text)
    ensures At(whole, 0, text)
  {
    assert whole[0..|text|] == part[0..|text|];
  }

  /** In particular a text of RFC 8259. */
  lemma TruncatedRefused(c: Config, root: Value, whole: string, before: string, x: Syntax)
    requires whole == before + Render(x) && Blank(before) && WellFormed(x) && (x.ArrayLiteral? || x.ObjectLiteral?)
    requires |c.document| < |whole| && c.document == whole[..|c.document|]
    ensures Fails(Parse(c, root))
  {
    hide *;
    BlankIsGap(before, c.allowComments);
    WellFormedIsAccepted(x, c.allowComments);
    CutOffRefused(c, root, whole, before, x);
  }

  // ---------------------------------------------------------------------------
  // Numbers
  // ---------------------------------------------------------------------------

  /** What reading the text of a number comes to: an integer of 64 bits exactly; any other number as
      the double that its whole text converts to, or an error at the number. */
  ghost predicate ReadsNumeral(c: Config, v: Value, s: State, start: nat, n: Numeral, r: Outcome) {
    var text := NumeralText(n);
    var end := start + |text|;
    if IsInteger(n) then r == Done(true, if IntegerOf(n) <= 2147483647 then Int(IntegerOf(n)) else UInt(IntegerOf(n)), s.(pos := end))
    else
      match c.toDouble(text)
      case Some(x) => r == Done(true, Real(x), s.(pos := end))
      case None =>
        r == Done(false, v, State(end, s.depth, s.errors + [ErrorInfo(Token(Number, start, end), NotANumber, None)]))
  }

  lemma NumberTokenIs(c: Config, v: Value, s: State, t: Token, n: Numeral)
    requires s.pos <= |c.document| && s.depth < STACK_LIMIT && ReadAsNumeral(n) && NextToken(c, s.pos) == t && t.kind == Number
    requires t.start < t.end <= |c.document| && c.document[t.start..t.end] == NumeralText(n)
    ensures ReadsNumeral(c, v, s, t.start, n, ReadValue(c, v, s))
  {
    hide *;
    NumberReadIs(c, v, s, t);
    NumeralValueIs(n, c.toDouble);
    NumeralOutcome(c, v, s, t, n, ReadValue(c, v, s));
  }

  lemma NumberReadIs(c: Config, v: Value, s: State, t: Token)
    requires s.pos <= |c.document| && s.depth < STACK_LIMIT && NextToken(c, s.pos) == t && t.kind == Number
    ensures t.start < t.end <= |c.document|
    ensures ReadValue(c, v, s) ==
            match JsonNumbers.NumberValue(c.document[t.start..t.end], c.toDouble)
            case Some(x) => Done(true, x, s.(pos := t.end))
            case None => Done(false, v, State(t.end, s.depth, s.errors + [ErrorInfo(t, NotANumber, None)]))
  {
    hide JsonNumbers.NumberValue, ReadMembers, ReadArray, NextToken, Regular;
  }

  lemma NumeralOutcome(c: Config, v: Value, s: State, t: Token, n: Numeral, r: Outcome)
    requires t.kind == Number && t.end == t.start + |NumeralText(n)| && ReadAsNumeral(n)
    requires r == match NumeralValue(n, c.toDouble)
                  case Some(x) => Done(true, x, s.(pos := t.end))
                  case None => Done(false, v, State(t.end, s.depth, s.errors + [ErrorInfo(t, NotANumber, None)]))
    ensures ReadsNumeral(c, v, s, t.start, n, r)
  {
    hide NumeralText, ReadAsNumeral, IntegerOf, IsInteger;
  }

  /** A number of RFC 8259, or one that lacks digits, at the cursor after a gap. */
  lemma NumeralInDocument(c: Config, v: Value, s: State, g: string, n: Numeral)
    requires s.pos <= |c.document| && s.depth < STACK_LIMIT && Gap(g, c.allowComments) && ReadAsNumeral(n)
    requires At(c.document, s.pos, g + NumeralText(n)) && Delimited(c.document, s.pos + |g| + |NumeralText(n)|)
    ensures ReadsNumeral(c, v, s, s.pos + |g|, n, ReadValue(c, v, s))
  {
    hide *;
    var i := s.pos + |g|;
    AcceptedScalar(NumberLiteral(n), c.allowComments, c.toDouble);
    AtConcat(c.document, s.pos, g, NumeralText(n));
    DelimitedStops(c.document, i, NumberLiteral(n), c.allowComments);
    StopsIs(c.document, i, n);
    NextTokenSkips(c, s.pos, g);
    NextTokenIs(c, i, Scan(c.document, i));
    NumeralStart(n);
    AtSplit(c.document, i, NumeralText(n), |NumeralText(n)|);
    assert NumeralText(n)[..|NumeralText(n)|] == NumeralText(n);
    NumberTokenIs(c, v, s, NextToken(c, s.pos), n);
  }
}
