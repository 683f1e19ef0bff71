/**
 The text of each token, both ways: what is read for a number, a string, a literal or a symbol is the
 text of one, and any token but a closing brace may stand for the comma after a comment.
 */
module JsonLexemes {
  import opened JsonValues
  import opened JsonScanner
  import opened JsonParsing
  import opened JsonStrings
  import opened JsonTokens
  import opened JsonGrammar
  import opened JsonGaps

  // ---------------------------------------------------------------------------
  // Numbers
  // ---------------------------------------------------------------------------

  lemma {:induction false} DigitsEndIs(document: string, i: nat)
    requires i <= |document|
    ensures Figures(document[i..DigitsEnd(document, i)])
    decreases |document| - i
  {
    if i < |document| && IsDigit(document[i]) {
      DigitsEndIs(document, i + 1);
      assert document[i..DigitsEnd(document, i)] == [document[i]] + document[i + 1..DigitsEnd(document, i + 1)];
    }
  }

  lemma FractionEndIs(document: string, i: nat) returns (f: Option<string>)
    requires i <= |document|
    ensures (f.Some? ==> Figures(f.value)) && document[i..FractionEnd(document, i)] == FractionText(f)
  {
    f := None;
    if Peek(document, i) == '.' {
      DigitsEndIs(document, i + 1);
      hide DigitsEnd, Figures;
      f := Some(document[i + 1..DigitsEnd(document, i + 1)]);
      assert document[i..DigitsEnd(document, i + 1)] == [document[i]] + f.value;
    }
  }

  lemma ExponentEndIs(document: string, i: nat) returns (e: Option<Exponent>)
    requires i <= |document|
    ensures (e.Some? ==> Figures(e.value.digits)) && document[i..ExponentEnd(document, i)] == ExponentText(e)
  {
    e := None;
    if Peek(document, i) == 'e' || Peek(document, i) == 'E' {
      var sign := Peek(document, i + 1);
      var signed := sign == '+' || sign == '-';
      var next := if signed then i + 2 else i + 1;
      DigitsEndIs(document, next);
      hide DigitsEnd, Figures;
      var digits := document[next..DigitsEnd(document, next)];
      e := Some(Exponent(document[i] == 'E', if signed then Some(sign == '+') else None, digits));
      MarkAndRest(document, i, next, DigitsEnd(document, next));
      assert document[i + 1..next] == SignText(e.value.sign);
    }
  }

  lemma MarkAndRest(document: string, i: nat, next: nat, end: nat)
    requires i < next <= end <= |document|
    ensures document[i..end] == [document[i]] + (document[i + 1..next] + document[next..end])
  {
  }

  lemma ThreeParts(document: string, i: nat, d: nat, f: nat, e: nat)
    requires i <= d <= f <= e <= |document|
    ensures document[i..e] == document[i..d] + (document[d..f] + document[f..e])
  {
  }

  lemma FiguresFrom(document: string, i: nat, end: nat)
    requires i < end <= |document| && IsDigit(document[i]) && Figures(document[i + 1..end])
    ensures Figures(document[i..end])
  {
    assert document[i..end] == [document[i]] + document[i + 1..end];
  }

  lemma NumberEndParts(document: string, i: nat)
    requires i <= |document|
    ensures var d := DigitsEnd(document, i); var f := FractionEnd(document, d);
            && i <= d <= f <= NumberEnd(document, i) <= |document| && NumberEnd(document, i) == ExponentEnd(document, f)
  {
  }

  /** What is read for a number is one. */
  lemma NumberIs(document: string, i: nat) returns (n: Numeral)
    requires i < |document| && (IsDigit(document[i]) || document[i] == '-')
    ensures i < NumberEnd(document, i + 1) <= |document|
    ensures ReadAsNumeral(n) && NumeralText(n) == document[i..NumberEnd(document, i + 1)]
  {
    hide *;
    NumberEndParts(document, i + 1);
    var d := DigitsEnd(document, i + 1);
    var f := FractionEnd(document, d);
    DigitsEndIs(document, i + 1);
    var fraction := FractionEndIs(document, d);
    var exponent := ExponentEndIs(document, f);
    ThreeParts(document, i, d, f, NumberEnd(document, i + 1));
    if document[i] == '-' {
      n := Numeral(true, document[i + 1..d], fraction, exponent);
      assert document[i..d] == "-" + n.whole;
      assert "-" + (n.whole + (FractionText(fraction) + ExponentText(exponent))) == ("-" + n.whole) + (FractionText(fraction) + ExponentText(exponent));
    } else {
      FiguresFrom(document, i, d);
      n := Numeral(false, document[i..d], fraction, exponent);
      assert "" + (n.whole + (FractionText(fraction) + ExponentText(exponent))) == n.whole + (FractionText(fraction) + ExponentText(exponent));
    }
    NumeralUnfold(n);
  }

  lemma NumeralUnfold(n: Numeral)
    ensures NumeralText(n) == (if n.minus then "-" else "") + (n.whole + (FractionText(n.fraction) + ExponentText(n.exponent)))
    ensures ReadAsNumeral(n) <==>
            && (n.minus || n.whole != "") && Figures(n.whole)
            && (n.fraction.Some? ==> Figures(n.fraction.value))
            && (n.exponent.Some? ==> Figures(n.exponent.value.digits))
  {
    hide FractionText, ExponentText, Figures;
  }

  // ---------------------------------------------------------------------------
  // Strings
  // ---------------------------------------------------------------------------

  lemma QuotedUnfold(t: string)
    ensures QuotedRest(t) <==>
            t != "" && if t[0] == '"' then t == "\"" else if t[0] == '\\' then |t| > 1 && QuotedRest(t[2..]) else QuotedRest(t[1..])
  {
  }

  /** Where a string ends. */
  lemma {:induction false} QuotedIs(document: string, i: nat, end: nat)
    requires i <= end <= |document|
    ensures QuotedRest(document[i..end]) <==> StringEnd(document, i) == Extent(true, end)
    decreases end - i
  {
    hide QuotedRest;
    var t := document[i..end];
    QuotedUnfold(t);
    if i < end {
      assert t[0] == document[i];
      if document[i] == '"' {
      } else if document[i] == '\\' {
        if i + 1 < end {
          assert t[2..] == document[i + 2..end];
          QuotedIs(document, i + 2, end);
        }
      } else {
        assert t[1..] == document[i + 1..end];
        QuotedIs(document, i + 1, end);
      }
    }
  }

  lemma HexAt(document: string, i: nat)
    requires i + 4 <= |document| && HexRun(document, i, 4, 0).Code?
    ensures IsHex(document[i..i + 4])
  {
    var h := document[i..i + 4];
    assert forall k :: 0 <= k < 4 ==> h[k] == document[i + k];
    HexDigitIs(h[0]);
    HexDigitIs(h[1]);
    HexDigitIs(h[2]);
    HexDigitIs(h[3]);
    hide HexDigit, DigitValue;
    HexRunStep(document, i, 4, 0);
    if HexDigit(h[0]).Some? {
      var n1 := HexDigit(h[0]).value;
      HexRunStep(document, i + 1, 3, n1);
      if HexDigit(h[1]).Some? {
        var n2 := n1 * 16 + HexDigit(h[1]).value;
        HexRunStep(document, i + 2, 2, n2);
        if HexDigit(h[2]).Some? {
          HexRunStep(document, i + 3, 1, n2 * 16 + HexDigit(h[2]).value);
        }
      }
    }
  }

  /** A \u escape that decodes is one of four digits. */
  lemma UnitHere(document: string, i: nat, end: nat)
    requires i + 2 <= end <= |document| && document[i] == '\\' && document[i + 1] == 'u'
    requires EscapeSequence(document, i + 2, end).Code?
    ensures i + 6 <= end
    ensures var p := Unit(document[i + 2..i + 6]); WellSpelled(p) && Spelling(p) == document[i..i + 6]
    ensures StringEnd(document, i) == StringEnd(document, i + 6)
  {
    HexAt(document, i + 2);
    var h := document[i + 2..i + 6];
    hide HexRun, IsHex, StringEnd, At;
    assert document[i..i + 6] == "\\u" + h;
    AtHere(document, i, i + 6);
    StringEndUnit(document, i, h);
  }

  lemma AtHere(document: string, i: nat, end: nat)
    requires i <= end <= |document|
    ensures At(document, i, document[i..end])
  {
  }

  lemma CodePointUnits(document: string, i: nat, end: nat)
    requires i <= end <= |document| && CodePoint(document, i, end).Code?
    ensures EscapeSequence(document, i, end).Code?
    ensures var next := CodePoint(document, i, end).next;
            || next == i + 4
            || (next == i + 10 <= end && document[i + 4] == '\\' && document[i + 5] == 'u' && EscapeSequence(document, i + 6, end).Code?)
  {
    hide HexRun;
  }

  lemma DecodeTurn(document: string, i: nat, end: nat)
    requires i < end <= |document| && Decode(document, i, end).Text? && document[i] != '"'
    ensures document[i] != '\\' ==> Decode(document, i + 1, end).Text?
    ensures document[i] == '\\' ==>
              && i + 2 <= end
              && if document[i + 1] == 'u' then
                   && CodePoint(document, i + 2, end).Code?
                   && Decode(document, CodePoint(document, i + 2, end).next, end).Text?
                 else ShortEscape(document[i + 1]).Some? && Decode(document, i + 2, end).Text?
  {
    hide CodePoint, ShortEscape, CodePointToUtf8;
  }

  lemma StringTurn(document: string, i: nat, end: nat)
    requires i <= end < |document| && StringEnd(document, i) == Extent(true, end + 1)
    ensures i < end ==> document[i] != '"'
    ensures i < end && document[i] != '\\' ==> StringEnd(document, i + 1) == Extent(true, end + 1)
    ensures i + 2 <= end && document[i] == '\\' ==> StringEnd(document, i + 2) == Extent(true, end + 1)
  {
  }

  /** The pieces read by one turn of the loop: a character, an escape, or two escapes. */
  lemma PiecesHere(document: string, i: nat, end: nat) returns (ps: seq<Piece>, next: nat)
    requires i < end < |document| && StringEnd(document, i) == Extent(true, end + 1) && Decode(document, i, end).Text?
    ensures i < next <= end && StringEnd(document, next) == Extent(true, end + 1) && Decode(document, next, end).Text?
    ensures AllWellSpelled(ps) && Spellings(ps) == document[i..next]
  {
    hide *;
    StringTurn(document, i, end);
    DecodeTurn(document, i, end);
    if document[i] != '\\' {
      ps, next := [Raw(document[i])], i + 1;
      OnePiece(Raw(document[i]));
      RawWellSpelled(document[i]);
    } else if document[i + 1] == 'u' {
      CodePointUnits(document, i + 2, end);
      UnitHere(document, i, end);
      var p := Unit(document[i + 2..i + 6]);
      OnePiece(p);
      ps, next := [p], CodePoint(document, i + 2, end).next;
      if next != i + 6 {
        UnitHere(document, i + 6, end);
        var q := Unit(document[i + 8..i + 12]);
        PieceFirst(p, [q]);
        OnePiece(q);
        ps := [p] + [q];
        assert document[i..i + 12] == document[i..i + 6] + document[i + 6..i + 12];
      }
    } else {
      ps, next := [Short(document[i + 1])], i + 2;
      ShortEscapeIs(document[i + 1]);
      OnePiece(ps[0]);
      ShortWellSpelled(document[i + 1]);
    }
  }

  lemma RawWellSpelled(c: char)
    requires c != '"' && c != '\\'
    ensures WellSpelled(Raw(c)) && Spelling(Raw(c)) == [c]
  {
  }

  lemma ShortWellSpelled(letter: char)
    requires IsEscape(letter)
    ensures WellSpelled(Short(letter)) && Spelling(Short(letter)) == ['\\', letter]
  {
  }

  lemma OnePiece(p: Piece)
    ensures AllWellSpelled([p]) <==> WellSpelled(p)
    ensures Spellings([p]) == Spelling(p)
  {
    hide Spelling, WellSpelled;
    var ps := [p];
    assert ps[0] == p && ps[1..] == [];
  }

  lemma PieceFirst(p: Piece, ps: seq<Piece>)
    ensures Spellings([p] + ps) == Spelling(p) + Spellings(ps)
    ensures AllWellSpelled([p] + ps) <==> WellSpelled(p) && AllWellSpelled(ps)
  {
    hide Spelling, WellSpelled;
    var all := [p] + ps;
    assert all[0] == p && all[1..] == ps;
    assert forall i :: 0 <= i < |ps| ==> ps[i] == all[i + 1];
  }

  lemma {:induction false} PiecesConcat(a: seq<Piece>, b: seq<Piece>)
    ensures Spellings(a + b) == Spellings(a) + Spellings(b)
    ensures AllWellSpelled(a + b) <==> AllWellSpelled(a) && AllWellSpelled(b)
    decreases |a|
  {
    hide Spelling, WellSpelled, Spellings, AllWellSpelled;
    if a == [] {
      NoPieces();
      assert a + b == b;
    } else {
      var p, rest := a[0], a[1..];
      PiecesConcat(rest, b);
      PieceFirst(p, rest);
      PieceFirst(p, rest + b);
      assert a == [p] + rest && a + b == [p] + (rest + b);
    }
  }

  lemma NoPieces()
    ensures AllWellSpelled([]) && Spellings([]) == ""
  {
  }

  /** A string that is decoded without an error is made of characters and escapes. */
  lemma {:induction false} StringPieces(document: string, i: nat, end: nat) returns (ps: seq<Piece>)
    requires i <= end < |document| && StringEnd(document, i) == Extent(true, end + 1) && Decode(document, i, end).Text?
    ensures AllWellSpelled(ps) && Spellings(ps) == document[i..end]
    decreases end - i
  {
    hide *;
    NoPieces();
    ps := [];
    if i < end {
      var first, next := PiecesHere(document, i, end);
      var rest := StringPieces(document, next, end);
      PiecesConcat(first, rest);
      ps := first + rest;
      assert document[i..end] == document[i..next] + document[next..end];
    }
  }

  // ---------------------------------------------------------------------------
  // Any token
  // ---------------------------------------------------------------------------

  /** The scan of a token whose first character is at i. */
  lemma ScanHere(document: string, i: nat)
    requires i < |document| && !IsSpace(document[i])
    ensures SpacesEnd(document, i) == i
    ensures var c := document[i];
            Scan(document, i) ==
            if Symbol(c).Some? then Token(Symbol(c).value, i, i + 1)
            else if c == '"' then TokenOf(StringToken, i, StringEnd(document, i + 1))
            else if c == '/' then TokenOf(Comment, i, CommentEnd(document, i + 1))
            else if c == 't' then TokenOf(True, i, LiteralEnd(document, i + 1, "rue"))
            else if c == 'f' then TokenOf(False, i, LiteralEnd(document, i + 1, "alse"))
            else if c == 'n' then TokenOf(NullToken, i, LiteralEnd(document, i + 1, "ull"))
            else if c == '\0' then Token(EndOfStream, i, i + 1)
            else if IsDigit(c) || c == '-' then Token(Number, i, NumberEnd(document, i + 1))
            else Token(ErrorToken, i, i + 1)
  {
    hide StringEnd, CommentEnd, LiteralEnd, NumberEnd, TokenOf;
  }

  /** The first character of a token. */
  lemma TokenHere(document: string, i: nat)
    requires i <= |document|
    ensures var t := Scan(document, i);
            && t.start <= |document| && SpacesEnd(document, i) == t.start
            && (t.start < |document| ==> !IsSpace(document[t.start]) && Scan(document, t.start) == t)
            && (t.start == |document| ==> t.kind == EndOfStream)
  {
    SpacesEndTwice(document, i);
    ScanFrom(document, i);
    hide SpacesEnd, StringEnd, CommentEnd, LiteralEnd, NumberEnd;
  }

  lemma LiteralEndIs(document: string, i: nat, first: char, rest: string)
    requires i < |document| && document[i] == first && LiteralEnd(document, i + 1, rest).ok
    ensures LiteralEnd(document, i + 1, rest).end == i + 1 + |rest| <= |document|
    ensures document[i..i + 1 + |rest|] == [first] + rest
  {
    assert document[i..i + 1 + |rest|] == [document[i]] + document[i + 1..i + 1 + |rest|];
  }

  lemma LiteralText(document: string, i: nat, t: Token)
    requires i < |document| && !IsSpace(document[i]) && Scan(document, i) == t
    ensures t.start == i && t.end <= |document|
    ensures t.kind == NullToken ==> document[i..t.end] == ['n'] + "ull"
    ensures t.kind == True ==> document[i..t.end] == ['t'] + "rue"
    ensures t.kind == False ==> document[i..t.end] == ['f'] + "alse"
  {
    ScanHere(document, i);
    hide Scan, SpacesEnd, StringEnd, CommentEnd, LiteralEnd, NumberEnd;
    if t.kind == NullToken {
      LiteralEndIs(document, i, 'n', "ull");
    } else if t.kind == True {
      LiteralEndIs(document, i, 't', "rue");
    } else if t.kind == False {
      LiteralEndIs(document, i, 'f', "alse");
    }
  }

  /** The text of a symbol, a number and a string. */
  lemma TokenText(document: string, i: nat, t: Token)
    requires i < |document| && !IsSpace(document[i]) && Scan(document, i) == t
    ensures t.start == i && t.end <= |document|
    ensures t.kind == Number ==> (IsDigit(document[i]) || document[i] == '-') && t.end == NumberEnd(document, i + 1)
    ensures t.kind == StringToken ==> document[i] == '"' && StringEnd(document, i + 1) == Extent(true, t.end)
    ensures t.kind in [ObjectBegin, ObjectEnd, ArrayBegin, ArrayEnd, ArraySeparator, MemberSeparator] ==>
              t.end == i + 1 && Symbol(document[i]) == Some(t.kind)
  {
    ScanHere(document, i);
    hide Scan, SpacesEnd, StringEnd, CommentEnd, LiteralEnd, NumberEnd;
  }

  // ---------------------------------------------------------------------------
  // Separators
  // ---------------------------------------------------------------------------

  lemma JunkUnfold(t: string)
    ensures t != "" && t[0] == '"' && QuotedRest(t[1..]) ==> Junk(t)
    ensures forall n: Numeral :: ReadAsNumeral(n) && t == NumeralText(n) ==> Junk(t)
    ensures Word(t) ==> Junk(t)
    ensures |t| == 2 && t[0] == '/' && t[1] != '*' && t[1] != '/' ==> Junk(t)
    ensures |t| == 1 && !IsSpace(t[0]) && !IsDigit(t[0]) && t[0] !in ['"', '-', '/', ',', '}'] ==> Junk(t)
  {
    hide QuotedRest, ReadAsNumeral, NumeralText, Word;
  }

  lemma WordIs()
    ensures Word(['n'] + "ull") && Word(['t'] + "rue") && Word(['f'] + "alse")
  {
    assert ['n'] + "ull" == "null" && ['t'] + "rue" == "true" && ['f'] + "alse" == "false";
  }

  /** An error token, unless it reaches the end of the document. */
  lemma ErrorText(document: string, i: nat, t: Token)
    requires i < |document| && !IsSpace(document[i]) && Scan(document, i) == t
    requires t.kind == ErrorToken || t.kind == EndOfStream
    ensures t.start == i < t.end <= |document|
    ensures document[i] != '"' && document[i] != '/' && t.end < |document| ==>
              t.end == i + 1 && !IsDigit(document[i]) && document[i] !in ['-', ',', '}']
    ensures document[i] == '/' && t.end < |document| ==> t.end == i + 2 && document[i + 1] != '*' && document[i + 1] != '/'
    ensures document[i] == '"' ==> t.end == |document|
  {
    ScanHere(document, i);
    StringFailsAtEnd(document, i + 1);
    StarEndIs(document, if i + 2 <= |document| then i + 2 else i + 1);
    hide Scan, SpacesEnd, StringEnd, LiteralEnd, NumberEnd, StarEnd, LineEnd;
    LiteralFails(document, i + 1);
  }

  lemma {:induction false} StringFailsAtEnd(document: string, i: nat)
    requires i <= |document|
    ensures !StringEnd(document, i).ok ==> StringEnd(document, i).end == |document|
    decreases |document| - i
  {
    if i < |document| && document[i] != '"' {
      StringFailsAtEnd(document, if document[i] == '\\' then After(document, i + 1) else i + 1);
    }
  }

  lemma LiteralFails(document: string, i: nat)
    requires i <= |document|
    ensures forall rest :: !LiteralEnd(document, i, rest).ok ==> LiteralEnd(document, i, rest).end == i
  {
  }

  /** Any token but a comma or a closing brace, and but a comment, may stand for the comma. */
  lemma JunkIs(document: string, i: nat, t: Token)
    requires i < |document| && !IsSpace(document[i]) && Scan(document, i) == t && t.end < |document|
    requires t.kind != Comment && t.kind != ArraySeparator && t.kind != ObjectEnd
    ensures t.start == i < t.end && Junk(document[i..t.end])
  {
    hide *;
    ScanPositive(document, i);
    var text := document[i..t.end];
    JunkUnfold(text);
    TokenText(document, i, t);
    if t.kind in [True, False, NullToken] {
      LiteralText(document, i, t);
      WordIs();
    } else if t.kind == Number {
      var n := NumberIs(document, i);
    } else if t.kind == StringToken {
      assert text[1..] == document[i + 1..t.end];
      QuotedIs(document, i + 1, t.end);
    } else if t.kind == ErrorToken || t.kind == EndOfStream {
      ErrorText(document, i, t);
    } else {
      SymbolIs(document[i]);
    }
  }

  lemma ScanPositive(document: string, i: nat)
    requires i < |document| && !IsSpace(document[i])
    ensures Scan(document, i).start == i < Scan(document, i).end <= |document|
  {
    ScanHere(document, i);
    hide Scan, StringEnd, CommentEnd, LiteralEnd, NumberEnd;
  }

  lemma SymbolIs(c: char)
    ensures Symbol(c).Some? && Symbol(c) != Some(ArraySeparator) && Symbol(c) != Some(ObjectEnd) ==>
              !IsSpace(c) && !IsDigit(c) && c !in ['"', '-', '/', ',', '}']
  {
  }

  /** What follows a separator: a gap, a member name, or a closing brace. */
  predicate AfterSeparator(document: string, i: nat) {
    i < |document| && (IsSpace(document[i]) || document[i] in ['/', '"', '}'])
  }

  ghost predicate Separator(t: Token, i: nat, end: nat) {
    t.start == i && t.end == end && t.kind != ObjectEnd && t.kind != Comment
  }

  lemma NumeralStart(n: Numeral)
    requires ReadAsNumeral(n)
    ensures NumeralText(n) != "" && (IsDigit(NumeralText(n)[0]) || NumeralText(n)[0] == '-')
  {
    assert NumeralText(n)[0] == if n.minus then '-' else n.whole[0];
  }

  lemma StringScanned(document: string, i: nat, end: nat)
    requires i < end <= |document| && document[i] == '"' && QuotedRest(document[i + 1..end])
    ensures Separator(Scan(document, i), i, end)
  {
    ScanHere(document, i);
    QuotedIs(document, i + 1, end);
    hide Scan, QuotedRest, StringEnd, CommentEnd, LiteralEnd, NumberEnd;
  }

  lemma NumberScanned(document: string, i: nat, n: Numeral)
    requires ReadAsNumeral(n) && At(document, i, NumeralText(n)) && Delimited(document, i + |NumeralText(n)|)
    ensures Separator(Scan(document, i), i, i + |NumeralText(n)|)
  {
    hide Scan, ReadAsNumeral, NumeralText, At, Delimited;
    BlankNothing();
    assert "" + NumeralText(n) == NumeralText(n);
    ScanNumber(document, i, "", n);
  }

  lemma BlankNothing()
    ensures Blank("")
  {
  }

  lemma WordScanned(document: string, i: nat, t: string)
    requires Word(t) && At(document, i, t)
    ensures Separator(Scan(document, i), i, i + |t|)
  {
    hide Scan, At;
    BlankNothing();
    assert "" + t == t;
    if t == "true" {
      ScanTrue(document, i, "");
    } else if t == "false" {
      ScanFalse(document, i, "");
    } else {
      ScanNull(document, i, "");
    }
  }

  lemma SlashFails(document: string, i: nat)
    requires i + 2 <= |document| && document[i] == '/' && document[i + 1] != '*' && document[i + 1] != '/'
    ensures Separator(Scan(document, i), i, i + 2)
  {
    ScanHere(document, i);
    hide Scan, LineEnd, StarEnd, StringEnd, LiteralEnd, NumberEnd;
  }

  lemma CharScanned(document: string, i: nat)
    requires i < |document| && AfterSeparator(document, i + 1)
    requires var c := document[i]; !IsSpace(c) && !IsDigit(c) && c !in ['"', '-', '/', '}']
    ensures Separator(Scan(document, i), i, i + 1)
  {
    ScanHere(document, i);
    hide Scan, CommentEnd, StringEnd, NumberEnd;
    if i + 4 <= |document| {
      assert document[i + 1] == document[i + 1..i + 4][0];
    }
    if i + 5 <= |document| {
      assert document[i + 1] == document[i + 1..i + 5][0];
    }
  }

  /** After a comment, a separator is read as one token that is neither a closing brace nor a comment. */
  lemma JunkScanned(document: string, i: nat, t: string)
    requires (Junk(t) || t == ",") && At(document, i, t) && AfterSeparator(document, i + |t|)
    ensures Separator(Scan(document, i), i, i + |t|)
  {
    hide *;
    DelimitedAfter(document, i + |t|);
    AtSplit(document, i, t, |t|);
    assert t[..|t|] == t;
    if t != "" && t[0] == '"' && QuotedRest(t[1..]) {
      AtFirst(document, i, t);
      assert t[1..] == document[i + 1..i + |t|];
      StringScanned(document, i, i + |t|);
    } else if exists n: Numeral :: ReadAsNumeral(n) && t == NumeralText(n) {
      var n: Numeral :| ReadAsNumeral(n) && t == NumeralText(n);
      NumberScanned(document, i, n);
    } else if Word(t) {
      WordScanned(document, i, t);
    } else {
      JunkLeft(t);
      if |t| == 2 {
        SlashFails(document, i);
      } else {
        CharScanned(document, i);
      }
    }
  }

  lemma JunkLeft(t: string)
    requires (Junk(t) || t == ",") && !(t != "" && t[0] == '"' && QuotedRest(t[1..]))
    requires !(exists n: Numeral :: ReadAsNumeral(n) && t == NumeralText(n)) && !Word(t)
    ensures || (|t| == 2 && t[0] == '/' && t[1] != '*' && t[1] != '/')
            || (|t| == 1 && !IsSpace(t[0]) && !IsDigit(t[0]) && t[0] !in ['"', '-', '/', '}'])
  {
    hide QuotedRest, ReadAsNumeral, NumeralText, Word;
  }

  lemma DelimitedAfter(document: string, i: nat)
    requires AfterSeparator(document, i)
    ensures Delimited(document, i) && i < |document|
  {
  }
}
