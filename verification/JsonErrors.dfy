/**
 What the reader complains of, and where: the first thing that is wrong in a text, after any text that
 is right.
 */
module JsonErrors {
  import opened JsonValues
  import JsonNumbers
  import opened JsonScanner
  import opened JsonParsing
  import opened JsonStrings
  import opened JsonTokens
  import opened JsonGrammar
  import opened JsonGaps
  import opened JsonLexemes
  import opened JsonAcceptance
  import opened JsonRejection

  /** The call returns false, having added one error, at this token. */
  predicate Complains(r: Outcome, s: State, t: Token, message: JsonParsing.Message) {
    r.Done? && !r.ok && r.state.errors == s.errors + [ErrorInfo(t, message, None)]
  }

  predicate TurnComplains(turn: Turn, s: State, t: Token, message: JsonParsing.Message) {
    turn.Last? && Complains(turn.r, s, t, message)
  }

  lemma MembersComplain(c: Config, name: string, es: seq<Entry>, s: State, t: Token, message: JsonParsing.Message)
    requires s.pos <= |c.document| && TurnComplains(MemberTurn(c, name, es, s), s, t, message)
    ensures Complains(ReadMembers(c, name, es, s), s, t, message)
  {
    hide MemberTurn, Regular;
  }

  lemma SymbolsEnd(ch: char)
    ensures Symbol(ch).Some? ==> !IsSpace(ch) && Symbol(ch) != Some(Comment) && Symbol(ch) != Some(StringToken)
    ensures Symbol(ch) == Some(ObjectEnd) ==> ch == '}'
    ensures Symbol(ch) == Some(MemberSeparator) ==> ch == ':'
    ensures Symbol(ch) == Some(ArraySeparator) ==> ch == ','
    ensures Symbol(ch) == Some(ArrayEnd) ==> ch == ']'
  {
  }

  // ---------------------------------------------------------------------------
  // Values
  // ---------------------------------------------------------------------------

  lemma NoValueToken(c: Config, v: Value, s: State, t: Token)
    requires s.pos <= |c.document| && s.depth < STACK_LIMIT && NextToken(c, s.pos) == t && !StartsValue(t.kind)
    ensures Complains(ReadValue(c, v, s), s, t, ValueExpected)
  {
    hide NextToken, ReadMembers, ReadArray, NumberOf, StringValue, Regular, Leave;
  }

  /** A comma, a colon or a closing bracket where a value should be. */
  lemma NoValue(c: Config, v: Value, s: State, g: string, ch: char)
    requires s.pos <= |c.document| && s.depth < STACK_LIMIT && Gap(g, c.allowComments) && At(c.document, s.pos, g + [ch])
    requires ch in [',', ':', '}', ']']
    ensures Symbol(ch).Some?
    ensures Complains(ReadValue(c, v, s), s, Token(Symbol(ch).value, s.pos + |g|, s.pos + |g| + 1), ValueExpected)
  {
    hide *;
    var i := s.pos + |g|;
    FourSymbols(ch);
    AtConcat(c.document, s.pos, g, [ch]);
    AtBound(c.document, s.pos, g + [ch]);
    NextTokenSkips(c, s.pos, g);
    BlankNothing();
    assert "" + [ch] == [ch];
    ScanSymbol(c.document, i, "", ch);
    NextTokenIs(c, i, Scan(c.document, i));
    NoValueToken(c, v, s, NextToken(c, s.pos));
  }

  lemma FourSymbols(ch: char)
    requires ch in [',', ':', '}', ']']
    ensures Symbol(ch).Some? && Symbol(ch) != Some(Comment) && !StartsValue(Symbol(ch).value)
  {
  }

  // ---------------------------------------------------------------------------
  // Objects
  // ---------------------------------------------------------------------------

  lemma NoNameToken(c: Config, name: string, es: seq<Entry>, s: State, t: Token)
    requires s.pos <= |c.document| && ScanPastComments(c.document, s.pos) == t
    requires t.kind != StringToken && (t.kind == ObjectEnd ==> name != "")
    ensures TurnComplains(MemberTurn(c, name, es, s), s, t, MissingBraceOrName)
  {
    hide ScanPastComments, Decode, MemberRest, Regular, RegularTurn, RecoverEnd;
  }

  /** A symbol where a member name should be; a closing brace is one after a name that is not empty. */
  lemma NoName(c: Config, name: string, es: seq<Entry>, s: State, g: string, ch: char)
    requires s.pos <= |c.document| && Gap(g, true) && At(c.document, s.pos, g + [ch]) && Symbol(ch).Some?
    requires ch == '}' ==> name != ""
    ensures Complains(ReadMembers(c, name, es, s), s, Token(Symbol(ch).value, s.pos + |g|, s.pos + |g| + 1), MissingBraceOrName)
  {
    hide *;
    SymbolsEnd(ch);
    GapThenSymbol(c.document, s.pos, g, ch);
    var t := ScanPastComments(c.document, s.pos);
    NoNameToken(c, name, es, s, t);
    MembersComplain(c, name, es, s, t, MissingBraceOrName);
  }

  lemma NoColonToken(c: Config, key: string, es: seq<Entry>, s: State, t: Token)
    requires s.pos <= |c.document| && Scan(c.document, s.pos) == t && t.kind != MemberSeparator
    ensures TurnComplains(MemberRest(c, key, es, s), s, t, MissingColon)
  {
    hide Scan, ReadValue, MemberEnd, Put, Regular, RegularTurn, MemberOrNull, RecoverEnd;
  }

  lemma TurnSame(turn: Turn, s: State, s': State, t: Token, message: JsonParsing.Message)
    requires TurnComplains(turn, s', t, message) && s'.errors == s.errors
    ensures TurnComplains(turn, s, t, message)
  {
  }

  /** Anything but a colon after a member name, even a comment. */
  lemma NoColon(c: Config, name: string, es: seq<Entry>, s: State, g: string, ps: seq<Piece>)
    requires s.pos <= |c.document| && Gap(g, true) && Decodable(ps) && AllWellSpelled(ps) && At(c.document, s.pos, g + StringText(ps))
    requires var p := s.pos + |g| + |StringText(ps)|; p <= |c.document| && Scan(c.document, p).kind != MemberSeparator
    ensures Complains(ReadMembers(c, name, es, s), s, Scan(c.document, s.pos + |g| + |StringText(ps)|), MissingColon)
  {
    hide *;
    var p := s.pos + |g| + |StringText(ps)|;
    var t := Scan(c.document, p);
    NameScanned(c.document, s.pos, g, ps);
    MemberTurnIs(c, name, es, s, ScanPastComments(c.document, s.pos), Meanings(ps));
    NoColonToken(c, Meanings(ps), es, s.(pos := p), t);
    TurnSame(MemberTurn(c, name, es, s), s, s.(pos := p), t, MissingColon);
    MembersComplain(c, name, es, s, t, MissingColon);
  }

  lemma NoCommaToken(c: Config, key: string, es: seq<Entry>, s: State, t: Token)
    requires s.pos <= |c.document| && Scan(c.document, s.pos) == t
    requires t.kind != ObjectEnd && t.kind != ArraySeparator && t.kind != Comment
    ensures TurnComplains(MemberEnd(c, key, es, s), s, t, MissingCommaOrBrace)
  {
    hide Scan, ScanPastComments, Regular, RegularTurn, RecoverEnd;
  }

  /** A member with its name, colon and value. */
  ghost predicate MemberHere(c: Config, s: State, m: Member) {
    var p1 := s.pos + |m.before| + |StringText(m.name)|;
    var p2 := p1 + |m.beforeColon| + 1;
    && AcceptedMember(m, c.allowComments) && Decodable(m.name) && Readable(m.value, c.toDouble)
    && s.depth + Height(m.value) <= STACK_LIMIT
    && At(c.document, s.pos, m.before + StringText(m.name)) && At(c.document, p1, m.beforeColon + ":")
    && At(c.document, p2, m.afterColon + Render(m.value)) && Stops(c.document, p2 + |m.afterColon|, m.value)
  }

  /** The place after it. */
  ghost function MemberStop(s: State, m: Member): nat {
    s.pos + |m.before| + |StringText(m.name)| + |m.beforeColon| + 1 + |m.afterColon| + |Render(m.value)|
  }

  lemma MemberHereIs(c: Config, s: State, m: Member)
    ensures var p1 := s.pos + |m.before| + |StringText(m.name)|;
            var p2 := p1 + |m.beforeColon| + 1;
            && MemberStop(s, m) == p2 + |m.afterColon| + |Render(m.value)|
            && (MemberHere(c, s, m) <==>
                  && Gap(m.before, true) && AllWellSpelled(m.name) && Blank(m.beforeColon) && Gap(m.afterColon, c.allowComments)
                  && Accepted(m.value, c.allowComments) && Decodable(m.name) && Readable(m.value, c.toDouble)
                  && s.depth + Height(m.value) <= STACK_LIMIT
                  && At(c.document, s.pos, m.before + StringText(m.name)) && At(c.document, p1, m.beforeColon + ":")
                  && At(c.document, p2, m.afterColon + Render(m.value)) && Stops(c.document, p2 + |m.afterColon|, m.value))
  {
    hide Gap, AllWellSpelled, Blank, Accepted, Decodable, Readable, Height, At, StringText, Render, Stops;
  }

  /** The turn of a member up to what follows it. */
  lemma MemberIsRead(c: Config, name: string, es: seq<Entry>, s: State, m: Member)
    requires s.pos <= |c.document| && MemberHere(c, s, m)
    ensures Decodable(m.name) && Readable(m.value, c.toDouble) && MemberStop(s, m) <= |c.document|
    ensures MemberTurn(c, name, es, s) ==
            MemberEnd(c, Meanings(m.name), Put(es, KeyOf(m), Denote(m.value, c.toDouble)), s.(pos := MemberStop(s, m)))
  {
    hide *;
    MemberHereIs(c, s, m);
    var p1 := s.pos + |m.before| + |StringText(m.name)|;
    var p2 := p1 + |m.beforeColon| + 1;
    var s2, s3 := s.(pos := p2), s.(pos := MemberStop(s, m));
    var v := MemberOrNull(es, Meanings(m.name));
    NameScanned(c.document, s.pos, m.before, m.name);
    MemberTurnIs(c, name, es, s, ScanPastComments(c.document, s.pos), Meanings(m.name));
    ScanColon(c.document, p1, m.beforeColon);
    AtBound(c.document, p2, m.afterColon + Render(m.value));
    ReadsValue(c, v, s2, m.afterColon, m.value);
    ReadsSyntaxIs(c, v, s2, m.afterColon, m.value);
    MemberRestIs(c, Meanings(m.name), es, s.(pos := p1), Scan(c.document, p1), Denote(m.value, c.toDouble), s3);
    KeyIs(m);
  }

  /** Anything but a comma or a closing brace after a member, or the end of the document. */
  lemma NoCommaOrBrace(c: Config, name: string, es: seq<Entry>, s: State, m: Member)
    requires s.pos <= |c.document| && MemberHere(c, s, m) && MemberStop(s, m) <= |c.document|
    requires var t := Scan(c.document, MemberStop(s, m)); t.kind != ObjectEnd && t.kind != ArraySeparator && t.kind != Comment
    ensures Complains(ReadMembers(c, name, es, s), s, Scan(c.document, MemberStop(s, m)), MissingCommaOrBrace)
  {
    hide *;
    MemberIsRead(c, name, es, s, m);
    var t, s3 := Scan(c.document, MemberStop(s, m)), s.(pos := MemberStop(s, m));
    NoCommaToken(c, Meanings(m.name), Put(es, KeyOf(m), Denote(m.value, c.toDouble)), s3, t);
    TurnSame(MemberTurn(c, name, es, s), s, s3, t, MissingCommaOrBrace);
    MembersComplain(c, name, es, s, t, MissingCommaOrBrace);
  }

  // ---------------------------------------------------------------------------
  // Arrays
  // ---------------------------------------------------------------------------

  lemma NoBracketToken(c: Config, es: seq<Entry>, s: State, t: Token)
    requires s.pos <= |c.document| && ScanPastComments(c.document, s.pos) == t
    requires t.kind != ArrayEnd && t.kind != ArraySeparator
    ensures TurnComplains(ItemEnd(c, es, s), s, t, MissingCommaOrBracket)
  {
    hide ScanPastComments, Regular, RegularTurn, RecoverEnd;
  }

  lemma ItemsComplain(c: Config, index: nat, es: seq<Entry>, s: State, t: Token, message: JsonParsing.Message)
    requires s.pos <= |c.document| && TurnComplains(ItemTurn(c, index, es, s), s, t, message)
    ensures Complains(ReadItems(c, index, es, s), s, t, message)
  {
    hide ItemTurn, Regular;
  }

  /** Anything but a comma or a closing bracket after an item, past comments, or the end of the
      document. */
  lemma NoCommaOrBracket(c: Config, index: nat, es: seq<Entry>, s: State, g: string, x: Syntax)
    requires s.pos <= |c.document| && Gap(g, c.allowComments) && Accepted(x, c.allowComments) && Readable(x, c.toDouble)
    requires s.depth + Height(x) <= STACK_LIMIT && At(c.document, s.pos, g + Render(x)) && Stops(c.document, s.pos + |g|, x)
    requires var p := s.pos + |g| + |Render(x)|;
             && p <= |c.document| && ScanPastComments(c.document, p).kind != ArrayEnd
             && ScanPastComments(c.document, p).kind != ArraySeparator
    ensures Complains(ReadItems(c, index, es, s), s, ScanPastComments(c.document, s.pos + |g| + |Render(x)|), MissingCommaOrBracket)
  {
    hide *;
    var p := s.pos + |g| + |Render(x)|;
    var t, s1, child := ScanPastComments(c.document, p), s.(pos := p), Denote(x, c.toDouble);
    ReadsValue(c, Null, s, g, x);
    ReadsSyntaxIs(c, Null, s, g, x);
    ItemTurnIs(c, index, es, s, child, s1);
    NoBracketToken(c, Put(es, Index(index), child), s1, t);
    TurnSame(ItemTurn(c, index, es, s), s, s1, t, MissingCommaOrBracket);
    ItemsComplain(c, index, es, s, t, MissingCommaOrBracket);
  }

  // ---------------------------------------------------------------------------
  // Cut-off documents
  // ---------------------------------------------------------------------------

  lemma TurnMakesObject(c: Config, name: string, es: seq<Entry>, s: State)
    requires s.pos <= |c.document|
    ensures var turn := MemberTurn(c, name, es, s);
            && (turn.Last? && turn.r.Done? ==> turn.r.value.Obj?)
            && (turn.More? ==> s.pos < turn.state.pos <= |c.document|)
  {
    hide ScanPastComments, Scan, Decode, ReadValue, Put, MemberOrNull, RecoverEnd, Regular;
  }

  lemma {:induction false} MembersMakeObject(c: Config, name: string, es: seq<Entry>, s: State)
    requires s.pos <= |c.document|
    ensures ReadMembers(c, name, es, s).Done? ==> ReadMembers(c, name, es, s).value.Obj?
    decreases |c.document| - s.pos
  {
    hide *;
    TurnMakesObject(c, name, es, s);
    ReadMembersIs(c, name, es, s);
    var turn := MemberTurn(c, name, es, s);
    if turn.More? {
      MembersMakeObject(c, turn.name, turn.entries, turn.state);
    }
  }

  lemma ParseComplains(c: Config, root: Value, t: Token, message: JsonParsing.Message)
    requires Complains(ReadValue(c, root, State(0, 0, [])), State(0, 0, []), t, message)
    requires ReadValue(c, root, State(0, 0, [])).value.Obj?
    ensures Complains(Parse(c, root), State(0, 0, []), t, message)
  {
    hide ReadValue, NextToken, Regular;
  }

  lemma LeaveComplains(r: Outcome, s: State, s': State, t: Token, message: JsonParsing.Message)
    requires Complains(r, s', t, message) && s'.errors == s.errors
    ensures Complains(Leave(r), s, t, message) && Leave(r).value == r.value
  {
  }

  lemma ObjectComplains(c: Config, root: Value, t: Token, message: JsonParsing.Message)
    requires At(c.document, 0, "{") && Complains(ReadMembers(c, "", [], State(1, 1, [])), State(1, 1, []), t, message)
    ensures Complains(Parse(c, root), State(0, 0, []), t, message)
  {
    DepthBound(State(0, 0, []));
    LimitIs();
    hide *;
    BlankNothing();
    assert "" + "{" == "{";
    BraceOpens();
    ScanSymbol(c.document, 0, "", '{');
    var open := Scan(c.document, 0);
    NextTokenIs(c, 0, open);
    ContainerIsRead(c, root, State(1, 1, []), open);
    ReadValueIs(c, root, State(0, 0, []), open);
    MembersMakeObject(c, "", [], State(1, 1, []));
    ComplainsIs(ReadMembers(c, "", [], State(1, 1, [])), State(1, 1, []), t, message);
    LeaveComplains(ReadMembers(c, "", [], State(1, 1, [])), State(0, 0, []), State(1, 1, []), t, message);
    ComplainsIs(Leave(ReadMembers(c, "", [], State(1, 1, []))), State(0, 0, []), t, message);
    ParseComplains(c, root, t, message);
  }

  lemma BraceOpens()
    ensures Symbol('{') == Some(ObjectBegin)
  {
  }

  lemma ComplainsIs(r: Outcome, s: State, t: Token, message: JsonParsing.Message)
    ensures Complains(r, s, t, message) ==> r.Done? && !r.ok
  {
  }

  lemma EndIs(document: string)
    ensures Scan(document, |document|) == Token(EndOfStream, |document|, |document|)
  {
  }

  /** A document that ends after the value of its object's first member: the one error is a missing
      comma or brace, at the end. */
  lemma BraceMissing(c: Config, root: Value, m: Member)
    requires At(c.document, 0, "{") && MemberHere(c, State(1, 1, []), m) && MemberStop(State(1, 1, []), m) == |c.document|
    ensures Complains(Parse(c, root), State(0, 0, []), Token(EndOfStream, |c.document|, |c.document|), MissingCommaOrBrace)
  {
    hide *;
    AtBound(c.document, 0, "{");
    EndIs(c.document);
    NoCommaOrBrace(c, "", [], State(1, 1, []), m);
    ObjectComplains(c, root, Token(EndOfStream, |c.document|, |c.document|), MissingCommaOrBrace);
  }

  const ONE := Numeral(false, "1", None, None)
  const VPILOT: seq<Piece> := [Raw('V'), Raw('p'), Raw('i'), Raw('l'), Raw('o'), Raw('t')]

  function StatusMember(): Member {
    Member(",", "", VPILOT, "", "", NumberLiteral(ONE), "")
  }

  lemma StatusTexts(toDouble: JsonNumbers.ToDouble)
    ensures var m := StatusMember();
            && StringText(m.name) == "\"Vpilot\"" && Render(m.value) == "1" && Decodable(m.name)
            && Readable(m.value, toDouble) && Height(m.value) == 1
  {
    VpilotText();
    VpilotDecodable();
    assert JsonNumbers.Num("1"[..0]) == 0;
    assert IsInteger(ONE);
  }

  lemma StatusPlaces(document: string)
    requires document == "{\"Vpilot\":1"
    ensures |document| == 11 && At(document, 0, "{") && At(document, 1, "" + "\"Vpilot\"") && At(document, 9, "" + ":")
    ensures At(document, 10, "" + "1") && At(document, 10, "1")
  {
    assert document[1..9] == "\"Vpilot\"" == "" + "\"Vpilot\"";
    assert document[9..10] == ":" == "" + ":" && document[10..11] == "1" == "" + "1";
  }

  lemma StatusAccepted(comments: bool)
    ensures AllWellSpelled(VPILOT) && Gap("", comments) && Gap("", true) && Accepted(NumberLiteral(ONE), comments)
  {
    VpilotDecodable();
    hide Decodable;
  }

  lemma StatusFields()
    ensures var m := StatusMember();
            m.before == "" && m.beforeColon == "" && m.afterColon == "" && m.name == VPILOT && m.value == NumberLiteral(ONE)
  {
  }

  lemma LimitIsHigh()
    ensures 1 + 1 <= STACK_LIMIT
  {
  }

  lemma EndDelimits(document: string)
    ensures Delimited(document, |document|)
  {
  }

  lemma StatusHere(c: Config)
    requires c.document == "{\"Vpilot\":1"
    ensures MemberHere(c, State(1, 1, []), StatusMember()) && MemberStop(State(1, 1, []), StatusMember()) == 11
  {
    hide *;
    StatusPlaces(c.document);
    StatusTexts(c.toDouble);
    StatusAccepted(c.allowComments);
    StatusFields();
    BlankNothing();
    LimitIsHigh();
    EndDelimits(c.document);
    DelimitedStops(c.document, 10, NumberLiteral(ONE), c.allowComments);
    MemberHereIs(c, State(1, 1, []), StatusMember());
  }

  /** The status message of the program, cut off before its closing brace. */
  lemma StatusCutOff(c: Config, root: Value)
    requires c.document == "{\"Vpilot\":1"
    ensures Complains(Parse(c, root), State(0, 0, []), Token(EndOfStream, 11, 11), MissingCommaOrBrace)
  {
    StatusPlaces(c.document);
    hide *;
    StatusHere(c);
    BraceMissing(c, root, StatusMember());
  }

  lemma VpilotText()
    ensures Spellings(VPILOT) == "Vpilot"
  {
    var ps := VPILOT;
    assert ps[1..][1..] == ps[2..] && ps[2..][1..] == ps[3..] && ps[3..][1..] == ps[4..] && ps[4..][1..] == ps[5..];
    assert ps[5..][1..] == [];
    assert Spellings(ps[5..]) == "t";
    assert Spellings(ps[4..]) == "ot";
    assert Spellings(ps[3..]) == "lot";
    assert Spellings(ps[2..]) == "ilot";
    assert Spellings(ps[1..]) == "pilot";
  }

  lemma VpilotDecodable()
    ensures Decodable(VPILOT)
  {
    var ps := VPILOT;
    assert forall i :: 0 <= i < |ps| ==> ps[i].Raw?;
    RawsDecodable(ps);
  }

  lemma {:induction false} RawsDecodable(ps: seq<Piece>)
    requires forall i :: 0 <= i < |ps| ==> ps[i].Raw? && WellSpelled(ps[i])
    ensures Decodable(ps)
    decreases |ps|
  {
    if ps != [] {
      RawsDecodable(ps[1..]);
    }
  }

  // ---------------------------------------------------------------------------
  // Strings
  // ---------------------------------------------------------------------------

  lemma PrependBad(d: Decoded, s: string)
    ensures d.Bad? ==> d.Prepend(s) == d
  {
  }

  /** What comes first does not matter to an error in a string, if it decodes. */
  lemma {:induction false} BadAfter(document: string, i: nat, ps: seq<Piece>, end: nat)
    requires Decodable(ps) && AllWellSpelled(ps) && At(document, i, Spellings(ps))
    requires i + |Spellings(ps)| <= end <= |document| && Decode(document, i + |Spellings(ps)|, end).Bad?
    ensures i <= end && Decode(document, i, end) == Decode(document, i + |Spellings(ps)|, end)
    decreases |ps|
  {
    hide *;
    SpellingsUnfold(ps);
    if ps != [] {
      var p, rest := ps[0], ps[1..];
      AtConcat(document, i, Spelling(p), Spellings(rest));
      DecodableUnfold(ps);
      LeadingIsUnit(p);
      if !Leading(p) {
        DecodePiece(document, i, end, p);
        BadAfter(document, i + |Spelling(p)|, rest, end);
        PrependBad(Decode(document, i + |Spelling(p)|, end), Meaning(p));
      } else {
        var q, more := rest[0], rest[1..];
        assert more == ps[2..];
        SpellingsUnfold(rest);
        LeadingIsUnit(q);
        AtConcat(document, i + 6, Spelling(q), Spellings(more));
        DecodePair(document, i, end, p, q);
        BadAfter(document, i + 12, more, end);
        PrependBad(Decode(document, i + 12, end), PairMeaning(p, q));
      }
    }
  }

  /** The errors of a backslash: nothing after it, an unknown letter, fewer than four characters after
      \u, or a character among them that is no digit. */
  lemma BadEscapes(document: string, i: nat, end: nat)
    requires i < end <= |document| && document[i] == '\\'
    ensures i + 1 == end ==> Decode(document, i, end) == Bad(EmptyEscape, end)
    ensures i + 1 < end && document[i + 1] != 'u' && !IsEscape(document[i + 1]) ==>
              Decode(document, i, end) == Bad(BadEscape, i + 2)
    ensures i + 1 < end < i + 6 && document[i + 1] == 'u' ==> Decode(document, i, end) == Bad(FourDigitsExpected, i + 2)
  {
    if i + 1 < end {
      ShortEscapeIs(document[i + 1]);
    }
    hide HexRun, ShortEscape, IsEscape;
  }

  lemma BadHexEscape(document: string, i: nat, end: nat, k: nat)
    requires i + 6 <= end <= |document| && document[i] == '\\' && document[i + 1] == 'u' && k < 4
    requires DigitsBefore(document, i + 2, k) && DigitValue(document[i + 2 + k]) >= 16
    ensures Decode(document, i, end) == Bad(HexDigitExpected, i + 2 + k + 1)
  {
    hide *;
    BadDigit(document, i + 2, 4, 0, k);
    BadSequence(document, i, end);
  }

  lemma BadSequence(document: string, i: nat, end: nat)
    requires i + 6 <= end <= |document| && document[i] == '\\' && document[i + 1] == 'u'
    requires HexRun(document, i + 2, 4, 0).BadCode?
    ensures var r := HexRun(document, i + 2, 4, 0); Decode(document, i, end) == Bad(r.message, r.extra)
  {
    hide HexRun, ShortEscape;
  }

  /** The first k characters from i are hexadecimal digits. */
  ghost predicate DigitsBefore(document: string, i: nat, k: nat)
    requires i + k <= |document|
  {
    forall j :: i <= j < i + k ==> DigitValue(document[j]) < 16
  }

  lemma OneDigit(document: string, i: nat, k: nat)
    requires 0 < k && i + k <= |document| && DigitsBefore(document, i, k)
    ensures DigitValue(document[i]) < 16 && DigitsBefore(document, i + 1, k - 1)
  {
    hide DigitValue;
  }

  lemma {:induction false} BadDigit(document: string, i: nat, count: nat, unicode: nat, k: nat)
    requires i + count <= |document| && k < count && DigitsBefore(document, i, k) && DigitValue(document[i + k]) >= 16
    ensures HexRun(document, i, count, unicode) == BadCode(HexDigitExpected, i + k + 1)
    decreases k
  {
    hide *;
    HexDigitIs(document[i]);
    HexRunStep(document, i, count, unicode);
    if k > 0 {
      OneDigit(document, i, k);
      BadDigit(document, i + 1, count - 1, unicode * 16 + HexDigit(document[i]).value, k - 1);
    }
  }

  /** The errors after a leading surrogate: fewer than six characters, or not a \u escape. */
  lemma NoSecondHalf(document: string, i: nat, end: nat, p: Piece)
    requires Leading(p) && At(document, i, Spelling(p)) && i + 6 <= end <= |document|
    ensures end < i + 12 ==> Decode(document, i, end) == Bad(SixCharactersExpected, i + 6)
    ensures i + 12 <= end && document[i + 6] != '\\' ==> Decode(document, i, end) == Bad(SecondHalfExpected, i + 7)
    ensures i + 12 <= end && document[i + 6] == '\\' && document[i + 7] != 'u' ==>
              Decode(document, i, end) == Bad(SecondHalfExpected, i + 8)
  {
    LeadingIsUnit(p);
    AtConcat(document, i, "\\u", p.digits);
    AtChar(document, i, Spelling(p), 0);
    AtChar(document, i, Spelling(p), 1);
    HexRunNumber(document, i + 2, p.digits);
    hide HexRun, At, HexNumber, IsHex, ShortEscape, Decoded.Prepend, CodePointToUtf8;
  }
}
