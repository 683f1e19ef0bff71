/**
 Whatever the reader accepts is a text of its grammar: from a successful call the syntax tree of the
 text it consumed.
 */
module JsonSoundness {
  import opened JsonValues
  import opened JsonScanner
  import opened JsonParsing
  import opened JsonStrings
  import opened JsonTokens
  import opened JsonGrammar
  import opened JsonGaps
  import opened JsonLexemes
  import opened JsonAcceptance

  predicate Succeeds(r: Outcome) {
    r.Done? && r.ok
  }

  lemma SucceedsIs(r: Outcome)
    ensures Succeeds(r) <==> r.Done? && r.ok
  {
  }

  /** A gap and a text of the grammar stand from i to end. */
  ghost predicate TextHere(c: Config, i: nat, g: string, x: Syntax, end: nat) {
    && Gap(g, c.allowComments) && Accepted(x, c.allowComments)
    && At(c.document, i, g + Render(x)) && end == i + |g| + |Render(x)| && Stops(c.document, i + |g|, x)
  }

  lemma TextHereIs(c: Config, i: nat, g: string, x: Syntax, end: nat)
    ensures TextHere(c, i, g, x, end) <==>
            && Gap(g, c.allowComments) && Accepted(x, c.allowComments)
            && At(c.document, i, g + Render(x)) && end == i + |g| + |Render(x)| && Stops(c.document, i + |g|, x)
  {
    hide Gap, Accepted, Render, At, Stops;
  }

  // ---------------------------------------------------------------------------
  // Tokens
  // ---------------------------------------------------------------------------

  lemma {:induction false} PastIsScan(document: string, i: nat)
    requires i <= |document| && ScanPastComments(document, i).start < |document|
    ensures var t := ScanPastComments(document, i);
            i <= t.start && !IsSpace(document[t.start]) && Scan(document, t.start) == t
    decreases |document| - i
  {
    hide *;
    PastOneComment(document, i);
    TokenHere(document, i);
    ScanStart(document, i);
    if Scan(document, i).kind == Comment {
      PastIsScan(document, Scan(document, i).end);
    }
  }

  /** The next token, after a gap. */
  lemma NextIsScan(c: Config, i: nat)
    requires i <= |c.document| && NextToken(c, i).start < |c.document|
    ensures var t := NextToken(c, i);
            && i <= t.start < t.end <= |c.document| && !IsSpace(c.document[t.start]) && Scan(c.document, t.start) == t
            && Gap(c.document[i..t.start], c.allowComments)
  {
    hide *;
    GapBeforeNext(c, i);
    NextTokenChoice(c, i);
    if c.allowComments {
      PastIsScan(c.document, i);
    } else {
      TokenHere(c.document, i);
    }
    ScanPositive(c.document, NextToken(c, i).start);
  }

  lemma NextStarts(c: Config, i: nat)
    requires i <= |c.document| && NextToken(c, i).kind != EndOfStream
    ensures NextToken(c, i).start < |c.document|
  {
    hide ScanPastComments, Scan;
  }

  lemma PastStarts(document: string, i: nat)
    requires i <= |document| && ScanPastComments(document, i).kind != EndOfStream
    ensures i <= ScanPastComments(document, i).start < ScanPastComments(document, i).end <= |document|
  {
    hide ScanPastComments, Scan;
  }

  /** A symbol token, after a gap. */
  lemma PastSymbol(document: string, i: nat, ch: char)
    requires i <= |document| && Symbol(ch) == Some(ScanPastComments(document, i).kind)
    requires ch in ['}', ']', ',']
    ensures var t := ScanPastComments(document, i);
            && i <= t.start < |document| && t.end == t.start + 1 && Gap(document[i..t.start], true)
            && At(document, i, document[i..t.start] + [ch])
  {
    hide *;
    SeparatorSymbols();
    PastStarts(document, i);
    PastIsScan(document, i);
    GapBefore(document, i);
    var t := ScanPastComments(document, i);
    TokenText(document, t.start, t);
    SameSymbol(ch, document[t.start]);
    AtHere(document, i, t.end);
    assert document[i..t.start] + [document[t.start]] == document[i..t.end];
  }

  lemma SameSymbol(a: char, b: char)
    ensures Symbol(a).Some? && Symbol(b) == Symbol(a) ==> a == b
  {
  }

  // ---------------------------------------------------------------------------
  // Values
  // ---------------------------------------------------------------------------

  lemma LeaveIs(r: Outcome)
    ensures Succeeds(Leave(r)) <==> Succeeds(r)
    ensures Succeeds(r) ==> Leave(r).state.pos == r.state.pos
  {
  }

  /** A successful readValue comes from a token that starts a value. */
  lemma ReadValueSucceeds(c: Config, v: Value, s: State)
    requires s.pos <= |c.document| && Succeeds(ReadValue(c, v, s))
    ensures s.depth < STACK_LIMIT && StartsValue(NextToken(c, s.pos).kind)
  {
    hide NextToken, ReadMembers, ReadArray, NumberOf, StringValue, Regular, Leave;
  }

  lemma ValueSucceeds(c: Config, v: Value, s: State)
    requires s.pos <= |c.document| && Succeeds(ReadValue(c, v, s))
    ensures var t := NextToken(c, s.pos);
            && StartsValue(t.kind) && s.pos <= t.start < t.end <= |c.document| && (t.kind == StringToken ==> t.start + 2 <= t.end)
            && var r := ReadToken(c, v, State(t.end, s.depth + 1, s.errors), t);
               Succeeds(r) && r.state.pos == ReadValue(c, v, s).state.pos
  {
    hide *;
    ReadValueSucceeds(c, v, s);
    var t := NextToken(c, s.pos);
    ReadValueIs(c, v, s, t);
    StartsNoEnd(t.kind);
    NextStarts(c, s.pos);
    NextIsScan(c, s.pos);
    LeaveIs(ReadToken(c, v, State(t.end, s.depth + 1, s.errors), t));
  }

  lemma StartsNoEnd(kind: TokenType)
    ensures StartsValue(kind) ==> kind != EndOfStream
    ensures StartsValue(kind) ==> kind in [ObjectBegin, ArrayBegin, Number, StringToken, True, False, NullToken]
  {
  }

  /** A scalar token succeeds where it ends; a string decodes. */
  lemma ScalarSucceeds(c: Config, v: Value, inside: State, t: Token)
    requires inside.pos <= |c.document| && inside.pos == t.end
    requires t.start < t.end <= |c.document| && (t.kind == StringToken ==> t.start + 2 <= t.end)
    requires t.kind in [Number, StringToken, True, False, NullToken] && Succeeds(ReadToken(c, v, inside, t))
    ensures ReadToken(c, v, inside, t).state.pos == t.end
    ensures t.kind == StringToken ==> Decode(c.document, t.start + 1, t.end - 1).Text?
  {
    hide Decode, ReadMembers, ReadArray, Regular, JsonNumbers.NumberValue;
  }

  lemma LiteralAccepted(document: string, i: nat, t: Token, comments: bool) returns (x: Syntax)
    requires i < |document| && !IsSpace(document[i]) && Scan(document, i) == t && t.kind in [True, False, NullToken]
    ensures t.start == i && t.end <= |document| && Accepted(x, comments) && Stops(document, i, x) && Render(x) == document[i..t.end]
  {
    hide Scan;
    LiteralText(document, i, t);
    x := if t.kind == NullToken then NullLiteral else BoolLiteral(t.kind == True);
    LiteralRenders(x);
  }

  lemma LiteralRenders(x: Syntax)
    ensures x == NullLiteral ==> Render(x) == ['n'] + "ull"
    ensures x == BoolLiteral(true) ==> Render(x) == ['t'] + "rue"
    ensures x == BoolLiteral(false) ==> Render(x) == ['f'] + "alse"
  {
    assert ['n'] + "ull" == "null" && ['t'] + "rue" == "true" && ['f'] + "alse" == "false";
  }

  lemma NumberAccepted(document: string, i: nat, t: Token, comments: bool) returns (x: Syntax)
    requires i < |document| && !IsSpace(document[i]) && Scan(document, i) == t && t.kind == Number
    ensures t.start == i < t.end <= |document| && Accepted(x, comments) && Stops(document, i, x) && Render(x) == document[i..t.end]
  {
    hide *;
    TokenText(document, i, t);
    var n := NumberIs(document, i);
    x := NumberLiteral(n);
    StopsIs(document, i, n);
    AcceptedScalar(x, comments, y => None);
  }

  lemma StringAccepted(document: string, i: nat, t: Token, comments: bool) returns (ps: seq<Piece>)
    requires i < |document| && !IsSpace(document[i]) && Scan(document, i) == t && t.kind == StringToken
    requires i + 2 <= t.end <= |document| && Decode(document, i + 1, t.end - 1).Text?
    ensures t.start == i && AllWellSpelled(ps) && StringText(ps) == document[i..t.end]
  {
    hide *;
    TokenText(document, i, t);
    ps := StringPieces(document, i + 1, t.end - 1);
    QuotedStops(document, i + 1, t.end);
    assert document[i..t.end] == [document[i]] + (document[i + 1..t.end - 1] + [document[t.end - 1]]);
    StringTextIs(ps);
  }

  lemma StringTextIs(ps: seq<Piece>)
    ensures StringText(ps) == ['"'] + (Spellings(ps) + ['"'])
  {
    hide Spellings;
  }

  lemma {:induction false} QuotedStops(document: string, i: nat, end: nat)
    requires i <= |document| && StringEnd(document, i) == Extent(true, end)
    ensures i < end <= |document| && document[end - 1] == '"'
    decreases |document| - i
  {
    if document[i] != '"' {
      QuotedStops(document, if document[i] == '\\' then After(document, i + 1) else i + 1, end);
    }
  }

  lemma ScalarAccepted(c: Config, v: Value, inside: State, t: Token) returns (x: Syntax)
    requires t.start < t.end <= |c.document| && (t.kind == StringToken ==> t.start + 2 <= t.end) && inside.pos == t.end
    requires !IsSpace(c.document[t.start]) && Scan(c.document, t.start) == t
    requires t.kind in [Number, StringToken, True, False, NullToken] && Succeeds(ReadToken(c, v, inside, t))
    ensures Accepted(x, c.allowComments) && Stops(c.document, t.start, x) && Render(x) == c.document[t.start..t.end]
    ensures ReadToken(c, v, inside, t).state.pos == t.end
  {
    hide *;
    ScalarSucceeds(c, v, inside, t);
    if t.kind == Number {
      x := NumberAccepted(c.document, t.start, t, c.allowComments);
    } else if t.kind == StringToken {
      var ps := StringAccepted(c.document, t.start, t, c.allowComments);
      x := StringLiteral(ps);
      AcceptedScalar(x, c.allowComments, y => None);
      StringStops(c.document, t.start, ps);
    } else {
      x := LiteralAccepted(c.document, t.start, t, c.allowComments);
    }
  }

  lemma StringStops(document: string, i: nat, ps: seq<Piece>)
    ensures Stops(document, i, StringLiteral(ps))
  {
  }

  lemma ContainerSucceeds(c: Config, v: Value, inside: State, t: Token)
    requires inside.pos == t.end && t.start < t.end <= |c.document| && (t.kind == ArrayBegin || t.kind == ObjectBegin)
    ensures ReadToken(c, v, inside, t) == if t.kind == ArrayBegin then ReadArray(c, inside) else ReadMembers(c, "", [], inside)
  {
    hide ReadArray, ReadMembers, Regular;
  }

  lemma ArrayAccepted(document: string, i: nat, inner: string, items: seq<Item>, comments: bool) returns (x: Syntax)
    requires i < |document| && document[i] == '[' && (items == [] ==> Blank(inner)) && AcceptedItems(items, comments)
    requires At(document, i + 1, ArrayBody(inner, items))
    ensures Accepted(x, comments) && Stops(document, i, x) && At(document, i, Render(x)) && |Render(x)| == 1 + |ArrayBody(inner, items)|
  {
    x := ArrayLiteral(inner, items);
    ArrayBodyIs(inner, items);
    hide AcceptedItems, ArrayBody, Render;
    AtConcat(document, i, "[", ArrayBody(inner, items));
  }

  lemma ObjectAccepted(document: string, i: nat, inner: string, ms: seq<Member>, comments: bool) returns (x: Syntax)
    requires i < |document| && document[i] == '{' && (ms == [] ==> Gap(inner, true)) && AcceptedMembers(ms, comments)
    requires At(document, i + 1, ObjectBody(inner, ms))
    ensures Accepted(x, comments) && Stops(document, i, x) && At(document, i, Render(x)) && |Render(x)| == 1 + |ObjectBody(inner, ms)|
  {
    x := ObjectLiteral(inner, ms);
    ObjectBodyIs(inner, ms);
    hide AcceptedMembers, ObjectBody, Render, Gap;
    AtConcat(document, i, "{", ObjectBody(inner, ms));
  }

  lemma ContainerText(document: string, i: nat, t: Token)
    requires i < |document| && !IsSpace(document[i]) && Scan(document, i) == t
    ensures t.kind == ArrayBegin ==> document[i] == '[' && t.end == i + 1
    ensures t.kind == ObjectBegin ==> document[i] == '{' && t.end == i + 1
  {
    hide *;
    TokenText(document, i, t);
    OpeningSymbols(document[i]);
  }

  lemma OpeningSymbols(c: char)
    ensures Symbol(c) == Some(ArrayBegin) ==> c == '['
    ensures Symbol(c) == Some(ObjectBegin) ==> c == '{'
  {
  }

  /** A successful readValue has consumed a gap and a text of the grammar. */
  lemma {:induction false} ReadIsAccepted(c: Config, v: Value, s: State) returns (g: string, x: Syntax)
    requires s.pos <= |c.document| && Succeeds(ReadValue(c, v, s))
    ensures TextHere(c, s.pos, g, x, ReadValue(c, v, s).state.pos)
    decreases |c.document| - s.pos, 0
  {
    hide *;
    ValueSucceeds(c, v, s);
    SucceedsIs(ReadValue(c, v, s));
    var t := NextToken(c, s.pos);
    var inside := State(t.end, s.depth + 1, s.errors);
    NextIsScan(c, s.pos);
    StartsNoEnd(t.kind);
    g := c.document[s.pos..t.start];
    AtHere(c.document, s.pos, t.start);
    if t.kind == ArrayBegin {
      ContainerSucceeds(c, v, inside, t);
      ContainerText(c.document, t.start, t);
      var inner, items := ReadArrayIsAccepted(c, inside);
      x := ArrayAccepted(c.document, t.start, inner, items, c.allowComments);
    } else if t.kind == ObjectBegin {
      ContainerSucceeds(c, v, inside, t);
      ContainerText(c.document, t.start, t);
      var inner, ms := ReadMembersIsAccepted(c, "", [], inside, "");

      x := ObjectAccepted(c.document, t.start, inner, ms, c.allowComments);
    } else {
      x := ScalarAccepted(c, v, inside, t);
      AtHere(c.document, t.start, t.end);
    }
    AtConcat(c.document, s.pos, g, Render(x));
    TextHereIs(c, s.pos, g, x, ReadValue(c, v, s).state.pos);
  }

  // ---------------------------------------------------------------------------
  // Arrays
  // ---------------------------------------------------------------------------

  /** A turn that goes on, or ends the loop with success. */
  predicate Goes(turn: Turn) {
    turn.Last? ==> Succeeds(turn.r)
  }

  lemma ItemTurnSucceeds(c: Config, index: nat, es: seq<Entry>, s: State)
    requires s.pos <= |c.document| && Goes(ItemTurn(c, index, es, s))
    ensures var r := ReadValue(c, Null, s);
            && Succeeds(r) && s.pos <= r.state.pos <= |c.document|
            && ItemTurn(c, index, es, s) == ItemEnd(c, Put(es, Index(index), r.value), r.state)
  {
    hide ReadValue, ItemEnd, Put, RecoverEnd;
  }

  lemma ItemEndSucceeds(c: Config, es: seq<Entry>, s: State)
    requires s.pos <= |c.document| && Goes(ItemEnd(c, es, s))
    ensures var t := ScanPastComments(c.document, s.pos);
            && (t.kind == ArrayEnd || t.kind == ArraySeparator)
            && (t.kind == ArrayEnd ==> ItemEnd(c, es, s) == Last(Done(true, Arr(es), s.(pos := t.end))))
            && (t.kind == ArraySeparator ==> ItemEnd(c, es, s) == More("", es, s.(pos := t.end)))
  {
    hide ScanPastComments, Regular, RegularTurn, RecoverEnd;
  }

  lemma ItemsSucceed(c: Config, index: nat, es: seq<Entry>, s: State)
    requires s.pos <= |c.document| && Succeeds(ReadItems(c, index, es, s))
    ensures Goes(ItemTurn(c, index, es, s))
    ensures match ItemTurn(c, index, es, s)
            case Last(r) => ReadItems(c, index, es, s) == r
            case More(_, es', s') => s.pos < s'.pos <= |c.document| && ReadItems(c, index, es, s) == ReadItems(c, index + 1, es', s')
  {
    hide ItemTurn, Regular;
  }

  lemma ItemText1(item: Item, rest: seq<Item>, comments: bool)
    requires AcceptedItems(rest, comments) && AcceptedItem(item, comments)
    ensures var items := [item] + rest;
            && AcceptedItems(items, comments) && items[0] == item
            && ItemsText(item.before, items) == item.before + (Render(item.value) + (item.after + ([ItemSeparator(rest)] + ItemsTail(rest))))
  {
    var items := [item] + rest;
    assert items[0] == item && items[1..] == rest;
    hide Accepted, Gap, Render;
    ItemsTailIs(rest);
    hide AcceptedItem, AfterItem, ItemsTail;
  }

  lemma AcceptedItemIs(item: Item, comments: bool)
    ensures AcceptedItem(item, comments) <==> Gap(item.before, comments) && Gap(item.after, true) && Accepted(item.value, comments)
    ensures AcceptedItems([], comments)
  {
    hide Accepted, Gap;
  }

  lemma JoinParts(document: string, i: nat, w: string, r: string, after: string, sep: string, tail: string)
    requires var p := i + |w| + |r|;
             At(document, i, w + r) && At(document, p, after + sep) && At(document, p + |after| + |sep|, tail)
    ensures At(document, i, w + (r + (after + (sep + tail))))
  {
    hide *;
    var p := i + |w| + |r|;
    AtConcat(document, i, w, r);
    AtConcat(document, p, after, sep);
    AtConcat(document, p + |after|, sep, tail);
    AtConcat(document, p, after, sep + tail);
    AtConcat(document, i + |w|, r, after + (sep + tail));
    AtConcat(document, i, w, r + (after + (sep + tail)));
  }

  lemma {:induction false} ReadItemsIsAccepted(c: Config, index: nat, es: seq<Entry>, s: State) returns (items: seq<Item>)
    requires s.pos <= |c.document| && Succeeds(ReadItems(c, index, es, s))
    ensures items != [] && AcceptedItems(items, c.allowComments) && At(c.document, s.pos, ItemsText(items[0].before, items))
    ensures ReadItems(c, index, es, s).state.pos == s.pos + |ItemsText(items[0].before, items)|
    decreases |c.document| - s.pos, 2
  {
    hide *;
    ItemsSucceed(c, index, es, s);
    ItemTurnSucceeds(c, index, es, s);
    var r := ReadValue(c, Null, s);
    SucceedsIs(r);
    var es' := Put(es, Index(index), r.value);
    ItemEndSucceeds(c, es', r.state);
    var g, x := ReadIsAccepted(c, Null, s);
    TextHereIs(c, s.pos, g, x, r.state.pos);
    var t := ScanPastComments(c.document, r.state.pos);
    SeparatorSymbols();
    PastSymbol(c.document, r.state.pos, if t.kind == ArrayEnd then ']' else ',');
    var item := Item(g, x, c.document[r.state.pos..t.start]);
    AcceptedItemIs(item, c.allowComments);
    var rest := [];
    if t.kind == ArraySeparator {
      rest := ReadItemsIsAccepted(c, index + 1, es', r.state.(pos := t.end));
    }
    ItemsTailIs(rest);
    AtNothing(c.document, t.end);
    ItemText1(item, rest, c.allowComments);
    items := [item] + rest;
    JoinParts(c.document, s.pos, g, Render(x), item.after, [ItemSeparator(rest)], ItemsTail(rest));
  }

  lemma AtNothing(document: string, i: nat)
    requires i <= |document|
    ensures At(document, i, "")
  {
  }

  lemma ReadArrayIsAccepted(c: Config, s: State) returns (inner: string, items: seq<Item>)
    requires s.pos <= |c.document| && Succeeds(ReadArray(c, s))
    ensures (items == [] ==> Blank(inner)) && AcceptedItems(items, c.allowComments) && At(c.document, s.pos, ArrayBody(inner, items))
    ensures ReadArray(c, s).state.pos == s.pos + |ArrayBody(inner, items)|
    decreases |c.document| - s.pos, 3
  {
    hide *;
    ReadArrayUnfold(c, s);
    var k := SpacesEnd(c.document, s.pos);
    inner := c.document[s.pos..k];
    SpacesAreBlank(c.document, s.pos);
    AtHere(c.document, s.pos, k);
    if Peek(c.document, k) == ']' {
      items := [];
      EmptyArrayEnd(c.document, k);
      AtConcat(c.document, s.pos, inner, "]");
      AcceptedItemIs(Item("", NullLiteral, ""), c.allowComments);
    } else {
      BlankIsGap(inner, c.allowComments);
      ReadItemsSkips(c, s, inner);
      items := ReadItemsIsAccepted(c, 0, [], s);
    }
    ArrayBodyIs(inner, items);
  }

  lemma EmptyArrayEnd(document: string, i: nat)
    requires i <= |document| && Peek(document, i) == ']'
    ensures At(document, i, "]") && Scan(document, i).end == i + 1
  {
    ScanHere(document, i);
    hide Scan;
    assert document[i..i + 1] == "]";
  }

  // ---------------------------------------------------------------------------
  // Objects
  // ---------------------------------------------------------------------------

  lemma MembersSucceed(c: Config, name: string, es: seq<Entry>, s: State)
    requires s.pos <= |c.document| && Succeeds(ReadMembers(c, name, es, s))
    ensures Goes(MemberTurn(c, name, es, s))
    ensures EndsIn(c, MemberTurn(c, name, es, s), ReadMembers(c, name, es, s))
    ensures MemberTurn(c, name, es, s).More? ==> s.pos < MemberTurn(c, name, es, s).state.pos <= |c.document|
  {
    hide MemberTurn, Regular;
  }

  /** A turn of the loop over members that goes on: a closing brace after an empty name or none, or
      a name. */
  lemma MemberTurnGoes(c: Config, name: string, es: seq<Entry>, s: State)
    requires s.pos <= |c.document| && Goes(MemberTurn(c, name, es, s))
    ensures var t := ScanPastComments(c.document, s.pos);
            || (t.kind == ObjectEnd && name == "" && MemberTurn(c, name, es, s) == Last(Done(true, Obj(es), s.(pos := t.end))))
            || (t.kind == StringToken && Decode(c.document, t.start + 1, t.end - 1).Text? && s.pos < t.end
                && MemberTurn(c, name, es, s) == MemberRest(c, Decode(c.document, t.start + 1, t.end - 1).text, es, s.(pos := t.end)))
  {
    hide ScanPastComments, Decode, MemberRest, Regular, RegularTurn, RecoverEnd;
  }

  lemma MemberRestGoes(c: Config, key: string, es: seq<Entry>, s: State)
    requires s.pos <= |c.document| && Goes(MemberRest(c, key, es, s))
    ensures var colon := Scan(c.document, s.pos);
            && colon.kind == MemberSeparator && s.pos < colon.end
            && var r := ReadValue(c, MemberOrNull(es, key), s.(pos := colon.end));
               && Succeeds(r) && colon.end <= r.state.pos <= |c.document|
               && MemberRest(c, key, es, s) == MemberEnd(c, key, Put(es, Name(key), r.value), r.state)
  {
    hide Scan, ReadValue, MemberEnd, Put, MemberOrNull, RecoverEnd;
  }

  lemma MemberEndGoes(c: Config, key: string, es: seq<Entry>, s: State)
    requires s.pos <= |c.document| && Goes(MemberEnd(c, key, es, s))
    ensures var comma, last := Scan(c.document, s.pos), ScanPastComments(c.document, s.pos);
            && (comma.kind == ObjectEnd || comma.kind == ArraySeparator || comma.kind == Comment)
            && MemberEnd(c, key, es, s) ==
               if last.kind == ObjectEnd then Last(Done(true, Obj(es), s.(pos := last.end))) else More(key, es, s.(pos := last.end))
  {
    hide Scan, ScanPastComments, Regular, RegularTurn, RecoverEnd;
  }

  /** Reading members successfully takes at least one more character. */
  lemma MembersNotAtEnd(c: Config, name: string, es: seq<Entry>, s: State)
    requires s.pos <= |c.document| && Succeeds(ReadMembers(c, name, es, s))
    ensures s.pos < |c.document|
  {
    hide *;
    MembersSucceed(c, name, es, s);
    MemberTurnGoes(c, name, es, s);
    PastStarts(c.document, s.pos);
  }

  lemma ColonIs(document: string, i: nat)
    requires i <= |document| && Scan(document, i).kind == MemberSeparator
    ensures var t := Scan(document, i);
            i <= t.start < t.end <= |document| && Blank(document[i..t.start]) && At(document, i, document[i..t.start] + ":")
            && t.end == t.start + 1
  {
    hide *;
    ColonSymbol();
    TokenHere(document, i);
    SpacesAreBlank(document, i);
    var t := Scan(document, i);
    TokenText(document, t.start, t);
    SameSymbol(':', document[t.start]);
    AtHere(document, i, t.end);
    assert document[i..t.start] + [document[t.start]] == document[i..t.end];
  }

  lemma ColonSymbol()
    ensures Symbol(':') == Some(MemberSeparator)
  {
  }

  /** The separator that ended a turn with another member to come. */
  lemma SeparatorHere(document: string, i: nat) returns (after: string, sep: string)
    requires i <= |document| && ScanPastComments(document, i).kind != ObjectEnd && ScanPastComments(document, i).end < |document|
    requires Scan(document, i).kind == ArraySeparator || Scan(document, i).kind == Comment
    ensures Gap(after, true) && Separates(after, sep) && At(document, i, after + sep)
    ensures ScanPastComments(document, i).end == i + |after| + |sep|
  {
    hide *;
    var comma, last := Scan(document, i), ScanPastComments(document, i);
    PastOneComment(document, i);
    ScanStart(document, i);
    TokenHere(document, i);
    GapBefore(document, i);
    PastIsScan(document, i);
    ScanPositive(document, last.start);
    AtHere(document, i, last.end);
    after, sep := document[i..last.start], document[last.start..last.end];
    assert after + sep == document[i..last.end];
    if last.kind == ArraySeparator {
      SeparatorSymbols();
      TokenText(document, last.start, last);
      SameSymbol(',', document[last.start]);
    } else {
      PastKind(document, i);
      JunkIs(document, last.start, last);
      LaterStart(document, comma.end);
      assert after[comma.start - i] == '/';
      NotBlank(after, comma.start - i);
    }
    SeparatesIs(after, sep);
  }

  lemma PastKind(document: string, i: nat)
    requires i <= |document|
    ensures ScanPastComments(document, i).kind != Comment
  {
    hide ScanPastComments;
  }

  lemma LaterStart(document: string, i: nat)
    requires i <= |document|
    ensures i <= ScanPastComments(document, i).start
  {
    hide ScanPastComments;
  }

  lemma NotBlank(w: string, k: nat)
    requires k < |w| && w[k] == '/'
    ensures !Blank(w)
  {
  }

  lemma SeparatesIs(after: string, sep: string)
    ensures Separates(after, sep) <==> sep == "," || (!Blank(after) && Junk(sep))
  {
    hide Blank, Junk;
  }

  lemma NameIsEmpty(ps: seq<Piece>)
    requires Decodable(ps) && Meanings(ps) == ""
    ensures ps == []
  {
  }

  /** The member that one turn read. */
  lemma MemberIs(m: Member, rest: seq<Member>, comments: bool)
    requires AcceptedMembers(rest, comments) && AcceptedMember(m, comments) && AcceptedAfter(m, rest)
    ensures var ms := [m] + rest;
            && AcceptedMembers(ms, comments) && ms[0] == m && ms[1..] == rest
            && MembersText(ms) == m.before + (StringText(m.name) + (m.beforeColon + (":" + (m.afterColon + MemberTail(ms)))))
            && MemberTail(ms) == Render(m.value) + (m.after + AfterMember(rest))
  {
    var ms := [m] + rest;
    assert ms[0] == m && ms[1..] == rest;
    hide Render, Accepted, Gap, Blank, AcceptedAfter, StringText, AllWellSpelled, AfterMember;
  }

  lemma TrailingIs(m: Member, g: string, sep: string, h: string)
    requires m.name == [] && m.after == g + (sep + h) && sep != "" && Gap(g, true) && Separates(g, sep) && Gap(h, true)
    ensures AcceptedAfter(m, [])
  {
    hide Gap, Separates;
    var i, j := |g|, |g| + |sep|;
    assert m.after[..i] == g && m.after[i..j] == sep && m.after[j..] == h;
  }

  lemma AcceptedAfterIs(m: Member, rest: seq<Member>)
    ensures rest == [] && Gap(m.after, true) ==> AcceptedAfter(m, rest)
    ensures rest != [] && Gap(m.after, true) && Separates(m.after, rest[0].separator) ==> AcceptedAfter(m, rest)
  {
    hide Gap, TrailingComma, Separates;
  }

  lemma NoMembersAccepted(comments: bool)
    ensures AcceptedMembers([], comments)
  {
  }

  /** What follows a member: the closing brace, or a separator and more members, or a separator and
      the closing brace. */
  lemma {:induction false} RestIsAccepted(c: Config, key: string, es: seq<Entry>, s: State, r: Outcome, m: Member)
      returns (after: string, rest: seq<Member>)
    requires s.pos <= |c.document| && Succeeds(r) && Goes(MemberEnd(c, key, es, s)) && EndsIn(c, MemberEnd(c, key, es, s), r)
    requires key == "" ==> m.name == []
    ensures AcceptedAfter(m.(after := after), rest) && AcceptedMembers(rest, c.allowComments)
    ensures At(c.document, s.pos, after + AfterMember(rest)) && r.state.pos == s.pos + |after + AfterMember(rest)|
    decreases |c.document| - s.pos, 1
  {
    hide *;
    SucceedsIs(r);
    MemberEndGoes(c, key, es, s);
    EndsInIs(c, MemberEnd(c, key, es, s), r);
    NoMembersAccepted(c.allowComments);
    var last := ScanPastComments(c.document, s.pos);
    if last.kind == ObjectEnd {
      SeparatorSymbols();
      PastSymbol(c.document, s.pos, '}');
      after, rest := c.document[s.pos..last.start], [];
      AfterMemberIs(rest);
      AcceptedAfterIs(m.(after := after), rest);
    } else {
      PastOneComment(c.document, s.pos);
      MembersNotAtEnd(c, key, es, s.(pos := last.end));
      LaterStart(c.document, s.pos);
      var g, sep := SeparatorHere(c.document, s.pos);
      SeparatesUnfold(g, sep);
      var h, more := ReadMembersIsAccepted(c, key, es, s.(pos := last.end), sep);
      after, rest := AfterSeparatorText(c, s.pos, m, g, sep, h, more);
    }
  }

  lemma AfterSeparatorText(c: Config, i: nat, m: Member, g: string, sep: string, h: string, more: seq<Member>)
      returns (after: string, rest: seq<Member>)
    requires Gap(g, true) && Separates(g, sep) && sep != "" && At(c.document, i, g + sep)
    requires if more == [] then m.name == [] && Gap(h, true) else more[0].separator == sep
    requires AcceptedMembers(more, c.allowComments) && At(c.document, i + |g| + |sep|, ObjectBody(h, more))
    ensures AcceptedAfter(m.(after := after), rest) && AcceptedMembers(rest, c.allowComments)
    ensures At(c.document, i, after + AfterMember(rest)) && |after + AfterMember(rest)| == |g| + |sep| + |ObjectBody(h, more)|
  {
    hide *;
    ObjectBodyIs(h, more);
    AfterMemberIs(more);
    AtConcat(c.document, i, g + sep, ObjectBody(h, more));
    if more == [] {
      after, rest := g + (sep + h), [];
      TrailingIs(m.(after := after), g, sep, h);
      assert after + "}" == (g + sep) + (h + "}");
    } else {
      after, rest := g, more;
      AcceptedAfterIs(m.(after := after), rest);
      assert g + (sep + MembersText(more)) == (g + sep) + MembersText(more);
    }
  }

  /** The name of a member and the gap before it. */
  lemma NameHere(document: string, i: nat, t: Token) returns (before: string, ps: seq<Piece>)
    requires i <= |document| && ScanPastComments(document, i) == t && t.kind == StringToken
    requires t.start + 2 <= t.end <= |document| && Decode(document, t.start + 1, t.end - 1).Text?
    ensures Gap(before, true) && AllWellSpelled(ps) && At(document, i, before + StringText(ps))
    ensures t.start == i + |before| && t.end == t.start + |StringText(ps)|
  {
    hide *;
    PastIsScan(document, i);
    GapBefore(document, i);
    ps := StringAccepted(document, t.start, t, true);
    before := document[i..t.start];
    AtHere(document, i, t.end);
    assert before + StringText(ps) == document[i..t.end];
  }

  lemma PastBounds(document: string, i: nat)
    requires i <= |document| && ScanPastComments(document, i).kind == StringToken
    ensures ScanPastComments(document, i).start + 2 <= ScanPastComments(document, i).end <= |document|
  {
    hide ScanPastComments;
  }

  lemma JoinMember(document: string, i: nat, m: Member, tail: string)
    requires var p1 := i + |m.before| + |StringText(m.name)|;
             var p2 := p1 + |m.beforeColon| + 1;
             var p3 := p2 + |m.afterColon| + |Render(m.value)|;
             && At(document, i, m.before + StringText(m.name)) && At(document, p1, m.beforeColon + ":")
             && At(document, p2, m.afterColon + Render(m.value)) && At(document, p3, m.after + tail)
    ensures var value := m.afterColon + (Render(m.value) + (m.after + tail));
            At(document, i, m.before + (StringText(m.name) + (m.beforeColon + (":" + value))))
  {
    hide *;
    var name, r := StringText(m.name), Render(m.value);
    var p1 := i + |m.before| + |name|;
    var p2 := p1 + |m.beforeColon| + 1;
    var end := m.after + tail;
    AtConcat(document, p2, m.afterColon, r);
    AtConcat(document, p2 + |m.afterColon|, r, end);
    AtConcat(document, p2, m.afterColon, r + end);
    var value := m.afterColon + (r + end);
    AtConcat(document, p1, m.beforeColon, ":");
    AtConcat(document, p1 + |m.beforeColon|, ":", value);
    AtConcat(document, p1, m.beforeColon, ":" + value);
    AtConcat(document, i, m.before, name);
    AtConcat(document, i + |m.before|, name, m.beforeColon + (":" + value));
    AtConcat(document, i, m.before, name + (m.beforeColon + (":" + value)));
  }

  lemma AcceptedMemberIs(m: Member, comments: bool)
    ensures AcceptedMember(m, comments) <==>
            && Gap(m.before, true) && AllWellSpelled(m.name) && Blank(m.beforeColon)
            && Gap(m.afterColon, comments) && Accepted(m.value, comments)
  {
    hide Gap, Blank, Accepted, AllWellSpelled;
  }

  lemma EmptyName(ps: seq<Piece>)
    requires Decodable(ps)
    ensures Meanings(ps) == "" ==> ps == []
  {
    if Meanings(ps) == "" {
      NameIsEmpty(ps);
    }
  }

  /** A member and all that follows it up to the closing brace. */
  lemma {:induction false} MemberIsAccepted(c: Config, es: seq<Entry>, s: State, r: Outcome, before: string, ps: seq<Piece>, separator: string)
      returns (ms: seq<Member>)
    requires Gap(before, true) && Decodable(ps) && AllWellSpelled(ps) && At(c.document, s.pos, before + StringText(ps))
    requires var s1 := s.(pos := s.pos + |before| + |StringText(ps)|);
             && s1.pos <= |c.document|
             && Succeeds(r) && Goes(MemberRest(c, Meanings(ps), es, s1)) && EndsIn(c, MemberRest(c, Meanings(ps), es, s1), r)
    ensures ms != [] && ms[0].separator == separator && AcceptedMembers(ms, c.allowComments)
    ensures At(c.document, s.pos, MembersText(ms)) && r.state.pos == s.pos + |MembersText(ms)|
    decreases |c.document| - s.pos, 1
  {
    hide *;
    var key, p1 := Meanings(ps), s.pos + |before| + |StringText(ps)|;
    SucceedsIs(r);
    MemberRestGoes(c, key, es, s.(pos := p1));
    ColonIs(c.document, p1);
    var colon := Scan(c.document, p1);
    var v, s2 := MemberOrNull(es, key), s.(pos := colon.end);
    var value := ReadValue(c, v, s2);
    SucceedsIs(value);
    var g, x := ReadIsAccepted(c, v, s2);
    TextHereIs(c, s2.pos, g, x, value.state.pos);
    EmptyName(ps);
    var m := Member(separator, before, ps, c.document[p1..colon.start], g, x, "");
    var after, rest := RestIsAccepted(c, key, Put(es, Name(key), value.value), value.state, r, m);
    m := m.(after := after);
    AcceptedMemberIs(m, c.allowComments);
    MemberIs(m, rest, c.allowComments);
    ms := [m] + rest;
    JoinMember(c.document, s.pos, m, AfterMember(rest));
  }

  lemma {:induction false} ReadMembersIsAccepted(c: Config, name: string, es: seq<Entry>, s: State, separator: string)
      returns (inner: string, ms: seq<Member>)
    requires s.pos <= |c.document| && Succeeds(ReadMembers(c, name, es, s))
    ensures ms == [] ==> Gap(inner, true) && name == ""
    ensures ms != [] ==> ms[0].separator == separator
    ensures AcceptedMembers(ms, c.allowComments) && At(c.document, s.pos, ObjectBody(inner, ms))
    ensures ReadMembers(c, name, es, s).state.pos == s.pos + |ObjectBody(inner, ms)|
    decreases |c.document| - s.pos, 2
  {
    hide *;
    var r := ReadMembers(c, name, es, s);
    SucceedsIs(r);
    MembersSucceed(c, name, es, s);
    MemberTurnGoes(c, name, es, s);
    EndsInIs(c, MemberTurn(c, name, es, s), r);
    var t := ScanPastComments(c.document, s.pos);
    if t.kind == ObjectEnd {
      SeparatorSymbols();
      PastSymbol(c.document, s.pos, '}');
      inner, ms := c.document[s.pos..t.start], [];
      NoMembersAccepted(c.allowComments);
    } else {
      PastBounds(c.document, s.pos);
      var before, ps := NameHere(c.document, s.pos, t);
      NameScanned(c.document, s.pos, before, ps);
      inner := "";
      ms := MemberIsAccepted(c, es, s, r, before, ps, separator);
    }
    ObjectBodyIs(inner, ms);
  }
}
