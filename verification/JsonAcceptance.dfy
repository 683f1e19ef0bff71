/**
 The reader on the texts of its grammar that it can read: it accepts every one with the value it
 denotes, and throws exactly when the text nests deeper than the stack limit.
 */
module JsonAcceptance {
  import opened JsonValues
  import JsonNumbers
  import opened JsonScanner
  import opened JsonParsing
  import opened JsonStrings
  import opened JsonTokens
  import opened JsonGrammar
  import opened JsonGaps
  import opened JsonLexemes

  /** Reading succeeds with `value` and leaves the cursor at `end`, or throws. */
  ghost predicate ReadsAs(r: Outcome, fits: bool, value: Value, s: State, end: nat) {
    if fits then r == Done(true, value, s.(pos := end)) else r == Threw
  }

  // ---------------------------------------------------------------------------
  // Single tokens
  // ---------------------------------------------------------------------------

  lemma NextTokenIs(c: Config, i: nat, t: Token)
    requires i <= |c.document| && Scan(c.document, i) == t && t.kind != Comment
    ensures NextToken(c, i) == t && ScanPastComments(c.document, i) == t
  {
    hide Scan;
  }

  /** readValue on a token that is not an error. */
  ghost function ReadToken(c: Config, v: Value, inside: State, t: Token): Outcome
    requires inside.pos <= |c.document|
    requires t.start < t.end <= |c.document| && (t.kind == StringToken ==> t.start + 2 <= t.end)
  {
    match t.kind
    case ObjectBegin => ReadMembers(c, "", [], inside)
    case ArrayBegin => ReadArray(c, inside)
    case Number => NumberOf(c, v, inside, t)
    case StringToken => StringValue(c, v, inside, t)
    case True => Done(true, Bool(true), inside)
    case False => Done(true, Bool(false), inside)
    case NullToken => Done(true, Null, inside)
    case _ => Threw
  }

  predicate StartsValue(kind: TokenType) {
    kind in [ObjectBegin, ArrayBegin, Number, StringToken, True, False, NullToken]
  }

  lemma ReadValueIs(c: Config, v: Value, s: State, t: Token)
    requires s.pos <= |c.document| && s.depth < STACK_LIMIT && StartsValue(t.kind)
    requires NextToken(c, s.pos) == t
    ensures t.start < t.end <= |c.document| && (t.kind == StringToken ==> t.start + 2 <= t.end)
    ensures ReadValue(c, v, s) == Leave(ReadToken(c, v, State(t.end, s.depth + 1, s.errors), t))
  {
    hide NextToken, ReadMembers, ReadArray, NumberOf, StringValue, Regular, Leave;
  }

  lemma LeaveAs(r: Outcome, fits: bool, value: Value, s: State, pos: nat, end: nat)
    requires ReadsAs(r, fits, value, State(pos, s.depth + 1, s.errors), end)
    ensures ReadsAs(Leave(r), fits, value, s, end)
  {
  }

  /** readValue from s comes to what reading the token's value inside comes to. */
  lemma ReadValueOn(c: Config, v: Value, s: State, t: Token, fits: bool, value: Value, end: nat)
    requires s.pos <= |c.document| && s.depth < STACK_LIMIT && StartsValue(t.kind)
    requires Scan(c.document, s.pos) == t && t.start < t.end <= |c.document|
    requires t.kind == StringToken ==> t.start + 2 <= t.end
    requires var inside := State(t.end, s.depth + 1, s.errors);
             ReadsAs(ReadToken(c, v, inside, t), fits, value, inside, end)
    ensures ReadsAs(ReadValue(c, v, s), fits, value, s, end)
  {
    hide Scan, NextToken, ReadValue, ReadToken, Leave, ReadsAs;
    NextTokenIs(c, s.pos, t);
    ReadValueIs(c, v, s, t);
    LeaveAs(ReadToken(c, v, State(t.end, s.depth + 1, s.errors), t), fits, value, s, t.end, end);
  }

  lemma ReadValueTooDeep(c: Config, v: Value, s: State)
    requires s.pos <= |c.document| && s.depth >= STACK_LIMIT
    ensures ReadValue(c, v, s) == Threw
  {
  }

  /** A value's text starts with neither white space nor a slash nor a closing bracket. */
  lemma FirstChar(x: Syntax, comments: bool)
    requires Accepted(x, comments)
    ensures Render(x) != "" && !IsSpace(Render(x)[0]) && Render(x)[0] != '/' && Render(x)[0] != ']'
  {
    if x.NumberLiteral? {
      NumeralStart(x.n);
      hide NumeralText, ReadAsNumeral;
    }
  }

  /** What follows a value inside a container delimits it. */
  lemma FollowedBy(document: string, i: nat, w: string, c: char)
    requires Gap(w, true) && At(document, i, w + [c]) && c in [',', ']', '}']
    ensures i <= |document| && Delimited(document, i)
  {
    AtConcat(document, i, w, [c]);
    GapSkipped(document, i, w);
    if w == "" {
      AtChar(document, i, [c], 0);
    }
    hide At, Gap, Scan, ScanPastComments;
  }

  /** The number at i is read to its end. */
  ghost predicate Stops(document: string, i: nat, x: Syntax) {
    x.NumberLiteral? ==> i <= |document| && Scan(document, i) == Token(Number, i, i + |NumeralText(x.n)|)
  }

  lemma DelimitedStops(document: string, i: nat, x: Syntax, comments: bool)
    requires Accepted(x, comments) && At(document, i, Render(x)) && Delimited(document, i + |Render(x)|)
    ensures Stops(document, i, x)
  {
    hide At, Delimited, Scan, NumeralText, ReadAsNumeral;
    if x.NumberLiteral? {
      AtBound(document, i, Render(x));
      BlankNothing();
      assert "" + NumeralText(x.n) == NumeralText(x.n);
      ScanNumber(document, i, "", x.n);
    }
  }

  // ---------------------------------------------------------------------------
  // Scalars
  // ---------------------------------------------------------------------------

  /** What the theorem says of one value: x stands at the cursor after the gap w. */
  ghost predicate ReadsSyntax(c: Config, v: Value, s: State, w: string, x: Syntax)
    requires s.pos <= |c.document| && Readable(x, c.toDouble)
  {
    ReadsAs(ReadValue(c, v, s), s.depth + Height(x) <= STACK_LIMIT, Denote(x, c.toDouble), s, s.pos + |w| + |Render(x)|)
  }

  lemma ScalarReads(c: Config, v: Value, s: State, w: string, x: Syntax)
    requires s.pos <= |c.document| && Readable(x, c.toDouble) && s.depth < STACK_LIMIT
    requires !x.ArrayLiteral? && !x.ObjectLiteral?
    requires ReadsAs(ReadValue(c, v, s), true, Denote(x, c.toDouble), s, s.pos + |w| + |Render(x)|)
    ensures ReadsSyntax(c, v, s, w, x)
  {
    hide ReadValue, ReadsAs, Denote, Render, Readable, Regular;
  }

  lemma LiteralIsRead(c: Config, v: Value, inside: State, t: Token, x: Syntax)
    requires inside.pos <= |c.document| && t.start < t.end <= |c.document| && (x.NullLiteral? || x.BoolLiteral?)
    requires t.kind == if x.NullLiteral? then NullToken else if x.b then True else False
    ensures ReadToken(c, v, inside, t) == Done(true, Denote(x, c.toDouble), inside)
    ensures StartsValue(t.kind)
  {
  }

  lemma ScanLiteral(document: string, i: nat, w: string, x: Syntax)
    requires Blank(w) && At(document, i, w + Render(x)) && (x.NullLiteral? || x.BoolLiteral?)
    ensures i + |w| + |Render(x)| <= |document| && Render(x) != ""
    ensures Scan(document, i) ==
            Token(if x.NullLiteral? then NullToken else if x.b then True else False, i + |w|, i + |w| + |Render(x)|)
  {
    AtBound(document, i, w + Render(x));
    hide Scan, At, Blank;
    if x.NullLiteral? {
      ScanNull(document, i, w);
    } else if x.b {
      ScanTrue(document, i, w);
    } else {
      ScanFalse(document, i, w);
    }
  }

  lemma AcceptedScalar(x: Syntax, comments: bool, toDouble: JsonNumbers.ToDouble)
    ensures x.NullLiteral? || x.BoolLiteral? ==> Accepted(x, comments) && Readable(x, toDouble)
    ensures x.StringLiteral? ==> (Accepted(x, comments) <==> AllWellSpelled(x.ps)) && (Readable(x, toDouble) <==> Decodable(x.ps))
    ensures x.StringLiteral? && Decodable(x.ps) ==> AllWellSpelled(x.ps) && Denote(x, toDouble) == Str(Meanings(x.ps))
    ensures x.NumberLiteral? ==> (Accepted(x, comments) <==> ReadAsNumeral(x.n))
    ensures x.StringLiteral? ==> Render(x) == StringText(x.ps) && |Render(x)| >= 2
    ensures x.NumberLiteral? ==> Render(x) == NumeralText(x.n)
  {
    hide AllWellSpelled, Paired, Meanings, ReadAsNumeral, NumeralText;
  }

  lemma DoneReads(value: Value, inside: State)
    ensures ReadsAs(Done(true, value, inside), true, value, inside, inside.pos)
  {
  }

  lemma ReadsLiteral(c: Config, v: Value, s: State, x: Syntax)
    requires At(c.document, s.pos, Render(x)) && s.pos <= |c.document|
    requires s.depth < STACK_LIMIT && (x.NullLiteral? || x.BoolLiteral?)
    ensures Readable(x, c.toDouble) && ReadsSyntax(c, v, s, "", x)
  {
    hide *;
    BlankNothing();
    AcceptedScalar(x, false, c.toDouble);
    assert "" + Render(x) == Render(x);
    ScanLiteral(c.document, s.pos, "", x);
    var t := Scan(c.document, s.pos);
    var inside := State(t.end, s.depth + 1, s.errors);
    LiteralIsRead(c, v, inside, t, x);
    DoneReads(Denote(x, c.toDouble), inside);
    ReadValueOn(c, v, s, t, true, Denote(x, c.toDouble), t.end);
    ScalarReads(c, v, s, "", x);
  }

  lemma ReadsNumber(c: Config, v: Value, s: State, n: Numeral)
    requires At(c.document, s.pos, NumeralText(n)) && s.pos <= |c.document|
    requires s.depth < STACK_LIMIT && ReadAsNumeral(n) && Readable(NumberLiteral(n), c.toDouble)
    requires Stops(c.document, s.pos, NumberLiteral(n))
    ensures ReadsSyntax(c, v, s, "", NumberLiteral(n))
  {
    StopsIs(c.document, s.pos, n);
    hide *;
    var x := NumberLiteral(n);
    AcceptedScalar(x, false, c.toDouble);
    NumeralStart(n);
    AtBound(c.document, s.pos, NumeralText(n));
    var t := Scan(c.document, s.pos);
    var inside := State(t.end, s.depth + 1, s.errors);
    NumberToken(c, v, inside, t, n);
    DoneReads(Denote(x, c.toDouble), inside);
    ReadValueOn(c, v, s, t, true, Denote(x, c.toDouble), t.end);
    ScalarReads(c, v, s, "", x);
  }

  lemma StopsIs(document: string, i: nat, n: Numeral)
    ensures Stops(document, i, NumberLiteral(n)) <==>
            i <= |document| && Scan(document, i) == Token(Number, i, i + |NumeralText(n)|)
  {
    hide Scan, NumeralText;
  }

  lemma NumberToken(c: Config, v: Value, inside: State, t: Token, n: Numeral)
    requires inside.pos <= |c.document| && ReadAsNumeral(n) && Readable(NumberLiteral(n), c.toDouble) && t.kind == Number
    requires t.start < t.end <= |c.document| && At(c.document, t.start, NumeralText(n)) && t.end == t.start + |NumeralText(n)|
    ensures ReadToken(c, v, inside, t) == Done(true, Denote(NumberLiteral(n), c.toDouble), inside)
    ensures StartsValue(t.kind)
  {
    NumeralValueIs(n, c.toDouble);
    hide NumeralText, JsonNumbers.NumberValue, ReadMembers, ReadArray, ReadAsNumeral, NumeralValue;
  }

  lemma ReadsString(c: Config, v: Value, s: State, ps: seq<Piece>)
    requires At(c.document, s.pos, StringText(ps)) && s.pos <= |c.document|
    requires s.depth < STACK_LIMIT && Decodable(ps)
    ensures Readable(StringLiteral(ps), c.toDouble) && ReadsSyntax(c, v, s, "", StringLiteral(ps))
  {
    hide *;
    BlankNothing();
    var x := StringLiteral(ps);
    AcceptedScalar(x, false, c.toDouble);
    assert "" + StringText(ps) == StringText(ps);
    ScanString(c.document, s.pos, "", ps);
    var t := Scan(c.document, s.pos);
    var inside := State(t.end, s.depth + 1, s.errors);
    StringIsRead(c, v, inside, t, Meanings(ps));
    DoneReads(Denote(x, c.toDouble), inside);
    ReadValueOn(c, v, s, t, true, Denote(x, c.toDouble), t.end);
    ScalarReads(c, v, s, "", x);
  }

  lemma StringIsRead(c: Config, v: Value, inside: State, t: Token, text: string)
    requires inside.pos <= |c.document| && t.kind == StringToken && t.start + 2 <= t.end <= |c.document|
    requires Decode(c.document, t.start + 1, t.end - 1) == Text(text)
    ensures ReadToken(c, v, inside, t) == Done(true, Str(text), inside)
    ensures StartsValue(t.kind)
  {
    hide Decode, ReadMembers, ReadArray, Regular;
  }

  // ---------------------------------------------------------------------------
  // Arrays
  // ---------------------------------------------------------------------------

  lemma ItemsParts(items: seq<Item>, w: string, comments: bool)
    requires items != [] && AcceptedItems(items, comments)
    ensures Gap(items[0].before, comments) && Gap(items[0].after, true)
    ensures Accepted(items[0].value, comments) && AcceptedItems(items[1..], comments)
    ensures ItemsText(w, items) == w + (Render(items[0].value) + (items[0].after + AfterItem(items[1..])))
  {
    assert AcceptedItem(items[0], comments);
    hide Render, Accepted, Gap;
  }

  lemma ItemsUnfold(items: seq<Item>, index: nat, toDouble: JsonNumbers.ToDouble)
    requires items != [] && ReadableItems(items, toDouble)
    ensures Readable(items[0].value, toDouble) && ReadableItems(items[1..], toDouble)
    ensures ItemsHeight(items) == Max(Height(items[0].value), ItemsHeight(items[1..]))
    ensures DenoteItems(index, items, toDouble) ==
            [Entry(Index(index), Denote(items[0].value, toDouble))] + DenoteItems(index + 1, items[1..], toDouble)
  {
    assert ReadableItem(items[0], toDouble);
    hide Render, Denote, Height, Readable;
  }

  lemma ItemTurnIs(c: Config, index: nat, es: seq<Entry>, s: State, child: Value, s1: State)
    requires s.pos <= |c.document| && s1.pos <= |c.document|
    ensures ReadValue(c, Null, s) == Threw ==> ItemTurn(c, index, es, s) == Last(Threw)
    ensures ReadValue(c, Null, s) == Done(true, child, s1) ==>
              ItemTurn(c, index, es, s) == ItemEnd(c, Put(es, Index(index), child), s1)
  {
    hide ReadValue, ItemEnd, Put, Regular;
  }

  lemma ReadItemsIs(c: Config, index: nat, es: seq<Entry>, s: State)
    requires s.pos <= |c.document|
    ensures match ItemTurn(c, index, es, s)
            case Last(r) => ReadItems(c, index, es, s) == r
            case More(_, es', s') => s'.pos <= |c.document| && ReadItems(c, index, es, s) == ReadItems(c, index + 1, es', s')
  {
    hide ItemTurn, Regular;
  }

  /** The turn's end at a gap and a comma or the closing bracket. */
  lemma ItemEndAt(c: Config, es: seq<Entry>, s: State, w: string, ch: char)
    requires s.pos <= |c.document| && Gap(w, true) && At(c.document, s.pos, w + [ch]) && ch in [',', ']']
    ensures s.pos + |w| + 1 <= |c.document|
    ensures ItemEnd(c, es, s) ==
            var s1 := s.(pos := s.pos + |w| + 1);
            if ch == ']' then Last(Done(true, Arr(es), s1)) else More("", es, s1)
  {
    hide *;
    SeparatorSymbols();
    GapThenSymbol(c.document, s.pos, w, ch);
    ItemEndUnfold(c, es, s);
  }

  lemma SeparatorSymbols()
    ensures Symbol('}') == Some(ObjectEnd) && Symbol(']') == Some(ArrayEnd) && Symbol(',') == Some(ArraySeparator)
  {
  }

  lemma ItemEndUnfold(c: Config, es: seq<Entry>, s: State)
    requires s.pos <= |c.document|
    ensures var t := ScanPastComments(c.document, s.pos);
            && (t.kind == ArrayEnd ==> ItemEnd(c, es, s) == Last(Done(true, Arr(es), s.(pos := t.end))))
            && (t.kind == ArraySeparator ==> ItemEnd(c, es, s) == More("", es, s.(pos := t.end)))
  {
    hide ScanPastComments, Regular, RegularTurn, RecoverEnd;
  }

  lemma GapThenSymbol(document: string, i: nat, w: string, ch: char)
    requires Gap(w, true) && At(document, i, w + [ch]) && Symbol(ch).Some?
    ensures i + |w| + 1 <= |document|
    ensures ScanPastComments(document, i) == Token(Symbol(ch).value, i + |w|, i + |w| + 1)
    ensures Scan(document, i) == ScanPastComments(document, i) || Scan(document, i).kind == Comment
  {
    hide Scan, ScanPastComments, At, Gap, Blank;
    AtBound(document, i, w + [ch]);
    AtConcat(document, i, w, [ch]);
    GapSkipped(document, i, w);
    BlankNothing();
    assert "" + [ch] == [ch];
    ScanSymbol(document, i + |w|, "", ch);
    PastOneComment(document, i + |w|);
    if Blank(w) {
      BlankSkipped(document, i, w);
    }
  }

  /** Appending at the next index. */
  lemma PutNext(es: seq<Entry>, index: nat, v: Value)
    requires |es| == index && forall i :: 0 <= i < index ==> es[i].key == Index(i)
    ensures Put(es, Index(index), v) == es + [Entry(Index(index), v)]
  {
    var n := LowerBound(es, Index(index));
    assert n == index;
  }

  ghost predicate Counted(es: seq<Entry>, index: nat) {
    |es| == index && forall i :: 0 <= i < index ==> es[i].key == Index(i)
  }

  lemma MaxIs(a: nat, b: nat)
    ensures Max(a, b) >= a && Max(a, b) >= b && (Max(a, b) == a || Max(a, b) == b)
  {
  }

  lemma ReadsSyntaxIs(c: Config, v: Value, s: State, w: string, x: Syntax)
    requires s.pos <= |c.document| && Readable(x, c.toDouble)
    ensures ReadsSyntax(c, v, s, w, x) <==>
            ReadValue(c, v, s) ==
            if s.depth + Height(x) <= STACK_LIMIT
            then Done(true, Denote(x, c.toDouble), s.(pos := s.pos + |w| + |Render(x)|)) else Threw
  {
    hide ReadValue, Height, Denote, Render, Readable, Regular;
  }

  lemma ReadsAsIs(r: Outcome, fits: bool, value: Value, s: State, end: nat)
    ensures ReadsAs(r, fits, value, s, end) <==> r == if fits then Done(true, value, s.(pos := end)) else Threw
  {
  }

  lemma CountedNext(es: seq<Entry>, index: nat, v: Value)
    requires Counted(es, index)
    ensures Put(es, Index(index), v) == es + [Entry(Index(index), v)]
    ensures Counted(es + [Entry(Index(index), v)], index + 1)
  {
    PutNext(es, index, v);
    hide Put;
  }

  lemma DenoteNoItems(index: nat, items: seq<Item>, toDouble: JsonNumbers.ToDouble)
    requires ReadableItems(items, toDouble) && items == []
    ensures DenoteItems(index, items, toDouble) == [] && ItemsHeight(items) == 0
  {
  }

  /** The places of a gap, a value, the gap after it, a separator and the rest. */
  lemma PartsAt(document: string, i: nat, w: string, r: string, after: string, sep: string, tail: string)
    requires At(document, i, w + (r + (after + (sep + tail))))
    ensures var p := i + |w| + |r|;
            && At(document, i, w + r) && At(document, i + |w|, r) && At(document, p, after + sep)
            && p <= |document| && At(document, p + |after| + |sep|, tail)
  {
    hide *;
    var p := i + |w| + |r|;
    AtConcat(document, i, w, r + (after + (sep + tail)));
    AtConcat(document, i + |w|, r, after + (sep + tail));
    AtConcat(document, i, w, r);
    AtConcat(document, p, after, sep + tail);
    AtConcat(document, p + |after|, sep, tail);
    AtConcat(document, p, after, sep);
    AtBound(document, p, after + sep);
  }

  /** The items after the first and its comma. */
  ghost function ItemsTail(rest: seq<Item>): string {
    if rest == [] then "" else ItemsText(rest[0].before, rest)
  }

  function ItemSeparator(rest: seq<Item>): char {
    if rest == [] then ']' else ','
  }

  lemma ItemsTailIs(rest: seq<Item>)
    ensures rest == [] ==> ItemsTail(rest) == "" && ItemSeparator(rest) == ']'
    ensures rest != [] ==> ItemsTail(rest) == ItemsText(rest[0].before, rest) && ItemSeparator(rest) == ','
    ensures AfterItem(rest) == [ItemSeparator(rest)] + ItemsTail(rest)
  {
    AfterItemIs(rest);
    hide AfterItem, ItemsText;
  }

  /** Where the parts of the items stand. */
  lemma ItemPlaces(document: string, i: nat, w: string, items: seq<Item>, comments: bool)
    requires items != [] && AcceptedItems(items, comments) && At(document, i, ItemsText(w, items))
    ensures var after, rest, p := items[0].after, items[1..], i + |w| + |Render(items[0].value)|;
            && At(document, i, w + Render(items[0].value)) && At(document, p, after + [ItemSeparator(rest)])
            && p <= |document| && Stops(document, i + |w|, items[0].value)
            && i + |ItemsText(w, items)| == p + |after| + 1 + |ItemsTail(rest)|
            && At(document, p + |after| + 1, ItemsTail(rest))
  {
    hide *;
    var rest := items[1..];
    ItemsParts(items, w, comments);
    ItemsTailIs(rest);
    ItemPlacesIn(document, i, w, items[0], ItemSeparator(rest), ItemsTail(rest), comments);
  }

  lemma ItemPlacesIn(document: string, i: nat, w: string, item: Item, ch: char, tail: string, comments: bool)
    requires At(document, i, w + (Render(item.value) + (item.after + ([ch] + tail)))) && (ch == ',' || ch == ']')
    requires Gap(item.after, true) && Accepted(item.value, comments)
    ensures var p := i + |w| + |Render(item.value)|;
            && At(document, i, w + Render(item.value)) && At(document, p, item.after + [ch])
            && p <= |document| && Stops(document, i + |w|, item.value) && At(document, p + |item.after| + 1, tail)
  {
    hide *;
    PartsAt(document, i, w, Render(item.value), item.after, [ch], tail);
    FollowedBy(document, i + |w| + |Render(item.value)|, item.after, ch);
    DelimitedStops(document, i + |w|, item.value, comments);
  }

  /** A turn of the loop over items whose value reads as it should. */
  lemma ItemStep(c: Config, index: nat, es: seq<Entry>, s: State, w: string, items: seq<Item>)
    requires items != [] && AcceptedItems(items, c.allowComments) && Counted(es, index)
    requires s.pos <= |c.document| && At(c.document, s.pos, ItemsText(w, items))
    requires Readable(items[0].value, c.toDouble) && ReadsSyntax(c, Null, s, w, items[0].value)
    ensures var value, rest, p := items[0].value, items[1..], s.pos + |w| + |Render(items[0].value)|;
            var es' := es + [Entry(Index(index), Denote(value, c.toDouble))];
            var s2 := s.(pos := p + |items[0].after| + 1);
            && s2.pos <= |c.document| && Counted(es', index + 1)
            && ReadItems(c, index, es, s) ==
               if s.depth + Height(value) > STACK_LIMIT then Threw
               else if rest == [] then Done(true, Arr(es'), s2)
               else ReadItems(c, index + 1, es', s2)
  {
    hide *;
    var value, after, rest := items[0].value, items[0].after, items[1..];
    ItemsParts(items, w, c.allowComments);
    ItemPlaces(c.document, s.pos, w, items, c.allowComments);
    var p := s.pos + |w| + |Render(value)|;
    ReadsSyntaxIs(c, Null, s, w, value);
    var child, s1 := Denote(value, c.toDouble), s.(pos := p);
    var es' := es + [Entry(Index(index), child)];
    CountedNext(es, index, child);
    ItemTurnIs(c, index, es, s, child, s1);
    ReadItemsIs(c, index, es, s);
    ItemsTailIs(rest);
    ItemEndAt(c, es', s1, after, ItemSeparator(rest));
  }

  lemma {:induction false} ReadsItems(c: Config, index: nat, es: seq<Entry>, s: State, w: string, items: seq<Item>)
    requires items != [] && AcceptedItems(items, c.allowComments) && ReadableItems(items, c.toDouble)
    requires Gap(w, c.allowComments) && Counted(es, index)
    requires s.pos <= |c.document| && At(c.document, s.pos, ItemsText(w, items))
    ensures ReadsAs(ReadItems(c, index, es, s), s.depth + ItemsHeight(items) <= STACK_LIMIT,
                    Arr(es + DenoteItems(index, items, c.toDouble)), s, s.pos + |ItemsText(w, items)|)
    decreases items, 0
  {
    hide *;
    var value, rest := items[0].value, items[1..];
    ItemsParts(items, w, c.allowComments);
    ItemsUnfold(items, index, c.toDouble);
    ItemPlaces(c.document, s.pos, w, items, c.allowComments);
    assert items[0].value < items[0];
    ReadsValue(c, Null, s, w, value);
    ItemStep(c, index, es, s, w, items);
    var s2 := s.(pos := s.pos + |w| + |Render(value)| + |items[0].after| + 1);
    var es' := es + [Entry(Index(index), Denote(value, c.toDouble))];
    MaxIs(Height(value), ItemsHeight(rest));
    ItemsTailIs(rest);
    var fits := s.depth + ItemsHeight(items) <= STACK_LIMIT;
    var all := Arr(es + DenoteItems(index, items, c.toDouble));
    ReadsAsIs(ReadItems(c, index, es, s), fits, all, s, s.pos + |ItemsText(w, items)|);
    if s.depth + Height(value) <= STACK_LIMIT {
      if rest == [] {
        DenoteNoItems(index + 1, rest, c.toDouble);
        assert es + DenoteItems(index, items, c.toDouble) == es';
      } else {
        ItemsParts(rest, rest[0].before, c.allowComments);
        ItemsUnfold(rest, index + 1, c.toDouble);
        ReadsItems(c, index + 1, es', s2, rest[0].before, rest);
        assert es' + DenoteItems(index + 1, rest, c.toDouble) == es + DenoteItems(index, items, c.toDouble);
        ReadsAsIs(ReadItems(c, index + 1, es', s2), fits, all, s2, s2.pos + |ItemsText(rest[0].before, rest)|);
      }
    }
  }

  lemma ReadArrayEmpty(c: Config, s: State, inner: string)
    requires s.pos <= |c.document| && Blank(inner) && At(c.document, s.pos, inner + "]")
    ensures s.pos + |inner| + 1 <= |c.document|
    ensures ReadArray(c, s) == Done(true, Arr([]), s.(pos := s.pos + |inner| + 1))
  {
    TokenStart(c.document, s.pos, inner, ']');
    AtConcat(c.document, s.pos, inner, "]");
    ScanSymbol(c.document, s.pos + |inner|, "", ']');
    hide Scan, SpacesEnd, At, Blank, ReadItems, Regular;
  }

  /** An array that is not empty is read item by item from its opening bracket. */
  lemma ReadArrayFull(c: Config, s: State, w: string, ch: char)
    requires s.pos <= |c.document| && Gap(w, true) && At(c.document, s.pos, w + [ch]) && !IsSpace(ch) && ch != ']'
    ensures ReadArray(c, s) == ReadItems(c, 0, [], s)
  {
    hide *;
    var k := SpacesEnd(c.document, s.pos);
    FirstInside(c.document, s.pos, w, ch);
    ReadArrayUnfold(c, s);
    SpacesAreBlank(c.document, s.pos);
    BlankIsGap(c.document[s.pos..k], c.allowComments);
    AtHere(c.document, s.pos, k);
    ReadItemsSkips(c, s, c.document[s.pos..k]);
  }

  lemma ReadArrayUnfold(c: Config, s: State)
    requires s.pos <= |c.document|
    ensures s.pos <= SpacesEnd(c.document, s.pos) <= |c.document|
    ensures var k := SpacesEnd(c.document, s.pos);
            ReadArray(c, s) ==
            if Peek(c.document, k) == ']' then Done(true, Arr([]), s.(pos := Scan(c.document, k).end))
            else ReadItems(c, 0, [], s.(pos := k))
  {
    hide Scan, ReadItems, Regular;
  }

  /** The first character after a gap that is no space. */
  lemma FirstInside(document: string, i: nat, w: string, ch: char)
    requires i <= |document| && Gap(w, true) && At(document, i, w + [ch]) && !IsSpace(ch) && ch != ']'
    ensures Peek(document, SpacesEnd(document, i)) != ']'
  {
    hide At, Gap, Blank, Scan, ScanPastComments, SpacesEnd;
    AtConcat(document, i, w, [ch]);
    GapSkipped(document, i, w);
    if Blank(w) {
      TokenStart(document, i, w, ch);
    } else {
      ScanStart(document, i);
    }
  }

  lemma ReadValueSkips(c: Config, v: Value, s: State, g: string)
    requires s.pos <= |c.document| && Gap(g, c.allowComments) && At(c.document, s.pos, g)
    ensures s.pos + |g| <= |c.document| && ReadValue(c, v, s.(pos := s.pos + |g|)) == ReadValue(c, v, s)
  {
    hide *;
    NextTokenSkips(c, s.pos, g);
    ReadValueSame(c, v, s, s.(pos := s.pos + |g|));
  }

  lemma ReadValueSame(c: Config, v: Value, s: State, s': State)
    requires s.pos <= |c.document| && s'.pos <= |c.document| && s'.depth == s.depth && s'.errors == s.errors
    requires NextToken(c, s'.pos) == NextToken(c, s.pos)
    ensures ReadValue(c, v, s') == ReadValue(c, v, s)
  {
    hide NextToken, ReadMembers, ReadArray, NumberOf, StringValue, Regular, Leave;
  }

  lemma ReadItemsSkips(c: Config, s: State, g: string)
    requires s.pos <= |c.document| && Gap(g, c.allowComments) && At(c.document, s.pos, g)
    ensures s.pos + |g| <= |c.document| && ReadItems(c, 0, [], s.(pos := s.pos + |g|)) == ReadItems(c, 0, [], s)
  {
    hide *;
    ReadValueSkips(c, Null, s, g);
    var s' := s.(pos := s.pos + |g|);
    ItemTurnSame(c, 0, [], s, s');
    ReadItemsIs(c, 0, [], s);
    ReadItemsIs(c, 0, [], s');
  }

  lemma ItemTurnSame(c: Config, index: nat, es: seq<Entry>, s: State, s': State)
    requires s.pos <= |c.document| && s'.pos <= |c.document| && ReadValue(c, Null, s') == ReadValue(c, Null, s)
    ensures ItemTurn(c, index, es, s') == ItemTurn(c, index, es, s)
  {
    hide ReadValue, ItemEnd, Put, Regular, RecoverEnd;
  }

  lemma ItemsStart(w: string, items: seq<Item>, comments: bool)
    requires items != [] && AcceptedItems(items, comments)
    ensures var r := Render(items[0].value);
            && r != "" && !IsSpace(r[0]) && r[0] != ']' && ItemsText(w, items) == (w + [r[0]]) + (r[1..] + (items[0].after + AfterItem(items[1..])))
  {
    hide *;
    ItemsParts(items, w, comments);
    FirstChar(items[0].value, comments);
    var r, rest := Render(items[0].value), items[0].after + AfterItem(items[1..]);
    assert w + (r + rest) == (w + [r[0]]) + (r[1..] + rest);
  }

  lemma CountedNothing()
    ensures Counted([], 0)
  {
  }

  lemma ReadsArray(c: Config, s: State, inner: string, items: seq<Item>)
    requires s.pos <= |c.document| && s.depth <= STACK_LIMIT && (items == [] ==> Blank(inner))
    requires AcceptedItems(items, c.allowComments) && ReadableItems(items, c.toDouble)
    requires At(c.document, s.pos, ArrayBody(inner, items))
    ensures ReadsAs(ReadArray(c, s), s.depth + ItemsHeight(items) <= STACK_LIMIT,
                    Arr(DenoteItems(0, items, c.toDouble)), s, s.pos + |ArrayBody(inner, items)|)
    decreases items, 1
  {
    hide *;
    ArrayBodyIs(inner, items);
    if items == [] {
      ReadArrayEmpty(c, s, inner);
      DenoteNoItems(0, items, c.toDouble);
      AfterItemIs(items);
      ReadsAsIs(ReadArray(c, s), true, Arr([]), s, s.pos + |ArrayBody(inner, items)|);
    } else {
      ReadArrayItems(c, s, items);
      ItemsParts(items, items[0].before, c.allowComments);
      CountedNothing();
      ReadsItems(c, 0, [], s, items[0].before, items);
      assert [] + DenoteItems(0, items, c.toDouble) == DenoteItems(0, items, c.toDouble);
    }
  }

  lemma ReadArrayItems(c: Config, s: State, items: seq<Item>)
    requires s.pos <= |c.document| && items != [] && AcceptedItems(items, c.allowComments)
    requires At(c.document, s.pos, ItemsText(items[0].before, items))
    ensures ReadArray(c, s) == ReadItems(c, 0, [], s)
  {
    hide *;
    var w, r := items[0].before, Render(items[0].value);
    ItemsParts(items, w, c.allowComments);
    ItemsStart(w, items, c.allowComments);
    AtConcat(c.document, s.pos, w + [r[0]], r[1..] + (items[0].after + AfterItem(items[1..])));
    GapWiden(w, c.allowComments);
    ReadArrayFull(c, s, w, r[0]);
  }

  lemma GapWiden(g: string, comments: bool)
    requires Gap(g, comments)
    ensures Gap(g, true)
  {
    hide *;
    if !comments {
      GapIsBlank(g);
      BlankIsGap(g, true);
    }
  }

  /** The text of an array after its opening bracket. */
  ghost function ArrayBody(inner: string, items: seq<Item>): string {
    if items == [] then inner + "]" else ItemsText(items[0].before, items)
  }

  lemma ArrayBodyIs(inner: string, items: seq<Item>)
    ensures items == [] ==> ArrayBody(inner, items) == inner + "]"
    ensures items != [] ==> ArrayBody(inner, items) == ItemsText(items[0].before, items)
    ensures Render(ArrayLiteral(inner, items)) == "[" + ArrayBody(inner, items)
  {
  }

  // ---------------------------------------------------------------------------
  // Objects
  // ---------------------------------------------------------------------------

  ghost function KeyOf(m: Member): Key
    requires Decodable(m.name)
  {
    Name(Meanings(m.name))
  }

  lemma MembersParts(ms: seq<Member>, comments: bool)
    requires ms != [] && AcceptedMembers(ms, comments)
    ensures var m := ms[0];
            && Gap(m.before, true) && Blank(m.beforeColon) && Gap(m.afterColon, comments) && AcceptedAfter(m, ms[1..])
            && AllWellSpelled(m.name) && Accepted(m.value, comments) && AcceptedMembers(ms[1..], comments)
            && MembersText(ms) == m.before + (StringText(m.name) + (m.beforeColon + (":" + (m.afterColon + MemberTail(ms)))))
            && MemberTail(ms) == Render(m.value) + (m.after + AfterMember(ms[1..]))
  {
    assert AcceptedMember(ms[0], comments) && AcceptedAfter(ms[0], ms[1..]);
    hide Render, Accepted, Gap, Blank, AcceptedAfter, StringText, AllWellSpelled;
  }

  lemma MembersUnfold(ms: seq<Member>, es: seq<Entry>, toDouble: JsonNumbers.ToDouble)
    requires ms != [] && ReadableMembers(ms, toDouble)
    ensures var m := ms[0];
            && Decodable(m.name) && Readable(m.value, toDouble) && ReadableMembers(ms[1..], toDouble)
            && MembersHeight(ms) == Max(Height(m.value), MembersHeight(ms[1..]))
            && DenoteMembers(es, ms, toDouble) ==
               DenoteMembers(Put(es, KeyOf(m), Denote(m.value, toDouble)), ms[1..], toDouble)
  {
    assert ReadableMember(ms[0], toDouble);
    hide Render, Denote, Height, Readable, Put, Meanings, Decodable;
  }

  lemma DenoteNoMembers(es: seq<Entry>, ms: seq<Member>, toDouble: JsonNumbers.ToDouble)
    requires ReadableMembers(ms, toDouble) && ms == []
    ensures DenoteMembers(es, ms, toDouble) == es && MembersHeight(ms) == 0
  {
  }

  /** What stands between a member and the next, or the closing brace. */
  function SeparatorText(rest: seq<Member>): string {
    if rest == [] then "}" else rest[0].separator
  }

  /** Where the parts of the members stand. */
  lemma MemberPlaces(document: string, i: nat, ms: seq<Member>, comments: bool)
    requires ms != [] && AcceptedMembers(ms, comments) && At(document, i, MembersText(ms))
    ensures var m, rest := ms[0], ms[1..];
            var p1 := i + |m.before| + |StringText(m.name)|;
            var p2 := p1 + |m.beforeColon| + 1;
            var p3 := p2 + |m.afterColon| + |Render(m.value)|;
            var sep := SeparatorText(rest);
            && At(document, i, m.before + StringText(m.name)) && At(document, p1, m.beforeColon + ":")
            && At(document, p2, m.afterColon + Render(m.value)) && At(document, p3, m.after + sep)
            && p3 <= |document| && Stops(document, p2 + |m.afterColon|, m.value)
            && i + |MembersText(ms)| == p3 + |m.after| + |sep| + (if rest == [] then 0 else |MembersText(rest)|)
            && (rest != [] ==> At(document, p3 + |m.after| + |sep|, MembersText(rest)))
  {
    hide *;
    var m, rest := ms[0], ms[1..];
    MembersParts(ms, comments);
    AfterMemberIs(rest);
    SeparatorIs(rest);
    var name, tail := StringText(m.name), MemberTail(ms);
    var p0 := i + |m.before|;
    var p1 := p0 + |name|;
    var p2 := p1 + |m.beforeColon| + 1;
    AtConcat(document, i, m.before, name + (m.beforeColon + (":" + (m.afterColon + tail))));
    AtConcat(document, p0, name, m.beforeColon + (":" + (m.afterColon + tail)));
    AtConcat(document, i, m.before, name);
    AtConcat(document, p1, m.beforeColon, ":" + (m.afterColon + tail));
    AtConcat(document, p1 + |m.beforeColon|, ":", m.afterColon + tail);
    AtConcat(document, p1, m.beforeColon, ":");
    ValuePlaces(document, p2, m, rest, if rest == [] then "" else MembersText(rest), comments);
  }

  lemma SeparatorIs(rest: seq<Member>)
    ensures rest == [] ==> SeparatorText(rest) == "}"
    ensures rest != [] ==> SeparatorText(rest) == rest[0].separator
  {
  }

  lemma ValuePlaces(document: string, i: nat, m: Member, rest: seq<Member>, tail: string, comments: bool)
    requires At(document, i, m.afterColon + (Render(m.value) + (m.after + (SeparatorText(rest) + tail))))
    requires Accepted(m.value, comments) && AcceptedAfter(m, rest)
    ensures var p, sep := i + |m.afterColon| + |Render(m.value)|, SeparatorText(rest);
            && At(document, i, m.afterColon + Render(m.value)) && At(document, p, m.after + sep)
            && p <= |document| && Stops(document, i + |m.afterColon|, m.value) && At(document, p + |m.after| + |sep|, tail)
  {
    hide *;
    var p := i + |m.afterColon| + |Render(m.value)|;
    PartsAt(document, i, m.afterColon, Render(m.value), m.after, SeparatorText(rest), tail);
    AfterDelimits(document, p, m, rest);
    DelimitedStops(document, i + |m.afterColon|, m.value, comments);
  }

  lemma AfterUnfold(m: Member, rest: seq<Member>)
    requires AcceptedAfter(m, rest)
    ensures rest != [] ==> Gap(m.after, true) && Separates(m.after, SeparatorText(rest))
    ensures rest == [] ==> Gap(m.after, true) || TrailingComma(m)
  {
    hide Gap, TrailingComma, Separates;
  }

  lemma SeparatesUnfold(after: string, separator: string)
    ensures Separates(after, separator) ==> (Junk(separator) || separator == ",") && separator != ""
    ensures Separates(after, separator) && Blank(after) ==> separator == ","
  {
    hide QuotedRest;
    if exists n: Numeral :: ReadAsNumeral(n) && separator == NumeralText(n) {
      var n: Numeral :| ReadAsNumeral(n) && separator == NumeralText(n);
      NumeralStart(n);
      hide NumeralText, ReadAsNumeral, Blank;
    } else {
      hide NumeralText, ReadAsNumeral, Blank;
    }
  }

  /** A gap and a comma, or a comment and any separator, delimit a value. */
  lemma GapDelimits(document: string, i: nat, g: string, sep: string)
    requires Gap(g, true) && At(document, i, g + sep) && (g == "" ==> sep == "," || sep == "}")
    ensures i <= |document| && Delimited(document, i)
  {
    AtBound(document, i, g + sep);
    AtConcat(document, i, g, sep);
    if g == "" {
      AtChar(document, i, sep, 0);
    }
    GapSkipped(document, i, g);
    hide At, Gap, Scan, ScanPastComments;
  }

  lemma TrailingParts(m: Member) returns (g: string, sep: string, h: string)
    requires TrailingComma(m)
    ensures m.name == [] && m.after == g + (sep + h) && Gap(g, true) && Gap(h, true) && Separates(g, sep)
  {
    hide Gap, Separates;
    var i, j :|
      0 <= i < j <= |m.after| && Gap(m.after[..i], true) && Separates(m.after[..i], m.after[i..j]) && Gap(m.after[j..], true);
    g, sep, h := m.after[..i], m.after[i..j], m.after[j..];
    assert m.after == g + (sep + h);
  }

  lemma AfterDelimits(document: string, i: nat, m: Member, rest: seq<Member>)
    requires AcceptedAfter(m, rest) && At(document, i, m.after + SeparatorText(rest))
    ensures i <= |document| && Delimited(document, i)
  {
    hide *;
    BlankNothing();
    AfterUnfold(m, rest);
    SeparatorIs(rest);
    SeparatesUnfold(m.after, SeparatorText(rest));
    if Gap(m.after, true) {
      GapDelimits(document, i, m.after, SeparatorText(rest));
    } else {
      var g, sep, h := TrailingParts(m);
      SeparatesUnfold(g, sep);
      assert m.after + SeparatorText(rest) == (g + sep) + (h + SeparatorText(rest));
      AtConcat(document, i, g + sep, h + SeparatorText(rest));
      GapDelimits(document, i, g, sep);
    }
  }

  lemma MemberTurnUnfold(c: Config, name: string, es: seq<Entry>, s: State, key: string)
    requires s.pos <= |c.document|
    ensures var t := ScanPastComments(c.document, s.pos);
            t.kind == StringToken && Decode(c.document, t.start + 1, t.end - 1) == Text(key) ==>
              MemberTurn(c, name, es, s) == MemberRest(c, key, es, s.(pos := t.end))
  {
    hide ScanPastComments, Decode, MemberRest, Regular, RegularTurn, RecoverEnd;
  }

  lemma MemberTurnIs(c: Config, name: string, es: seq<Entry>, s: State, t: Token, key: string)
    requires s.pos <= |c.document| && ScanPastComments(c.document, s.pos) == t && t.kind == StringToken
    requires t.start + 2 <= t.end <= |c.document| && Decode(c.document, t.start + 1, t.end - 1) == Text(key)
    ensures MemberTurn(c, name, es, s) == MemberRest(c, key, es, s.(pos := t.end))
  {
    hide *;
    MemberTurnUnfold(c, name, es, s, key);
  }

  lemma MemberRestIs(c: Config, key: string, es: seq<Entry>, s: State, colon: Token, child: Value, s2: State)
    requires s.pos <= |c.document| && s2.pos <= |c.document|
    requires Scan(c.document, s.pos) == colon && colon.kind == MemberSeparator
    ensures colon.end <= |c.document|
    ensures var s1, v := s.(pos := colon.end), MemberOrNull(es, key);
            && (ReadValue(c, v, s1) == Threw ==> MemberRest(c, key, es, s) == Last(Threw))
            && (ReadValue(c, v, s1) == Done(true, child, s2) ==>
                  MemberRest(c, key, es, s) == MemberEnd(c, key, Put(es, Name(key), child), s2))
  {
    hide Scan, ReadValue, MemberEnd, Put, Regular, RegularTurn, MemberOrNull, RecoverEnd;
  }

  lemma ReadMembersIs(c: Config, name: string, es: seq<Entry>, s: State)
    requires s.pos <= |c.document|
    ensures match MemberTurn(c, name, es, s)
            case Last(r) => ReadMembers(c, name, es, s) == r
            case More(name', es', s') =>
              s'.pos <= |c.document| && ReadMembers(c, name, es, s) == ReadMembers(c, name', es', s')
  {
    hide MemberTurn, Regular;
  }

  lemma MemberEndUnfold(c: Config, key: string, es: seq<Entry>, s: State)
    requires s.pos <= |c.document|
    ensures var comma, last := Scan(c.document, s.pos), ScanPastComments(c.document, s.pos);
            comma.kind == ObjectEnd || comma.kind == ArraySeparator || comma.kind == Comment ==>
              MemberEnd(c, key, es, s) ==
              if last.kind == ObjectEnd then Last(Done(true, Obj(es), s.(pos := last.end))) else More(key, es, s.(pos := last.end))
  {
    hide Scan, ScanPastComments, Regular, RegularTurn, RecoverEnd;
  }

  /** The turn's end at a gap and the closing brace. */
  lemma MemberEndAtBrace(c: Config, key: string, es: seq<Entry>, s: State, g: string)
    requires s.pos <= |c.document| && Gap(g, true) && At(c.document, s.pos, g + "}")
    ensures s.pos + |g| + 1 <= |c.document|
    ensures MemberEnd(c, key, es, s) == Last(Done(true, Obj(es), s.(pos := s.pos + |g| + 1)))
  {
    hide *;
    SeparatorSymbols();
    GapThenSymbol(c.document, s.pos, g, '}');
    MemberEndUnfold(c, key, es, s);
  }

  /** The turn's end at a gap and a separator. */
  lemma MemberEndAtSeparator(c: Config, key: string, es: seq<Entry>, s: State, g: string, sep: string)
    requires s.pos <= |c.document| && Gap(g, true) && At(c.document, s.pos, g + sep) && Separates(g, sep)
    requires AfterSeparator(c.document, s.pos + |g| + |sep|)
    ensures s.pos + |g| + |sep| <= |c.document|
    ensures MemberEnd(c, key, es, s) == More(key, es, s.(pos := s.pos + |g| + |sep|))
  {
    hide *;
    AtBound(c.document, s.pos, g + sep);
    SeparatesUnfold(g, sep);
    AtConcat(c.document, s.pos, g, sep);
    GapSkipped(c.document, s.pos, g);
    PastOneComment(c.document, s.pos + |g|);
    JunkScanned(c.document, s.pos + |g|, sep);
    SeparatorTokenIs(Scan(c.document, s.pos + |g|), s.pos + |g|, s.pos + |g| + |sep|);
    MemberEndUnfold(c, key, es, s);
    if Blank(g) {
      CommaScanned(c.document, s.pos, g);
    }
  }

  lemma SeparatorTokenIs(t: Token, i: nat, end: nat)
    ensures Separator(t, i, end) <==> t.start == i && t.end == end && t.kind != ObjectEnd && t.kind != Comment
  {
  }

  lemma CommaScanned(document: string, i: nat, w: string)
    requires Blank(w) && At(document, i, w + ",")
    ensures Scan(document, i).kind == ArraySeparator
  {
    hide Scan, At, Blank;
    ScanSymbol(document, i, w, ',');
  }

  lemma ScanColon(document: string, i: nat, w: string)
    requires Blank(w) && At(document, i, w + ":")
    ensures i + |w| + 1 <= |document|
    ensures Scan(document, i) == Token(MemberSeparator, i + |w|, i + |w| + 1)
  {
    AtBound(document, i, w + ":");
    ScanSymbol(document, i, w, ':');
  }

  /** A turn of the loop over members, up to the value. */
  lemma MemberHead(c: Config, name: string, es: seq<Entry>, s: State, ms: seq<Member>)
    requires ms != [] && AcceptedMembers(ms, c.allowComments) && Decodable(ms[0].name)
    requires s.pos <= |c.document| && At(c.document, s.pos, MembersText(ms))
    ensures var p1 := s.pos + |ms[0].before| + |StringText(ms[0].name)|;
            && p1 + |ms[0].beforeColon| + 1 <= |c.document|
            && Scan(c.document, p1) == Token(MemberSeparator, p1 + |ms[0].beforeColon|, p1 + |ms[0].beforeColon| + 1)
            && MemberTurn(c, name, es, s) == MemberRest(c, Meanings(ms[0].name), es, s.(pos := p1))
  {
    hide *;
    var m := ms[0];
    MembersParts(ms, c.allowComments);
    MemberPlaces(c.document, s.pos, ms, c.allowComments);
    NameScanned(c.document, s.pos, m.before, m.name);
    MemberTurnIs(c, name, es, s, ScanPastComments(c.document, s.pos), Meanings(m.name));
    ScanColon(c.document, s.pos + |m.before| + |StringText(m.name)|, m.beforeColon);
  }

  /** A member name after a gap. */
  lemma NameScanned(document: string, i: nat, g: string, ps: seq<Piece>)
    requires Gap(g, true) && AllWellSpelled(ps) && At(document, i, g + StringText(ps))
    ensures var end := i + |g| + |StringText(ps)|;
            && i <= i + |g| + 2 <= end <= |document| && ScanPastComments(document, i) == Token(StringToken, i + |g|, end)
            && (Decode(document, i + |g| + 1, end - 1).Text? <==> Decodable(ps))
            && (Decodable(ps) ==> Decode(document, i + |g| + 1, end - 1) == Text(Meanings(ps)))
  {
    hide *;
    AtBound(document, i, g + StringText(ps));
    AtConcat(document, i, g, StringText(ps));
    GapSkipped(document, i, g);
    BlankNothing();
    AcceptedScalar(StringLiteral(ps), false, ps => None);
    assert "" + StringText(ps) == StringText(ps);
    ScanString(document, i + |g|, "", ps);
    PastOneComment(document, i + |g|);
  }

  /** A member begins with a gap or a quote. */
  lemma MemberStart(document: string, i: nat, ms: seq<Member>, comments: bool)
    requires ms != [] && AcceptedMembers(ms, comments) && At(document, i, MembersText(ms))
    ensures AfterSeparator(document, i)
  {
    hide *;
    MembersParts(ms, comments);
    MemberPlaces(document, i, ms, comments);
    StringTextStarts(ms[0].name);
    StartsAfterSeparator(document, i, ms[0].before, StringText(ms[0].name));
  }

  lemma StringTextStarts(ps: seq<Piece>)
    ensures |StringText(ps)| >= 2 && StringText(ps)[0] == '"'
  {
    hide Spellings;
  }

  lemma StartsAfterSeparator(document: string, i: nat, g: string, text: string)
    requires Gap(g, true) && At(document, i, g + text) && text != "" && (text[0] == '"' || text[0] == '}')
    ensures AfterSeparator(document, i)
  {
    AtConcat(document, i, g, text);
    GapSkipped(document, i, g);
    AtFirst(document, i + |g|, text);
    hide At, Gap, Scan, ScanPastComments;
  }

  /** The loop over members comes to r after this turn. */
  ghost predicate EndsIn(c: Config, turn: Turn, r: Outcome) {
    match turn
    case Last(last) => last == r
    case More(name, es, s) => s.pos <= |c.document| && ReadMembers(c, name, es, s) == r
  }

  lemma EndsInIs(c: Config, turn: Turn, r: Outcome)
    ensures turn.Last? ==> (EndsIn(c, turn, r) <==> turn.r == r)
    ensures turn.More? ==> (EndsIn(c, turn, r) <==> turn.state.pos <= |c.document| && ReadMembers(c, turn.name, turn.entries, turn.state) == r)
  {
    hide ReadMembers;
  }

  /** What follows a member that is the last: the closing brace, or a comma too if its name is empty. */
  lemma LastMember(c: Config, key: string, es: seq<Entry>, s: State, m: Member)
    requires s.pos <= |c.document| && AcceptedAfter(m, []) && At(c.document, s.pos, m.after + "}") && (m.name == [] ==> key == "")
    ensures s.pos + |m.after| + 1 <= |c.document|
    ensures EndsIn(c, MemberEnd(c, key, es, s), Done(true, Obj(es), s.(pos := s.pos + |m.after| + 1)))
  {
    hide *;
    AtBound(c.document, s.pos, m.after + "}");
    AfterUnfold(m, []);
    EndsInIs(c, MemberEnd(c, key, es, s), Done(true, Obj(es), s.(pos := s.pos + |m.after| + 1)));
    if Gap(m.after, true) {
      MemberEndAtBrace(c, key, es, s, m.after);
    } else {
      var g, sep, h := TrailingParts(m);
      assert m.after + "}" == (g + sep) + (h + "}");
      AtConcat(c.document, s.pos, g + sep, h + "}");
      StartsAfterSeparator(c.document, s.pos + |g| + |sep|, h, "}");
      MemberEndAtSeparator(c, key, es, s, g, sep);
      ReadMembersEnd(c, es, s.(pos := s.pos + |g| + |sep|), h);
    }
  }

  /** A closing brace where a member name is expected, after an empty name or none. */
  lemma ReadMembersEnd(c: Config, es: seq<Entry>, s: State, g: string)
    requires s.pos <= |c.document| && Gap(g, true) && At(c.document, s.pos, g + "}")
    ensures s.pos + |g| + 1 <= |c.document|
    ensures ReadMembers(c, "", es, s) == Done(true, Obj(es), s.(pos := s.pos + |g| + 1))
  {
    hide *;
    SeparatorSymbols();
    GapThenSymbol(c.document, s.pos, g, '}');
    MemberTurnEnd(c, es, s);
    ReadMembersIs(c, "", es, s);
  }

  lemma MemberTurnEnd(c: Config, es: seq<Entry>, s: State)
    requires s.pos <= |c.document| && ScanPastComments(c.document, s.pos).kind == ObjectEnd
    ensures MemberTurn(c, "", es, s) == Last(Done(true, Obj(es), s.(pos := ScanPastComments(c.document, s.pos).end)))
  {
    hide ScanPastComments, MemberRest, Decode, Regular, RegularTurn, RecoverEnd;
  }

  lemma NoNameIsEmpty(ps: seq<Piece>)
    requires Decodable(ps)
    ensures ps == [] ==> Meanings(ps) == ""
  {
  }

  /** A turn of the loop over members whose value reads as it should. */
  lemma MemberStep(c: Config, name: string, es: seq<Entry>, s: State, ms: seq<Member>, p2: nat)
    requires ms != [] && AcceptedMembers(ms, c.allowComments)
    requires s.pos <= |c.document| && At(c.document, s.pos, MembersText(ms))
    requires Readable(ms[0].value, c.toDouble) && Decodable(ms[0].name)
    requires p2 == s.pos + |ms[0].before| + |StringText(ms[0].name)| + |ms[0].beforeColon| + 1 <= |c.document|
    requires ReadsSyntax(c, MemberOrNull(es, Meanings(ms[0].name)), s.(pos := p2), ms[0].afterColon, ms[0].value)
    ensures var m, rest := ms[0], ms[1..];
            var es' := Put(es, KeyOf(m), Denote(m.value, c.toDouble));
            var s2 := s.(pos := p2 + |m.afterColon| + |Render(m.value)| + |m.after| + |SeparatorText(rest)|);
            && s2.pos <= |c.document|
            && ReadMembers(c, name, es, s) ==
               if s.depth + Height(m.value) > STACK_LIMIT then Threw
               else if rest == [] then Done(true, Obj(es'), s2)
               else ReadMembers(c, Meanings(m.name), es', s2)
  {
    hide *;
    var m, rest := ms[0], ms[1..];
    var key, v := Meanings(m.name), MemberOrNull(es, Meanings(m.name));
    KeyIs(m);
    MembersParts(ms, c.allowComments);
    MemberPlaces(c.document, s.pos, ms, c.allowComments);
    MemberHead(c, name, es, s, ms);
    ReadMembersIs(c, name, es, s);
    ReadsSyntaxIs(c, v, s.(pos := p2), m.afterColon, m.value);
    var p1 := s.pos + |m.before| + |StringText(m.name)|;
    var child, s3 := Denote(m.value, c.toDouble), s.(pos := p2 + |m.afterColon| + |Render(m.value)|);
    AtBound(c.document, s3.pos, m.after + SeparatorText(rest));
    MemberRestIs(c, key, es, s.(pos := p1), Scan(c.document, p1), child, s3);
    MemberEndStep(c, key, Put(es, Name(key), child), s3, ms);
    var s2 := s.(pos := s3.pos + |m.after| + |SeparatorText(rest)|);
    EndsInIs(c, MemberEnd(c, key, Put(es, Name(key), child), s3), Done(true, Obj(Put(es, Name(key), child)), s2));
  }

  /** What follows a member. */
  lemma MemberEndStep(c: Config, key: string, es: seq<Entry>, s: State, ms: seq<Member>)
    requires ms != [] && s.pos <= |c.document| && AcceptedAfter(ms[0], ms[1..]) && AcceptedMembers(ms[1..], c.allowComments)
    requires Decodable(ms[0].name) && key == Meanings(ms[0].name)
    requires At(c.document, s.pos, ms[0].after + SeparatorText(ms[1..]))
    requires ms[1..] != [] ==> At(c.document, s.pos + |ms[0].after| + |SeparatorText(ms[1..])|, MembersText(ms[1..]))
    ensures var s2 := s.(pos := s.pos + |ms[0].after| + |SeparatorText(ms[1..])|);
            && s2.pos <= |c.document|
            && (ms[1..] == [] ==> EndsIn(c, MemberEnd(c, key, es, s), Done(true, Obj(es), s2)))
            && (ms[1..] != [] ==> MemberEnd(c, key, es, s) == More(key, es, s2))
  {
    hide *;
    var m, rest := ms[0], ms[1..];
    SeparatorIs(rest);
    NoNameIsEmpty(m.name);
    AtBound(c.document, s.pos, m.after + SeparatorText(rest));
    if rest == [] {
      LastMember(c, key, es, s, m);
    } else {
      AfterUnfold(m, rest);
      MemberStart(c.document, s.pos + |m.after| + |SeparatorText(rest)|, rest, c.allowComments);
      MemberEndAtSeparator(c, key, es, s, m.after, SeparatorText(rest));
    }
  }

  lemma KeyIs(m: Member)
    requires Decodable(m.name)
    ensures KeyOf(m) == Name(Meanings(m.name))
  {
  }

  lemma {:induction false} ReadsMembers(c: Config, name: string, es: seq<Entry>, s: State, ms: seq<Member>)
    requires ms != [] && AcceptedMembers(ms, c.allowComments) && ReadableMembers(ms, c.toDouble)
    requires s.pos <= |c.document| && At(c.document, s.pos, MembersText(ms))
    ensures ReadsAs(ReadMembers(c, name, es, s), s.depth + MembersHeight(ms) <= STACK_LIMIT,
                    Obj(DenoteMembers(es, ms, c.toDouble)), s, s.pos + |MembersText(ms)|)
    decreases ms, 0
  {
    hide *;
    var m, rest := ms[0], ms[1..];
    MembersParts(ms, c.allowComments);
    MembersUnfold(ms, es, c.toDouble);
    MemberPlaces(c.document, s.pos, ms, c.allowComments);
    var p2 := s.pos + |m.before| + |StringText(m.name)| + |m.beforeColon| + 1;
    AtBound(c.document, p2, m.afterColon + Render(m.value));
    assert ms[0].value < ms[0];
    ReadsValue(c, MemberOrNull(es, Meanings(m.name)), s.(pos := p2), m.afterColon, m.value);
    MemberStep(c, name, es, s, ms, p2);
    var s2 := s.(pos := p2 + |m.afterColon| + |Render(m.value)| + |m.after| + |SeparatorText(rest)|);
    var es' := Put(es, KeyOf(m), Denote(m.value, c.toDouble));
    MaxIs(Height(m.value), MembersHeight(rest));
    AfterMemberIs(rest);
    var fits := s.depth + MembersHeight(ms) <= STACK_LIMIT;
    var all := Obj(DenoteMembers(es, ms, c.toDouble));
    ReadsAsIs(ReadMembers(c, name, es, s), fits, all, s, s.pos + |MembersText(ms)|);
    if s.depth + Height(m.value) <= STACK_LIMIT {
      if rest == [] {
        DenoteNoMembers(es', rest, c.toDouble);
      } else {
        ReadsMembers(c, Meanings(m.name), es', s2, rest);
        ReadsAsIs(ReadMembers(c, Meanings(m.name), es', s2), fits, all, s2, s2.pos + |MembersText(rest)|);
      }
    }
  }

  /** The text of an object after its opening brace. */
  ghost function ObjectBody(inner: string, ms: seq<Member>): string {
    if ms == [] then inner + "}" else MembersText(ms)
  }

  lemma ObjectBodyIs(inner: string, ms: seq<Member>)
    ensures ms == [] ==> ObjectBody(inner, ms) == inner + "}"
    ensures ms != [] ==> ObjectBody(inner, ms) == MembersText(ms)
    ensures Render(ObjectLiteral(inner, ms)) == "{" + ObjectBody(inner, ms)
  {
  }

  lemma ReadsObject(c: Config, s: State, inner: string, ms: seq<Member>)
    requires s.pos <= |c.document| && s.depth <= STACK_LIMIT && (ms == [] ==> Gap(inner, true))
    requires AcceptedMembers(ms, c.allowComments) && ReadableMembers(ms, c.toDouble)
    requires At(c.document, s.pos, ObjectBody(inner, ms))
    ensures ReadsAs(ReadMembers(c, "", [], s), s.depth + MembersHeight(ms) <= STACK_LIMIT,
                    Obj(DenoteMembers([], ms, c.toDouble)), s, s.pos + |ObjectBody(inner, ms)|)
    decreases ms, 1
  {
    hide *;
    ObjectBodyIs(inner, ms);
    if ms == [] {
      ReadMembersEnd(c, [], s, inner);
      DenoteNoMembers([], ms, c.toDouble);
      AfterMemberIs(ms);
      ReadsAsIs(ReadMembers(c, "", [], s), true, Obj([]), s, s.pos + |ObjectBody(inner, ms)|);
    } else {
      ReadsMembers(c, "", [], s, ms);
    }
  }

  // ---------------------------------------------------------------------------
  // Values and documents
  // ---------------------------------------------------------------------------

  lemma ContainerIsRead(c: Config, v: Value, inside: State, t: Token)
    requires inside.pos <= |c.document| && t.start < t.end <= |c.document|
    ensures t.kind == ArrayBegin ==> ReadToken(c, v, inside, t) == ReadArray(c, inside) && StartsValue(t.kind)
    ensures t.kind == ObjectBegin ==> ReadToken(c, v, inside, t) == ReadMembers(c, "", [], inside) && StartsValue(t.kind)
  {
    hide ReadArray, ReadMembers, Regular;
  }

  lemma ScanOpening(document: string, i: nat, ch: char, body: string)
    requires At(document, i, [ch] + body) && (ch == '[' || ch == '{')
    ensures i + 1 <= |document| && At(document, i + 1, body)
    ensures Scan(document, i) == Token(if ch == '[' then ArrayBegin else ObjectBegin, i, i + 1)
  {
    hide At, Blank, Scan;
    BlankNothing();
    AtConcat(document, i, [ch], body);
    AtBound(document, i, [ch]);
    assert "" + [ch] == [ch];
    ScanSymbol(document, i, "", ch);
  }

  lemma ContainerUnfold(x: Syntax, comments: bool, toDouble: JsonNumbers.ToDouble)
    requires Accepted(x, comments) && Readable(x, toDouble)
    ensures x.ArrayLiteral? ==>
              && (x.items == [] ==> Blank(x.inner)) && AcceptedItems(x.items, comments) && ReadableItems(x.items, toDouble)
              && Height(x) == 1 + ItemsHeight(x.items) && Denote(x, toDouble) == Arr(DenoteItems(0, x.items, toDouble))
    ensures x.ObjectLiteral? ==>
              && (x.members == [] ==> Gap(x.inner, true)) && AcceptedMembers(x.members, comments) && ReadableMembers(x.members, toDouble)
              && Height(x) == 1 + MembersHeight(x.members) && Denote(x, toDouble) == Obj(DenoteMembers([], x.members, toDouble))
  {
    hide Blank, Gap, AcceptedItems, ReadableItems, AcceptedMembers, ReadableMembers, ItemsHeight, MembersHeight, DenoteItems, DenoteMembers;
  }

  lemma ReadsContainer(c: Config, v: Value, s: State, x: Syntax)
    requires s.pos <= |c.document| && Accepted(x, c.allowComments) && Readable(x, c.toDouble) && s.depth < STACK_LIMIT
    requires At(c.document, s.pos, Render(x)) && (x.ArrayLiteral? || x.ObjectLiteral?)
    ensures ReadsSyntax(c, v, s, "", x)
    decreases x, 0, 0
  {
    DepthBound(s);
    hide *;
    ContainerUnfold(x, c.allowComments, c.toDouble);
    var fits := s.depth + Height(x) <= STACK_LIMIT;
    var inside := State(s.pos + 1, s.depth + 1, s.errors);
    var value := Denote(x, c.toDouble);
    ReadsSyntaxIs(c, v, s, "", x);
    ReadsAsIs(ReadValue(c, v, s), fits, value, s, s.pos + |Render(x)|);
    if x.ArrayLiteral? {
      ArrayBodyIs(x.inner, x.items);
      ScanOpening(c.document, s.pos, '[', ArrayBody(x.inner, x.items));
      var t := Scan(c.document, s.pos);
      ReadsArray(c, inside, x.inner, x.items);
      ContainerIsRead(c, v, inside, t);
      ReadValueOn(c, v, s, t, fits, value, s.pos + |Render(x)|);
    } else {
      ObjectBodyIs(x.inner, x.members);
      ScanOpening(c.document, s.pos, '{', ObjectBody(x.inner, x.members));
      var t := Scan(c.document, s.pos);
      ReadsObject(c, inside, x.inner, x.members);
      ContainerIsRead(c, v, inside, t);
      ReadValueOn(c, v, s, t, fits, value, s.pos + |Render(x)|);
    }
  }

  lemma DepthBound(s: State)
    ensures s.depth < STACK_LIMIT ==> s.depth + 1 <= STACK_LIMIT
  {
  }

  lemma HeightPositive(x: Syntax)
    ensures Height(x) >= 1
  {
  }

  /** A text at the cursor after a gap, where a number must not go on, is read as the value it denotes
      if it fits below the stack limit; otherwise the reader throws. */
  lemma {:induction false} ReadsValue(c: Config, v: Value, s: State, w: string, x: Syntax)
    requires s.pos <= |c.document| && Gap(w, c.allowComments) && Accepted(x, c.allowComments) && Readable(x, c.toDouble)
    requires At(c.document, s.pos, w + Render(x)) && Stops(c.document, s.pos + |w|, x)
    ensures ReadsSyntax(c, v, s, w, x)
    decreases x, 1
  {
    hide *;
    AtConcat(c.document, s.pos, w, Render(x));
    AtBound(c.document, s.pos, w);
    ReadsHere(c, v, s.(pos := s.pos + |w|), x);
    ReadsAfterGap(c, v, s, w, x);
  }

  lemma ReadsHere(c: Config, v: Value, s: State, x: Syntax)
    requires s.pos <= |c.document| && Accepted(x, c.allowComments) && Readable(x, c.toDouble)
    requires At(c.document, s.pos, Render(x)) && Stops(c.document, s.pos, x)
    ensures ReadsSyntax(c, v, s, "", x)
    decreases x, 0, 1
  {
    OtherIsNoJson(x, c.allowComments);
    DepthBound(s);
    hide *;
    if s.depth >= STACK_LIMIT {
      ReadValueTooDeep(c, v, s);
      HeightPositive(x);
      ReadsSyntaxIs(c, v, s, "", x);
    } else {
      AcceptedScalar(x, c.allowComments, c.toDouble);
      match x {
        case NullLiteral => ReadsLiteral(c, v, s, x);
        case BoolLiteral(_) => ReadsLiteral(c, v, s, x);
        case NumberLiteral(n) => ReadsNumber(c, v, s, n);
        case StringLiteral(ps) => ReadsString(c, v, s, ps);
        case ArrayLiteral(_, _) => ReadsContainer(c, v, s, x);
        case ObjectLiteral(_, _) => ReadsContainer(c, v, s, x);
      }
    }
  }

  lemma ReadsAfterGap(c: Config, v: Value, s: State, w: string, x: Syntax)
    requires s.pos <= |c.document| && Gap(w, c.allowComments) && At(c.document, s.pos, w) && s.pos + |w| <= |c.document|
    requires Readable(x, c.toDouble) && ReadsSyntax(c, v, s.(pos := s.pos + |w|), "", x)
    ensures ReadsSyntax(c, v, s, w, x)
  {
    hide *;
    ReadValueSkips(c, v, s, w);
    ReadsSyntaxIs(c, v, s.(pos := s.pos + |w|), "", x);
    ReadsSyntaxIs(c, v, s, w, x);
  }

  lemma OtherIsNoJson(x: Syntax, comments: bool)
    ensures Accepted(x, comments) ==> !x.Other?
  {
  }

  lemma EndOfText(c: Config, i: nat, w: string)
    requires Blank(w) && At(c.document, i, w) && i + |w| == |c.document|
    ensures i <= |c.document| && NextToken(c, i) == Token(EndOfStream, |c.document|, |c.document|)
  {
    SpacesSkipped(c.document, i, w);
    hide At, Blank, SpacesEnd;
  }

  lemma ParseIs(c: Config, root: Value, value: Value, end: nat)
    requires ReadValue(c, root, State(0, 0, [])) == Done(true, value, State(end, 0, [])) && end <= |c.document|
    requires NextToken(c, end).end == |c.document|
    ensures Parse(c, root) ==
            if c.strictRoot && !value.Arr? && !value.Obj?
            then Done(false, value, WithError(State(|c.document|, 0, []), Token(ErrorToken, 0, |c.document|), RootMustBeContainer, None))
            else Done(true, value, State(|c.document|, 0, []))
  {
    hide ReadValue, NextToken, Regular;
  }

  lemma ParseThrows(c: Config, root: Value)
    requires ReadValue(c, root, State(0, 0, [])) == Threw
    ensures Parse(c, root) == Threw
  {
  }

  lemma ReadsText(c: Config, root: Value, before: string, x: Syntax, after: string)
    requires Blank(before) && Blank(after) && WellFormed(x) && Readable(x, c.toDouble)
    requires c.document == before + (Render(x) + after)
    ensures var end := |before| + |Render(x)|;
            && end <= |c.document| && NextToken(c, end) == Token(EndOfStream, |c.document|, |c.document|)
            && ReadValue(c, root, State(0, 0, [])) ==
               if Height(x) <= STACK_LIMIT then Done(true, Denote(x, c.toDouble), State(end, 0, [])) else Threw
  {
    hide *;
    var r, s := Render(x), State(0, 0, []);
    var end := |before| + |r|;
    AtAll(c.document, before + (r + after));
    AtConcat(c.document, 0, before, r + after);
    AtConcat(c.document, |before|, r, after);
    AtConcat(c.document, 0, before, r);
    BlankDelimits(c.document, end, after);
    WellFormedIsAccepted(x, c.allowComments);
    BlankIsGap(before, c.allowComments);
    DelimitedStops(c.document, |before|, x, c.allowComments);
    ReadsValue(c, root, s, before, x);
    ReadsSyntaxIs(c, root, s, before, x);
    EndOfText(c, end, after);
  }

  /** parse on a whole JSON text it can read: whatever the root held before, it now holds the value
      the text denotes, the whole text is consumed and no error is recorded; or parse throws, exactly
      when the text nests deeper than the stack limit.  The strict-root feature refuses a scalar. */
  lemma ParsesReadable(c: Config, root: Value, before: string, x: Syntax, after: string)
    requires Blank(before) && Blank(after) && WellFormed(x) && Readable(x, c.toDouble)
    requires c.document == before + (Render(x) + after)
    ensures Parse(c, root) ==
            if Height(x) > STACK_LIMIT then Threw
            else if c.strictRoot && !x.ArrayLiteral? && !x.ObjectLiteral?
            then Done(false, Denote(x, c.toDouble),
                      WithError(State(|c.document|, 0, []), Token(ErrorToken, 0, |c.document|), RootMustBeContainer, None))
            else Done(true, Denote(x, c.toDouble), State(|c.document|, 0, []))
  {
    hide *;
    ReadsText(c, root, before, x, after);
    DenotesContainer(x, c.toDouble);
    if Height(x) <= STACK_LIMIT {
      ParseIs(c, root, Denote(x, c.toDouble), |before| + |Render(x)|);
    } else {
      ParseThrows(c, root);
    }
  }

  lemma DenotesContainer(x: Syntax, toDouble: JsonNumbers.ToDouble)
    requires WellFormed(x) && Readable(x, toDouble)
    ensures Denote(x, toDouble).Arr? <==> x.ArrayLiteral?
    ensures Denote(x, toDouble).Obj? <==> x.ObjectLiteral?
  {
  }

  lemma AtAll(document: string, text: string)
    requires document == text
    ensures At(document, 0, text)
  {
  }

  lemma BlankDelimits(document: string, i: nat, w: string)
    requires Blank(w) && At(document, i, w) && i + |w| == |document|
    ensures i <= |document| && Delimited(document, i)
  {
    if w != "" {
      AtChar(document, i, w, 0);
    }
  }
}
