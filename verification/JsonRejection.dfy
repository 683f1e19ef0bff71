/**
 The reader on every text of its grammar: it refuses those that it cannot read, and no others.
 */
module JsonRejection {
  import opened JsonValues
  import JsonNumbers
  import opened JsonScanner
  import opened JsonParsing
  import opened JsonStrings
  import opened JsonTokens
  import opened JsonGrammar
  import opened JsonGaps
  import opened JsonLexemes
  import opened JsonAcceptance

  /** The call throws or returns false. */
  predicate Fails(r: Outcome) {
    r.Done? ==> !r.ok
  }

  // ---------------------------------------------------------------------------
  // Failure is passed on
  // ---------------------------------------------------------------------------

  lemma LeaveFails(r: Outcome)
    requires Fails(r)
    ensures Fails(Leave(r))
  {
  }

  lemma ValueFails(c: Config, v: Value, s: State, t: Token)
    requires s.pos <= |c.document| && s.depth < STACK_LIMIT && StartsValue(t.kind) && Scan(c.document, s.pos) == t
    requires t.start < t.end <= |c.document| && (t.kind == StringToken ==> t.start + 2 <= t.end)
    requires Fails(ReadToken(c, v, State(t.end, s.depth + 1, s.errors), t))
    ensures Fails(ReadValue(c, v, s))
  {
    ThrowsFails();
    hide Scan, NextToken, ReadValue, ReadToken, Leave, Fails;
    NextTokenIs(c, s.pos, t);
    ReadValueIs(c, v, s, t);
    LeaveFails(ReadToken(c, v, State(t.end, s.depth + 1, s.errors), t));
  }

  lemma ThrowsFails()
    ensures Fails(Threw)
  {
  }

  lemma ItemTurnFails(c: Config, index: nat, es: seq<Entry>, s: State)
    requires s.pos <= |c.document| && Fails(ReadValue(c, Null, s))
    ensures ItemTurn(c, index, es, s).Last? && Fails(ItemTurn(c, index, es, s).r)
  {
    hide ReadValue, ItemEnd, Put, Regular, RecoverEnd;
  }

  lemma NameFails(c: Config, name: string, es: seq<Entry>, s: State)
    requires s.pos <= |c.document|
    ensures var t := ScanPastComments(c.document, s.pos);
            t.kind == StringToken && Decode(c.document, t.start + 1, t.end - 1).Bad? ==>
              MemberTurn(c, name, es, s).Last? && Fails(MemberTurn(c, name, es, s).r)
  {
    hide ScanPastComments, Decode, MemberRest, Regular, RegularTurn, RecoverEnd;
  }

  lemma MemberRestFails(c: Config, key: string, es: seq<Entry>, s: State)
    requires s.pos <= |c.document| && Scan(c.document, s.pos).kind == MemberSeparator
    requires Fails(ReadValue(c, MemberOrNull(es, key), s.(pos := Scan(c.document, s.pos).end)))
    ensures MemberRest(c, key, es, s).Last? && Fails(MemberRest(c, key, es, s).r)
  {
    hide Scan, ReadValue, MemberEnd, Put, Regular, RegularTurn, MemberOrNull, RecoverEnd;
  }

  lemma ParseFails(c: Config, root: Value)
    requires Fails(ReadValue(c, root, State(0, 0, [])))
    ensures Fails(Parse(c, root))
  {
    hide ReadValue, NextToken, Regular;
  }

  // ---------------------------------------------------------------------------
  // Scalars
  // ---------------------------------------------------------------------------

  lemma NumberFails(c: Config, v: Value, inside: State, t: Token, n: Numeral)
    requires inside.pos <= |c.document| && ReadAsNumeral(n) && !Readable(NumberLiteral(n), c.toDouble) && t.kind == Number
    requires t.start < t.end <= |c.document| && At(c.document, t.start, NumeralText(n)) && t.end == t.start + |NumeralText(n)|
    ensures Fails(ReadToken(c, v, inside, t)) && StartsValue(t.kind)
  {
    NumeralValueIs(n, c.toDouble);
    hide NumeralText, JsonNumbers.NumberValue, ReadMembers, ReadArray, ReadAsNumeral, NumeralValue;
  }

  lemma StringFails(c: Config, v: Value, inside: State, t: Token)
    requires inside.pos <= |c.document| && t.kind == StringToken && t.start + 2 <= t.end <= |c.document|
    requires Decode(c.document, t.start + 1, t.end - 1).Bad?
    ensures Fails(ReadToken(c, v, inside, t)) && StartsValue(t.kind)
  {
    hide Decode, ReadMembers, ReadArray, Regular;
  }

  lemma RefusesNumber(c: Config, v: Value, s: State, n: Numeral)
    requires At(c.document, s.pos, NumeralText(n)) && s.pos <= |c.document|
    requires s.depth < STACK_LIMIT && ReadAsNumeral(n) && !Readable(NumberLiteral(n), c.toDouble)
    requires Stops(c.document, s.pos, NumberLiteral(n))
    ensures Fails(ReadValue(c, v, s))
  {
    hide *;
    StopsIs(c.document, s.pos, n);
    NumeralStart(n);
    AtBound(c.document, s.pos, NumeralText(n));
    var t := Scan(c.document, s.pos);
    NumberFails(c, v, State(t.end, s.depth + 1, s.errors), t, n);
    ValueFails(c, v, s, t);
  }

  lemma RefusesString(c: Config, v: Value, s: State, ps: seq<Piece>)
    requires At(c.document, s.pos, StringText(ps)) && s.pos <= |c.document|
    requires s.depth < STACK_LIMIT && AllWellSpelled(ps) && !Decodable(ps)
    ensures Fails(ReadValue(c, v, s))
  {
    hide *;
    BlankNothing();
    AcceptedScalar(StringLiteral(ps), false, c.toDouble);
    assert "" + StringText(ps) == StringText(ps);
    ScanString(c.document, s.pos, "", ps);
    var t := Scan(c.document, s.pos);
    StringFails(c, v, State(t.end, s.depth + 1, s.errors), t);
    ValueFails(c, v, s, t);
  }

  // ---------------------------------------------------------------------------
  // Containers
  // ---------------------------------------------------------------------------

  lemma UnreadableItems(items: seq<Item>, toDouble: JsonNumbers.ToDouble)
    requires !ReadableItems(items, toDouble)
    ensures items != [] && (Readable(items[0].value, toDouble) ==> items[1..] != [] && !ReadableItems(items[1..], toDouble))
  {
    assert items != [] ==> ReadableItem(items[0], toDouble) == Readable(items[0].value, toDouble);
    hide Readable;
  }

  lemma {:induction false} RefusesItems(c: Config, index: nat, es: seq<Entry>, s: State, w: string, items: seq<Item>)
    requires items != [] && AcceptedItems(items, c.allowComments) && !ReadableItems(items, c.toDouble)
    requires Gap(w, c.allowComments) && Counted(es, index)
    requires s.pos <= |c.document| && At(c.document, s.pos, ItemsText(w, items))
    ensures Fails(ReadItems(c, index, es, s))
    decreases items, 0
  {
    ThrowsFails();
    hide *;
    var value, rest := items[0].value, items[1..];
    ItemsParts(items, w, c.allowComments);
    ItemPlaces(c.document, s.pos, w, items, c.allowComments);
    UnreadableItems(items, c.toDouble);
    ItemsTailIs(items[1..]);
    assert items[0].value < items[0];
    if Readable(value, c.toDouble) {
      ReadsValue(c, Null, s, w, value);
      ItemStep(c, index, es, s, w, items);
      if s.depth + Height(value) <= STACK_LIMIT {
        var s2 := s.(pos := s.pos + |w| + |Render(value)| + |items[0].after| + 1);
        ItemsParts(rest, rest[0].before, c.allowComments);
        RefusesItems(c, index + 1, es + [Entry(Index(index), Denote(value, c.toDouble))], s2, rest[0].before, rest);
      }
    } else {
      RefusesValue(c, Null, s, w, value);
      ItemTurnFails(c, index, es, s);
      ReadItemsIs(c, index, es, s);
    }
  }

  lemma RefusesArray(c: Config, s: State, inner: string, items: seq<Item>)
    requires s.pos <= |c.document| && AcceptedItems(items, c.allowComments) && !ReadableItems(items, c.toDouble)
    requires At(c.document, s.pos, ArrayBody(inner, items))
    ensures Fails(ReadArray(c, s))
    decreases items, 1
  {
    hide *;
    UnreadableItems(items, c.toDouble);
    ArrayBodyIs(inner, items);
    ReadArrayItems(c, s, items);
    ItemsParts(items, items[0].before, c.allowComments);
    CountedNothing();
    RefusesItems(c, 0, [], s, items[0].before, items);
  }

  lemma UnreadableMembers(ms: seq<Member>, toDouble: JsonNumbers.ToDouble)
    requires !ReadableMembers(ms, toDouble)
    ensures ms != []
    ensures Decodable(ms[0].name) && Readable(ms[0].value, toDouble) ==> ms[1..] != [] && !ReadableMembers(ms[1..], toDouble)
  {
    assert ms != [] ==> (ReadableMember(ms[0], toDouble) <==> Decodable(ms[0].name) && Readable(ms[0].value, toDouble));
    hide Readable, Decodable;
  }

  /** A member whose name is no text. */
  lemma RefusesName(c: Config, name: string, es: seq<Entry>, s: State, ms: seq<Member>)
    requires ms != [] && AcceptedMembers(ms, c.allowComments) && !Decodable(ms[0].name)
    requires s.pos <= |c.document| && At(c.document, s.pos, MembersText(ms))
    ensures Fails(ReadMembers(c, name, es, s))
  {
    hide *;
    var m := ms[0];
    MembersParts(ms, c.allowComments);
    MemberPlaces(c.document, s.pos, ms, c.allowComments);
    NameScanned(c.document, s.pos, m.before, m.name);
    NameFails(c, name, es, s);
    ReadMembersIs(c, name, es, s);
  }

  lemma {:induction false} RefusesMembers(c: Config, name: string, es: seq<Entry>, s: State, ms: seq<Member>)
    requires ms != [] && AcceptedMembers(ms, c.allowComments) && !ReadableMembers(ms, c.toDouble)
    requires s.pos <= |c.document| && At(c.document, s.pos, MembersText(ms))
    ensures Fails(ReadMembers(c, name, es, s))
    decreases ms, 0
  {
    ThrowsFails();
    hide *;
    var m, rest := ms[0], ms[1..];
    UnreadableMembers(ms, c.toDouble);
    if !Decodable(m.name) {
      RefusesName(c, name, es, s, ms);
    } else {
      MembersParts(ms, c.allowComments);
      MemberPlaces(c.document, s.pos, ms, c.allowComments);
      var p1 := s.pos + |m.before| + |StringText(m.name)|;
      var p2 := p1 + |m.beforeColon| + 1;
      var key, v := Meanings(m.name), MemberOrNull(es, Meanings(m.name));
      AtBound(c.document, p2, m.afterColon + Render(m.value));
      MemberHead(c, name, es, s, ms);
      assert ms[0].value < ms[0];
      if Readable(m.value, c.toDouble) {
        ReadsValue(c, v, s.(pos := p2), m.afterColon, m.value);
        MemberStep(c, name, es, s, ms, p2);
        if s.depth + Height(m.value) <= STACK_LIMIT {
          var s2 := s.(pos := p2 + |m.afterColon| + |Render(m.value)| + |m.after| + |SeparatorText(rest)|);
          RefusesMembers(c, key, Put(es, KeyOf(m), Denote(m.value, c.toDouble)), s2, rest);
        }
      } else {
        RefusesValue(c, v, s.(pos := p2), m.afterColon, m.value);
        MemberRestFails(c, key, es, s.(pos := p1));
        ReadMembersIs(c, name, es, s);
      }
    }
  }

  lemma UnreadableContainer(x: Syntax, comments: bool, toDouble: JsonNumbers.ToDouble)
    requires Accepted(x, comments) && !Readable(x, toDouble)
    ensures x.NumberLiteral? || x.StringLiteral? || x.ArrayLiteral? || x.ObjectLiteral?
    ensures x.ArrayLiteral? ==> AcceptedItems(x.items, comments) && !ReadableItems(x.items, toDouble)
    ensures x.ObjectLiteral? ==> AcceptedMembers(x.members, comments) && !ReadableMembers(x.members, toDouble)
  {
    hide Blank, Gap, AcceptedItems, AcceptedMembers, ReadableItems, ReadableMembers, ReadAsNumeral, AllWellSpelled, Decodable;
  }

  lemma RefusesContainer(c: Config, v: Value, s: State, x: Syntax)
    requires s.pos <= |c.document| && Accepted(x, c.allowComments) && !Readable(x, c.toDouble) && s.depth < STACK_LIMIT
    requires At(c.document, s.pos, Render(x)) && (x.ArrayLiteral? || x.ObjectLiteral?)
    ensures Fails(ReadValue(c, v, s))
    decreases x, 0, 0
  {
    hide *;
    UnreadableContainer(x, c.allowComments, c.toDouble);
    var inside := State(s.pos + 1, s.depth + 1, s.errors);
    if x.ArrayLiteral? {
      ArrayBodyIs(x.inner, x.items);
      ScanOpening(c.document, s.pos, '[', ArrayBody(x.inner, x.items));
      var t := Scan(c.document, s.pos);
      RefusesArray(c, inside, x.inner, x.items);
      ContainerIsRead(c, v, inside, t);
      ValueFails(c, v, s, t);
    } else {
      ObjectBodyIs(x.inner, x.members);
      ScanOpening(c.document, s.pos, '{', ObjectBody(x.inner, x.members));
      var t := Scan(c.document, s.pos);
      UnreadableMembers(x.members, c.toDouble);
      RefusesMembers(c, "", [], inside, x.members);
      ContainerIsRead(c, v, inside, t);
      ValueFails(c, v, s, t);
    }
  }

  lemma RefusesHere(c: Config, v: Value, s: State, x: Syntax)
    requires s.pos <= |c.document| && Accepted(x, c.allowComments) && !Readable(x, c.toDouble)
    requires At(c.document, s.pos, Render(x)) && Stops(c.document, s.pos, x)
    ensures Fails(ReadValue(c, v, s))
    decreases x, 0, 1
  {
    ThrowsFails();
    hide *;
    if s.depth >= STACK_LIMIT {
      ReadValueTooDeep(c, v, s);
    } else {
      UnreadableContainer(x, c.allowComments, c.toDouble);
      AcceptedScalar(x, c.allowComments, c.toDouble);
      match x {
        case NumberLiteral(n) => RefusesNumber(c, v, s, n);
        case StringLiteral(ps) => RefusesString(c, v, s, ps);
        case ArrayLiteral(_, _) => RefusesContainer(c, v, s, x);
        case ObjectLiteral(_, _) => RefusesContainer(c, v, s, x);
      }
    }
  }

  /** A text at the cursor after a gap that is of the grammar and cannot be read makes the reader fail. */
  lemma {:induction false} RefusesValue(c: Config, v: Value, s: State, w: string, x: Syntax)
    requires s.pos <= |c.document| && Gap(w, c.allowComments) && Accepted(x, c.allowComments) && !Readable(x, c.toDouble)
    requires At(c.document, s.pos, w + Render(x)) && Stops(c.document, s.pos + |w|, x)
    ensures Fails(ReadValue(c, v, s))
    decreases x, 1
  {
    hide *;
    AtConcat(c.document, s.pos, w, Render(x));
    AtBound(c.document, s.pos, w);
    RefusesHere(c, v, s.(pos := s.pos + |w|), x);
    ReadValueSkips(c, v, s, w);
  }

  // ---------------------------------------------------------------------------
  // Documents
  // ---------------------------------------------------------------------------

  lemma RefusesText(c: Config, root: Value, before: string, x: Syntax, after: string)
    requires Blank(before) && Blank(after) && WellFormed(x) && !Readable(x, c.toDouble)
    requires c.document == before + (Render(x) + after)
    ensures Fails(Parse(c, root))
  {
    hide *;
    var r := Render(x);
    var end := |before| + |r|;
    AtAll(c.document, before + (r + after));
    AtConcat(c.document, 0, before, r + after);
    AtConcat(c.document, |before|, r, after);
    AtConcat(c.document, 0, before, r);
    BlankDelimits(c.document, end, after);
    WellFormedIsAccepted(x, c.allowComments);
    BlankIsGap(before, c.allowComments);
    DelimitedStops(c.document, |before|, x, c.allowComments);
    RefusesValue(c, root, State(0, 0, []), before, x);
    ParseFails(c, root);
  }

  lemma FailsIs(r: Outcome)
    ensures Fails(r) <==> !(r.Done? && r.ok)
  {
  }

  /** parse on every text of the grammar of RFC 8259.  It returns true if and only if the text can
      be read, nests no deeper than the stack limit, and is a container if the strict-root feature
      asks for one; then the root holds the value the text denotes, whatever it held before, and
      the whole text is consumed.  It throws on a text that can be read and nests deeper. */
  lemma ParsesText(c: Config, root: Value, before: string, x: Syntax, after: string)
    requires Blank(before) && Blank(after) && WellFormed(x) && c.document == before + (Render(x) + after)
    ensures var r := Parse(c, root);
            && (r.Done? && r.ok <==>
                  Readable(x, c.toDouble) && Height(x) <= STACK_LIMIT && (c.strictRoot ==> x.ArrayLiteral? || x.ObjectLiteral?))
            && (r.Done? && r.ok ==> r == Done(true, Denote(x, c.toDouble), State(|c.document|, 0, [])))
            && (Readable(x, c.toDouble) && Height(x) > STACK_LIMIT ==> r == Threw)
  {
    hide *;
    FailsIs(Parse(c, root));
    if Readable(x, c.toDouble) {
      ParsesReadable(c, root, before, x, after);
    } else {
      RefusesText(c, root, before, x, after);
    }
  }

  // ---------------------------------------------------------------------------
  // Two texts
  // ---------------------------------------------------------------------------

  /** An array of one string. */
  function OneString(ps: seq<Piece>): Syntax {
    ArrayLiteral("", OneItem(ps))
  }

  function OneItem(ps: seq<Piece>): seq<Item> {
    [Item("", StringLiteral(ps), "")]
  }

  lemma OneItemWellFormed(ps: seq<Piece>)
    requires AllWellSpelled(ps)
    ensures WellFormedItems(OneItem(ps)) && ItemsHeight(OneItem(ps)) == 1
  {
    hide AllWellSpelled, Blank;
    var x, items := StringLiteral(ps), OneItem(ps);
    BlankNothing();
    assert items[0].value == x && items[1..] == [];
    assert WellFormed(x) && Height(x) == 1;
    assert WellFormedItem(items[0]);
    assert ItemHeight(items[0]) == 1;
  }

  lemma OneItemReadable(ps: seq<Piece>, toDouble: JsonNumbers.ToDouble)
    ensures ReadableItems(OneItem(ps), toDouble) <==> Decodable(ps)
    ensures Decodable(ps) ==> DenoteItems(0, OneItem(ps), toDouble) == [Entry(Index(0), Str(Meanings(ps)))]
  {
    var items := OneItem(ps);
    assert items[1..] == [];
    assert ReadableItem(items[0], toDouble) <==> Decodable(ps);
    hide Decodable, Meanings;
    if Decodable(ps) {
      assert DenoteItem(items[0], toDouble) == Str(Meanings(ps));
    }
  }

  lemma OneStringText(ps: seq<Piece>)
    requires AllWellSpelled(ps)
    ensures Render(OneString(ps)) == "[\"" + Spellings(ps) + "\"]"
  {
    OneItemWellFormed(ps);
    OneItemParts(ps);
    hide *;
    var items := OneItem(ps);
    ItemsAreAccepted(items, false);
    ItemsParts(items, "", false);
    AfterItemIs(items[1..]);
    ArrayBodyIs("", items);
    InBrackets(Spellings(ps));
  }

  lemma OneItemParts(ps: seq<Piece>)
    ensures var items := OneItem(ps);
            && items[0].before == "" && items[0].after == "" && items[1..] == [] && OneString(ps) == ArrayLiteral("", items)
            && Render(items[0].value) == "\"" + (Spellings(ps) + "\"")
  {
    hide Spellings;
  }

  lemma InBrackets(s: string)
    ensures "[" + ("" + (("\"" + (s + "\"")) + ("" + "]"))) == "[\"" + s + "\"]"
  {
  }

  lemma OneStringIs(ps: seq<Piece>, toDouble: JsonNumbers.ToDouble)
    requires AllWellSpelled(ps)
    ensures var x := OneString(ps);
            && WellFormed(x) && Height(x) == 2
            && (Readable(x, toDouble) <==> Decodable(ps))
            && (Decodable(ps) ==> Denote(x, toDouble) == Arr([Entry(Index(0), Str(Meanings(ps)))]))
  {
    OneItemWellFormed(ps);
    OneItemReadable(ps, toDouble);
    BlankNothing();
    hide OneItem, WellFormedItems, ReadableItems, DenoteItems, ItemsHeight, Decodable, Meanings, Blank;
  }

  /** A string of a lone leading surrogate, which the grammar allows, is refused. */
  lemma LoneSurrogateRefused(c: Config, root: Value)
    requires c.document == "[\"\\uD800\"]"
    ensures Fails(Parse(c, root))
  {
    var ps := [Unit("D800")];
    LoneSurrogateIs();
    BlankNothing();
    hide *;
    OneStringIs(ps, c.toDouble);
    OneStringText(ps);
    assert "" + (Render(OneString(ps)) + "") == Render(OneString(ps));
    RefusesText(c, root, "", OneString(ps), "");
  }

  /** A leading surrogate and an escaped letter are two characters to the grammar and U+10041 to the
      reader. */
  lemma FalsePairAccepted(c: Config, root: Value)
    requires c.document == "[\"\\uD800\\u0041\"]"
    ensures Parse(c, root) == Done(true, Arr([Entry(Index(0), Str(Utf8(0x10041)))]), State(|c.document|, 0, []))
  {
    var ps := [Unit("D800"), Unit("0041")];
    LimitIs();
    FalsePairIs();
    DecodableIs(ps);
    BlankNothing();
    hide *;
    OneStringIs(ps, c.toDouble);
    OneStringText(ps);
    assert "" + (Render(OneString(ps)) + "") == Render(OneString(ps));
    ParsesReadable(c, root, "", OneString(ps), "");
    IsArray(ps);
  }

  lemma IsArray(ps: seq<Piece>)
    ensures OneString(ps).ArrayLiteral?
  {
  }

  lemma LimitIs()
    ensures STACK_LIMIT == 1000
  {
  }
}
