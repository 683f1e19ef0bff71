/**
 JSON texts as trees: those of RFC 8259, and all those that the reader accepts, which are more; which
 of them the reader can read, and the value it reads.
 */
module JsonGrammar {
  import opened JsonValues
  import JsonNumbers
  import opened JsonScanner
  import opened JsonParsing
  import opened JsonStrings
  import opened JsonTokens

  // ---------------------------------------------------------------------------
  // Texts
  // ---------------------------------------------------------------------------

  datatype Syntax =
    | NullLiteral
    | BoolLiteral(b: bool)
    | NumberLiteral(n: Numeral)
    | StringLiteral(ps: seq<Piece>)
    | ArrayLiteral(inner: string, items: seq<Item>)
    | ObjectLiteral(inner: string, members: seq<Member>)
    | Other(text: string)

  /** An array element, and an object member, with the white space or comments around its parts and,
      unless it is the first, the separator before it.  `inner` above is the space of an empty
      container; `Other` is text that is no JSON. */
  datatype Item = Item(before: string, value: Syntax, after: string)
  datatype Member = Member(
    separator: string, before: string, name: seq<Piece>, beforeColon: string, afterColon: string, value: Syntax, after: string)

  ghost function Render(x: Syntax): string
    decreases x
  {
    match x
    case NullLiteral => "null"
    case BoolLiteral(b) => if b then "true" else "false"
    case NumberLiteral(n) => NumeralText(n)
    case StringLiteral(ps) => StringText(ps)
    case ArrayLiteral(inner, items) => "[" + if items == [] then inner + "]" else ItemsText(items[0].before, items)
    case ObjectLiteral(inner, members) => "{" + if members == [] then inner + "}" else MembersText(members)
    case Other(text) => text
  }

  /** The items and the closing bracket, with w for the white space before the first item. */
  ghost function ItemsText(w: string, items: seq<Item>): string
    requires items != []
    decreases items, 2
  {
    w + (ItemText(items[0]) + (items[0].after + AfterItem(items[1..])))
  }

  ghost function ItemText(item: Item): string
    decreases item
  {
    Render(item.value)
  }

  /** What follows an item: the closing bracket, or a comma and the next items. */
  ghost function AfterItem(items: seq<Item>): string
    decreases items, 3
  {
    if items == [] then "]" else "," + ItemsText(items[0].before, items)
  }

  /** The members and the closing brace. */
  ghost function MembersText(ms: seq<Member>): string
    requires ms != []
    decreases ms, 2
  {
    ms[0].before + (StringText(ms[0].name) + (ms[0].beforeColon + (":" + (ms[0].afterColon + MemberTail(ms)))))
  }

  ghost function MemberTail(ms: seq<Member>): string
    requires ms != []
    decreases ms, 1
  {
    MemberText(ms[0]) + (ms[0].after + AfterMember(ms[1..]))
  }

  ghost function MemberText(m: Member): string
    decreases m
  {
    Render(m.value)
  }

  ghost function AfterMember(ms: seq<Member>): string
    decreases ms, 3
  {
    if ms == [] then "}" else ms[0].separator + MembersText(ms)
  }

  lemma AfterItemIs(items: seq<Item>)
    ensures items == [] ==> AfterItem(items) == "]" == "]" + ""
    ensures items != [] ==> AfterItem(items) == "," + ItemsText(items[0].before, items)
  {
    hide ItemsText;
  }

  lemma AfterMemberIs(ms: seq<Member>)
    ensures ms == [] ==> AfterMember(ms) == "}" == "}" + ""
    ensures ms != [] ==> AfterMember(ms) == ms[0].separator + MembersText(ms)
  {
    hide MembersText;
  }

  // ---------------------------------------------------------------------------
  // Well-formed texts and what they denote
  // ---------------------------------------------------------------------------

  /** The grammar of RFC 8259. */
  ghost predicate WellFormed(x: Syntax)
    decreases x
  {
    match x
    case NullLiteral => true
    case BoolLiteral(_) => true
    case NumberLiteral(n) => IsNumeral(n)
    case StringLiteral(ps) => AllWellSpelled(ps)
    case ArrayLiteral(inner, items) => Blank(inner) && WellFormedItems(items)
    case ObjectLiteral(inner, members) => Blank(inner) && WellFormedMembers(members)
    case Other(_) => false
  }

  ghost predicate WellFormedItem(item: Item)
    decreases item
  {
    Blank(item.before) && Blank(item.after) && WellFormed(item.value)
  }

  ghost predicate WellFormedItems(items: seq<Item>)
    decreases items
  {
    items == [] || (WellFormedItem(items[0]) && WellFormedItems(items[1..]))
  }

  ghost predicate WellFormedMember(m: Member)
    decreases m
  {
    && m.separator == ","
    && Blank(m.before) && Blank(m.beforeColon) && Blank(m.afterColon) && Blank(m.after)
    && AllWellSpelled(m.name) && WellFormed(m.value)
  }

  ghost predicate WellFormedMembers(members: seq<Member>)
    decreases members
  {
    members == [] || (WellFormedMember(members[0]) && WellFormedMembers(members[1..]))
  }

  // ---------------------------------------------------------------------------
  // What the reader accepts beyond the grammar of RFC 8259
  // ---------------------------------------------------------------------------

  /** A comment between a slash and a star and the first star and slash after them. */
  ghost predicate BlockComment(t: string) {
    && |t| >= 4 && t[0] == '/' && t[1] == '*' && t[|t| - 2] == '*' && t[|t| - 1] == '/'
    && forall i :: 2 <= i < |t| - 2 ==> !(t[i] == '*' && t[i + 1] == '/')
  }

  /** A comment from two slashes to a line end. */
  ghost predicate LineComment(t: string) {
    && |t| >= 3 && t[0] == '/' && t[1] == '/'
    && var body := if t[|t| - 2] == '\r' && t[|t| - 1] == '\n' then |t| - 2 else |t| - 1;
       && (t[|t| - 1] == '\n' || t[|t| - 1] == '\r')
       && forall i :: 2 <= i < body ==> t[i] != '\n' && t[i] != '\r'
  }

  ghost predicate IsComment(t: string) {
    BlockComment(t) || LineComment(t)
  }

  /** White space, and comments where they are allowed. */
  ghost predicate Gap(g: string, comments: bool)
    decreases |g|
  {
    || g == ""
    || (White(g[0]) && Gap(g[1..], comments))
    || (comments && exists k :: 0 < k <= |g| && IsComment(g[..k]) && Gap(g[k..], comments))
  }

  /** The rest of a string after its opening quote, with any escapes. */
  ghost predicate QuotedRest(t: string)
    decreases |t|
  {
    t != "" &&
    if t[0] == '"' then t == "\""
    else if t[0] == '\\' then |t| > 1 && QuotedRest(t[2..])
    else QuotedRest(t[1..])
  }

  /** After a comment the reader takes any token for the comma between members, but a closing brace:
      a string, a number, a literal, a slash and a character that make no comment, or one other
      character. */
  ghost predicate Junk(t: string) {
    || (t != "" && t[0] == '"' && QuotedRest(t[1..]))
    || (exists n: Numeral :: ReadAsNumeral(n) && t == NumeralText(n))
    || Word(t)
    || (|t| == 2 && t[0] == '/' && t[1] != '*' && t[1] != '/')
    || (|t| == 1 && !White(t[0]) && !('0' <= t[0] <= '9') && t[0] !in ['"', '-', '/', ',', '}'])
  }

  predicate Word(t: string) {
    t == "true" || t == "false" || t == "null"
  }

  ghost predicate Separates(after: string, separator: string) {
    separator == "," || (!Blank(after) && Junk(separator))
  }

  /** A comma after the last member passes if its name is empty; `after` holds it. */
  ghost predicate TrailingComma(m: Member) {
    m.name == [] && exists i, j ::
      && 0 <= i < j <= |m.after| && Gap(m.after[..i], true) && Separates(m.after[..i], m.after[i..j])
      && Gap(m.after[j..], true)
  }

  /** The texts the reader accepts: white space may hold comments almost everywhere, numbers may lack
      digits, strings may hold any character, and the two oddities above.  With comments turned
      off they are still passed over around member names, commas and closing brackets. */
  ghost predicate Accepted(x: Syntax, comments: bool)
    decreases x
  {
    match x
    case NullLiteral => true
    case BoolLiteral(_) => true
    case NumberLiteral(n) => ReadAsNumeral(n)
    case StringLiteral(ps) => AllWellSpelled(ps)
    case ArrayLiteral(inner, items) => (items == [] ==> Blank(inner)) && AcceptedItems(items, comments)
    case ObjectLiteral(inner, members) => (members == [] ==> Gap(inner, true)) && AcceptedMembers(members, comments)
    case Other(_) => false
  }

  ghost predicate AcceptedItem(item: Item, comments: bool)
    decreases item
  {
    Gap(item.before, comments) && Gap(item.after, true) && Accepted(item.value, comments)
  }

  ghost predicate AcceptedItems(items: seq<Item>, comments: bool)
    decreases items
  {
    items == [] || (AcceptedItem(items[0], comments) && AcceptedItems(items[1..], comments))
  }

  ghost predicate AcceptedMember(m: Member, comments: bool)
    decreases m
  {
    && Gap(m.before, true) && AllWellSpelled(m.name) && Blank(m.beforeColon)
    && Gap(m.afterColon, comments) && Accepted(m.value, comments)
  }

  /** What comes between a member and the next, or the closing brace. */
  ghost predicate AcceptedAfter(m: Member, rest: seq<Member>) {
    if rest == [] then Gap(m.after, true) || TrailingComma(m)
    else Gap(m.after, true) && Separates(m.after, rest[0].separator)
  }

  ghost predicate AcceptedMembers(members: seq<Member>, comments: bool)
    decreases members
  {
    members == [] ||
    (AcceptedMember(members[0], comments) && AcceptedAfter(members[0], members[1..]) && AcceptedMembers(members[1..], comments))
  }

  lemma {:induction false} BlankIsGap(w: string, comments: bool)
    requires Blank(w)
    ensures Gap(w, comments)
    decreases |w|
  {
    if w != "" {
      BlankIsGap(w[1..], comments);
    }
  }

  /** Every text of RFC 8259 is one of them. */
  lemma {:induction false} WellFormedIsAccepted(x: Syntax, comments: bool)
    requires WellFormed(x)
    ensures Accepted(x, comments)
    decreases x
  {
    match x {
      case NumberLiteral(n) => NumeralIsRead(n);
      case ArrayLiteral(_, items) => ItemsAreAccepted(items, comments);
      case ObjectLiteral(inner, members) =>
        BlankIsGap(inner, true);
        MembersAreAccepted(members, comments);
      case _ =>
    }
    hide Blank, Gap, AcceptedItems, AcceptedMembers, WellFormedItems, WellFormedMembers;
  }

  lemma {:induction false} ItemsAreAccepted(items: seq<Item>, comments: bool)
    requires WellFormedItems(items)
    ensures AcceptedItems(items, comments)
    decreases items
  {
    if items != [] {
      var item := items[0];
      assert WellFormedItem(item);
      assert item.value < item;
      BlankIsGap(item.before, comments);
      BlankIsGap(item.after, true);
      WellFormedIsAccepted(item.value, comments);
      ItemsAreAccepted(items[1..], comments);
      hide Gap, Blank, Accepted, WellFormed;
      assert AcceptedItem(item, comments);
    }
  }

  lemma {:induction false} MembersAreAccepted(ms: seq<Member>, comments: bool)
    requires WellFormedMembers(ms)
    ensures AcceptedMembers(ms, comments)
    decreases ms
  {
    if ms != [] {
      var m := ms[0];
      assert WellFormedMember(m);
      assert m.value < m;
      BlankIsGap(m.before, true);
      BlankIsGap(m.afterColon, comments);
      BlankIsGap(m.after, true);
      WellFormedIsAccepted(m.value, comments);
      MembersAreAccepted(ms[1..], comments);
      if ms[1..] != [] {
        assert WellFormedMember(ms[1]);
      }
      hide Gap, Blank, Accepted, WellFormed, AllWellSpelled, TrailingComma, Junk;
      assert AcceptedMember(m, comments) && AcceptedAfter(m, ms[1..]);
    }
  }

  ghost function IntegerOf(n: Numeral): int
    requires Figures(n.whole)
  {
    assert JsonNumbers.AllDigits(n.whole);
    if n.minus then 0 - JsonNumbers.Num(n.whole) as int else JsonNumbers.Num(n.whole)
  }

  /** A number without a point or an exponent that fits in 64 bits, with its sign or without. */
  ghost predicate IsInteger(n: Numeral) {
    && n.fraction.None? && n.exponent.None? && Figures(n.whole)
    && -9223372036854775808 <= IntegerOf(n) <= 18446744073709551615
  }

  /** Such a number exactly, tagged signed up to 2147483647; any other number as its text, all of it,
      converts to a double. */
  ghost function NumeralValue(n: Numeral, toDouble: JsonNumbers.ToDouble): Option<Value> {
    if IsInteger(n) then Some(if IntegerOf(n) <= 2147483647 then Int(IntegerOf(n)) else UInt(IntegerOf(n)))
    else
      match toDouble(NumeralText(n))
      case Some(r) => Some(Real(r))
      case None => None
  }

  lemma WholeText(n: Numeral)
    requires ReadAsNumeral(n) && n.fraction.None? && n.exponent.None?
    ensures JsonNumbers.IntegerText(NumeralText(n)) == Some(IntegerOf(n))
  {
    var text := NumeralText(n);
    assert text == if n.minus then ['-'] + n.whole else n.whole;
    hide JsonNumbers.Num, NumeralText;
    if n.minus {
      assert text[1..] == n.whole;
    } else {
      assert IsDigit(text[0]);
    }
  }

  lemma PointedText(n: Numeral)
    requires ReadAsNumeral(n) && (n.fraction.Some? || n.exponent.Some?)
    ensures JsonNumbers.IntegerText(NumeralText(n)) == None
  {
    var text := NumeralText(n);
    var rest := FractionText(n.fraction) + ExponentText(n.exponent);
    var k := (if n.minus then 1 else 0) + |n.whole|;
    assert k < |text| && text[k] == rest[0];
    assert !IsDigit(rest[0]) && rest[0] != '-';
    hide NumeralText, FractionText, ExponentText;
    assert n.minus ==> text[1..][k - 1] == text[k];
  }

  /** The reader's decoding of a number is this value. */
  lemma NumeralValueIs(n: Numeral, toDouble: JsonNumbers.ToDouble)
    requires ReadAsNumeral(n)
    ensures JsonNumbers.NumberValue(NumeralText(n), toDouble) == NumeralValue(n, toDouble)
  {
    if n.fraction.None? && n.exponent.None? {
      WholeText(n);
    } else {
      PointedText(n);
    }
    hide NumeralText, JsonNumbers.IntegerText, JsonNumbers.Num;
  }

  lemma NumeralIsRead(n: Numeral)
    requires IsNumeral(n)
    ensures ReadAsNumeral(n)
  {
  }

  /** What the reader asks of a text beyond the grammar: in every string and member name each
      leading-surrogate escape is directly followed by another \u escape, and every number that is
      no 64-bit integer is one the conversion to double accepts. */
  ghost predicate Readable(x: Syntax, toDouble: JsonNumbers.ToDouble)
    decreases x
  {
    match x
    case NumberLiteral(n) => NumeralValue(n, toDouble).Some?
    case StringLiteral(ps) => Decodable(ps)
    case ArrayLiteral(_, items) => ReadableItems(items, toDouble)
    case ObjectLiteral(_, members) => ReadableMembers(members, toDouble)
    case _ => true
  }

  ghost predicate ReadableItem(item: Item, toDouble: JsonNumbers.ToDouble)
    decreases item
  {
    Readable(item.value, toDouble)
  }

  ghost predicate ReadableItems(items: seq<Item>, toDouble: JsonNumbers.ToDouble)
    decreases items
  {
    items == [] || (ReadableItem(items[0], toDouble) && ReadableItems(items[1..], toDouble))
  }

  ghost predicate ReadableMember(m: Member, toDouble: JsonNumbers.ToDouble)
    decreases m
  {
    Decodable(m.name) && Readable(m.value, toDouble)
  }

  ghost predicate ReadableMembers(members: seq<Member>, toDouble: JsonNumbers.ToDouble)
    decreases members
  {
    members == [] || (ReadableMember(members[0], toDouble) && ReadableMembers(members[1..], toDouble))
  }

  function Max(a: nat, b: nat): nat {
    if a < b then b else a
  }

  /** Nesting height: 1 for a scalar or an empty container. */
  ghost function Height(x: Syntax): (h: nat)
    ensures h > 0
    decreases x
  {
    match x
    case ArrayLiteral(_, items) => 1 + ItemsHeight(items)
    case ObjectLiteral(_, members) => 1 + MembersHeight(members)
    case _ => 1
  }

  ghost function ItemHeight(item: Item): nat
    decreases item
  {
    Height(item.value)
  }

  ghost function ItemsHeight(items: seq<Item>): nat
    decreases items
  {
    if items == [] then 0 else Max(ItemHeight(items[0]), ItemsHeight(items[1..]))
  }

  ghost function MemberHeight(m: Member): nat
    decreases m
  {
    Height(m.value)
  }

  ghost function MembersHeight(members: seq<Member>): nat
    decreases members
  {
    if members == [] then 0 else Max(MemberHeight(members[0]), MembersHeight(members[1..]))
  }

  /** The value the reader makes of a text.  A member that occurs again replaces the earlier one. */
  ghost function Denote(x: Syntax, toDouble: JsonNumbers.ToDouble): Value
    requires Readable(x, toDouble)
    decreases x
  {
    match x
    case NullLiteral => Null
    case BoolLiteral(b) => Bool(b)
    case NumberLiteral(n) => NumeralValue(n, toDouble).value
    case StringLiteral(ps) => Str(Meanings(ps))
    case ArrayLiteral(_, items) => Arr(DenoteItems(0, items, toDouble))
    case ObjectLiteral(_, members) => Obj(DenoteMembers([], members, toDouble))
    case Other(_) => Null
  }

  ghost function DenoteItem(item: Item, toDouble: JsonNumbers.ToDouble): Value
    requires ReadableItem(item, toDouble)
    decreases item
  {
    Denote(item.value, toDouble)
  }

  ghost function DenoteItems(index: nat, items: seq<Item>, toDouble: JsonNumbers.ToDouble): seq<Entry>
    requires ReadableItems(items, toDouble)
    decreases items
  {
    if items == [] then []
    else [Entry(Index(index), DenoteItem(items[0], toDouble))] + DenoteItems(index + 1, items[1..], toDouble)
  }

  ghost function DenoteMember(m: Member, toDouble: JsonNumbers.ToDouble): Value
    requires ReadableMember(m, toDouble)
    decreases m
  {
    Denote(m.value, toDouble)
  }

  ghost function DenoteMembers(es: seq<Entry>, members: seq<Member>, toDouble: JsonNumbers.ToDouble): seq<Entry>
    requires ReadableMembers(members, toDouble)
    decreases members
  {
    if members == [] then es
    else
      assert ReadableMember(members[0], toDouble);
      var key := Name(Meanings(members[0].name));
      DenoteMembers(Put(es, key, DenoteMember(members[0], toDouble)), members[1..], toDouble)
  }
}
