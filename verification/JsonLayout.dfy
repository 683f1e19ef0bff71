/**
 The JSON text of a value as a syntax tree: without white space, as FastWriter prints it, and
 laid out with indentation, as BuiltStyledStreamWriter does.
 */
module JsonLayout {
  import opened JsonValues
  import JsonArrays
  import JsonNumbers
  import opened JsonParsing
  import opened JsonStrings
  import opened JsonTokens
  import opened JsonGrammar

  /** What valueToString(double), a call of sprintf, makes of a real. */
  type RealText = real -> string

  // ---------------------------------------------------------------------------
  // Height of a value
  // ---------------------------------------------------------------------------

  ghost function ValueHeight(v: Value): (h: nat)
    ensures h > 0
    decreases v
  {
    match v
    case Arr(es) => 1 + MapHeight(es)
    case Obj(es) => 1 + MapHeight(es)
    case _ => 1
  }

  ghost function MapHeight(es: seq<Entry>): nat
    decreases es
  {
    if es == [] then 0
    else
      assert es[0].value < es[0];
      Max(ValueHeight(es[0].value), MapHeight(es[1..]))
  }

  lemma {:induction false} EntryHeight(es: seq<Entry>, i: nat)
    requires i < |es|
    ensures ValueHeight(es[i].value) <= MapHeight(es)
  {
    if i > 0 {
      EntryHeight(es[1..], i - 1);
    }
  }

  lemma SlotHeight(es: seq<Entry>, index: nat)
    requires index < JsonArrays.SizeOf(es)
    ensures ValueHeight(JsonArrays.Slot(es, index)) <= MapHeight(es)
  {
    EntryHeight(es, 0);
    if Find(es, Index(index)).Some? {
      var i :| 0 <= i < |es| && es[i] == Entry(Index(index), Find(es, Index(index)).value);
      EntryHeight(es, i);
    }
  }

  // ---------------------------------------------------------------------------
  // Text without white space
  // ---------------------------------------------------------------------------

  ghost function NumeralOf(i: int): Numeral {
    Numeral(i < 0, JsonNumbers.Decimal(if i < 0 then -i else i), None, None)
  }

  function NameOf(key: Key): string {
    if key.Name? then key.s else ""
  }

  /** A null string pointer prints as nothing; a real prints as sprintf decides. */
  ghost function ScalarTree(v: Value, realText: RealText): Syntax
    requires !v.Arr? && !v.Obj?
  {
    match v
    case Null => NullLiteral
    case Int(i) => NumberLiteral(NumeralOf(i))
    case UInt(u) => NumberLiteral(NumeralOf(u))
    case Real(r) => Other(realText(r))
    case NoString => Other("")
    case Str(s) => StringLiteral(Quotes(s))
    case Bool(b) => BoolLiteral(b)
  }

  ghost function TreeOf(v: Value, realText: RealText): Syntax
    decreases ValueHeight(v), 0, 0
  {
    match v
    case Arr(es) => ArrayLiteral("", ItemsOf(es, 0, realText))
    case Obj(es) => ObjectLiteral("", MembersOf(es, realText))
    case _ => ScalarTree(v, realText)
  }

  /** The slots of an array from `index` on, missing ones as null. */
  ghost function ItemsOf(es: seq<Entry>, index: nat, realText: RealText): seq<Item>
    decreases MapHeight(es), 1, JsonArrays.SizeOf(es) - index
  {
    if index >= JsonArrays.SizeOf(es) then []
    else
      SlotHeight(es, index);
      [Item("", TreeOf(JsonArrays.Slot(es, index), realText), "")] + ItemsOf(es, index + 1, realText)
  }

  ghost function MembersOf(es: seq<Entry>, realText: RealText): seq<Member>
    decreases MapHeight(es), 1, |es|
  {
    if es == [] then []
    else
      [Member(",", "", Quotes(NameOf(es[0].key)), "", "", TreeOf(es[0].value, realText), "")] + MembersOf(es[1..], realText)
  }

  // ---------------------------------------------------------------------------
  // Text with indentation
  // ---------------------------------------------------------------------------

  /** A container that is broken over lines. */
  predicate IsBig(v: Value) {
    (v.Arr? && JsonArrays.SizeOf(v.entries) > 0) || (v.Obj? && v.entries != [])
  }

  /** writeIndent: a new line and the current indentation, or nothing when indentation is off. */
  function NewLine(indentation: string, indent: string): string {
    if indentation == "" then "" else "\n" + indent
  }

  /** The text around the colon. */
  function ColonSpace(indentation: string): string {
    if indentation == "" then "" else " "
  }

  ghost function Layout(v: Value, indent: string, indentation: string, realText: RealText): Syntax
    decreases ValueHeight(v), 0, 0
  {
    match v
    case Arr(es) => ArrayLiteral("", LayoutItems(es, 0, indent, indentation, realText))
    case Obj(es) => ObjectLiteral("", LayoutMembers(es, indent, indentation, realText))
    case _ => ScalarTree(v, realText)
  }

  ghost function LayoutItems(es: seq<Entry>, index: nat, indent: string, indentation: string, realText: RealText): seq<Item>
    decreases MapHeight(es), 1, JsonArrays.SizeOf(es) - index
  {
    if index >= JsonArrays.SizeOf(es) then []
    else
      SlotHeight(es, index);
      var inner := indent + indentation;
      [Item(NewLine(indentation, inner),
            Layout(JsonArrays.Slot(es, index), inner, indentation, realText),
            if index + 1 == JsonArrays.SizeOf(es) then NewLine(indentation, indent) else "")]
      + LayoutItems(es, index + 1, indent, indentation, realText)
  }

  ghost function LayoutMembers(es: seq<Entry>, indent: string, indentation: string, realText: RealText): seq<Member>
    decreases MapHeight(es), 1, |es|
  {
    if es == [] then []
    else
      var inner, v := indent + indentation, es[0].value;
      [Member(",",
              NewLine(indentation, inner),
              Quotes(NameOf(es[0].key)),
              ColonSpace(indentation),
              ColonSpace(indentation) + if IsBig(v) then NewLine(indentation, inner) else "",
              Layout(v, inner, indentation, realText),
              if |es| == 1 then NewLine(indentation, indent) else "")]
      + LayoutMembers(es[1..], indent, indentation, realText)
  }

  /** With empty indentation the layout has no white space at all. */
  lemma {:induction false} LayoutFlat(v: Value, realText: RealText)
    ensures Layout(v, "", "", realText) == TreeOf(v, realText)
    decreases ValueHeight(v), 0, 0
  {
    match v {
      case Arr(es) => LayoutItemsFlat(es, 0, realText);
      case Obj(es) => LayoutMembersFlat(es, realText);
      case _ =>
    }
  }

  lemma {:induction false} LayoutItemsFlat(es: seq<Entry>, index: nat, realText: RealText)
    ensures LayoutItems(es, index, "", "", realText) == ItemsOf(es, index, realText)
    decreases MapHeight(es), 1, JsonArrays.SizeOf(es) - index
  {
    if index < JsonArrays.SizeOf(es) {
      SlotHeight(es, index);
      LayoutFlat(JsonArrays.Slot(es, index), realText);
      LayoutItemsFlat(es, index + 1, realText);
      assert "" + "" == "";
    }
  }

  lemma {:induction false} LayoutMembersFlat(es: seq<Entry>, realText: RealText)
    ensures LayoutMembers(es, "", "", realText) == MembersOf(es, realText)
    decreases MapHeight(es), 1, |es|
  {
    if es != [] {
      LayoutFlat(es[0].value, realText);
      LayoutMembersFlat(es[1..], realText);
      assert "" + "" == "";
    }
  }

  // ---------------------------------------------------------------------------
  // A text with indentation
  // ---------------------------------------------------------------------------

  const PAIR := [Entry(Index(0), Bool(true)), Entry(Index(1), Null)]
  const STATUS := [Entry(Name("a"), Arr(PAIR)), Entry(Name("b"), Obj([]))]

  lemma PairSlots()
    ensures JsonArrays.SizeOf(PAIR) == 2 && JsonArrays.Slot(PAIR, 0) == Bool(true) && JsonArrays.Slot(PAIR, 1) == Null
  {
  }

  lemma PairItems(indent: string, indentation: string, realText: RealText)
    ensures var inner := indent + indentation;
            LayoutItems(PAIR, 0, indent, indentation, realText) ==
            [Item(NewLine(indentation, inner), BoolLiteral(true), ""),
             Item(NewLine(indentation, inner), NullLiteral, NewLine(indentation, indent))]
  {
    PairSlots();
    hide PAIR, JsonArrays.SizeOf, JsonArrays.Slot, NewLine;
    var es, inner := PAIR, indent + indentation;
    assert LayoutItems(es, 2, indent, indentation, realText) == [];
    assert Layout(Null, inner, indentation, realText) == NullLiteral;
    assert Layout(Bool(true), inner, indentation, realText) == BoolLiteral(true);
    assert LayoutItems(es, 1, indent, indentation, realText) ==
           [Item(NewLine(indentation, inner), NullLiteral, NewLine(indentation, indent))];
  }

  lemma TwoItemsText(i: Item, j: Item)
    ensures Render(ArrayLiteral("", [i, j])) ==
            "[" + (i.before + (Render(i.value) + (i.after + ("," + (j.before + (Render(j.value) + (j.after + "]")))))))
  {
    var items := [i, j];
    assert items[1..] == [j] && [j][1..] == [];
    AfterItemIs([j]);
    AfterItemIs([]);
    hide AfterItem;
    assert ItemText(i) == Render(i.value) && ItemText(j) == Render(j.value);
  }

  lemma TwoMembersText(m: Member, n: Member)
    ensures Render(ObjectLiteral("", [m, n])) ==
            "{" + (m.before + (StringText(m.name) + (m.beforeColon + (":" + (m.afterColon + (Render(m.value) + (m.after +
            (n.separator + (n.before + (StringText(n.name) + (n.beforeColon + (":" + (n.afterColon + (Render(n.value) + (n.after + "}")))))))))))))))
  {
    var ms := [m, n];
    assert ms[1..] == [n] && [n][1..] == [];
    AfterMemberIs([n]);
    AfterMemberIs([]);
    hide AfterMember, StringText;
    assert MemberText(m) == Render(m.value) && MemberText(n) == Render(n.value);
    assert MemberTail([n]) == MemberText(n) + (n.after + AfterMember([]));
    assert MembersText([n]) == n.before + (StringText(n.name) + (n.beforeColon + (":" + (n.afterColon + MemberTail([n])))));
    assert MemberTail(ms) == MemberText(m) + (m.after + AfterMember([n]));
  }

  lemma OneLetter(c: char)
    requires c == 'a' || c == 'b'
    ensures StringText(Quotes([c])) == ['"', c, '"']
  {
    assert [c][1..] == "";
    assert Quotes("") == [];
    assert Quotes([c]) == [Raw(c)];
    assert [Raw(c)][1..] == [];
    assert Spellings([]) == "";
  }

  lemma StatusMembers(indentation: string, realText: RealText)
    ensures LayoutMembers(STATUS, "", indentation, realText) ==
            [Member(",", NewLine(indentation, "" + indentation), Quotes("a"), ColonSpace(indentation),
                    ColonSpace(indentation) + NewLine(indentation, "" + indentation),
                    Layout(Arr(PAIR), "" + indentation, indentation, realText), ""),
             Member(",", NewLine(indentation, "" + indentation), Quotes("b"), ColonSpace(indentation),
                    ColonSpace(indentation) + "", ObjectLiteral("", []), NewLine(indentation, ""))]
  {
    PairSlots();
    hide PAIR, NewLine, ColonSpace, Quotes, JsonArrays.SizeOf;
    var es := STATUS;
    assert es[1..] == [Entry(Name("b"), Obj([]))];
    assert es[1..][1..] == [];
    assert LayoutMembers([], "", indentation, realText) == [];
    assert Layout(Obj([]), "" + indentation, indentation, realText) == ObjectLiteral("", []);
  }

  /** An object of an array and an empty object, indented by tabs. */
  lemma StyledText(realText: RealText)
    ensures Render(Layout(Obj(STATUS), "", "\t", realText)) ==
            "{" + ("\n\t" + ("\"a\"" + (" " + (":" + (" \n\t" + (
            "[" + ("\n\t\t" + ("true" + ("" + ("," + ("\n\t\t" + ("null" + ("\n\t" + "]"))))))) + ("" +
            ("," + ("\n\t" + ("\"b\"" + (" " + (":" + (" " + ("{}" + ("\n" + "}")))))))))))))))
  {
    TabSpaces();
    PairItems("\t", "\t", realText);
    StatusMembers("\t", realText);
    OneLetter('a');
    OneLetter('b');
    LayoutContainers("\t", realText);
    LiteralTexts();
    hide *;
    var items := LayoutItems(PAIR, 0, "\t", "\t", realText);
    TwoItemsText(items[0], items[1]);
    var ms := LayoutMembers(STATUS, "", "\t", realText);
    TwoMembersText(ms[0], ms[1]);
  }

  lemma LiteralTexts()
    ensures Render(BoolLiteral(true)) == "true" && Render(NullLiteral) == "null" && Render(ObjectLiteral("", [])) == "{}"
  {
  }

  lemma LayoutContainers(indentation: string, realText: RealText)
    ensures Layout(Arr(PAIR), indentation, indentation, realText) ==
            ArrayLiteral("", LayoutItems(PAIR, 0, indentation, indentation, realText))
    ensures Layout(Obj(STATUS), "", indentation, realText) ==
            ObjectLiteral("", LayoutMembers(STATUS, "", indentation, realText))
  {
    hide LayoutItems, LayoutMembers;
  }

  lemma TabSpaces()
    ensures "" + "\t" == "\t" && NewLine("\t", "\t") == "\n\t" && NewLine("\t", "") == "\n"
    ensures "\t" + "\t" == "\t\t" && NewLine("\t", "\t\t") == "\n\t\t"
    ensures ColonSpace("\t") == " " && " " + "" == " " && " " + "\n\t" == " \n\t"
  {
  }
}
