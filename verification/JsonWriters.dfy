/**
 `Json::FastWriter` and `Json::BuiltStyledStreamWriter`, appending to their output in place,
 each against the syntax tree of the value it writes.
 */
module JsonWriters {
  import opened Sequences
  import opened JsonValues
  import JsonArrays
  import JsonNumbers
  import opened JsonStrings
  import opened JsonTokens
  import opened JsonGrammar
  import opened JsonLayout
  import opened JsonRoundTrip

  lemma ScalarTextIs(v: Value, realText: RealText)
    requires !v.Arr? && !v.Obj?
    ensures Render(ScalarTree(v, realText)) ==
            match v
            case Null => "null"
            case Int(i) => NumeralText(NumeralOf(i))
            case UInt(u) => NumeralText(NumeralOf(u))
            case Real(r) => realText(r)
            case NoString => ""
            case Str(s) => StringText(Quotes(s))
            case Bool(b) => if b then "true" else "false"
            case _ => ""
  {
    hide NumeralText, NumeralOf, StringText, Quotes;
  }

  lemma NumeralTextIs(i: int)
    ensures NumeralText(NumeralOf(i)) == JsonNumbers.DecimalInt(i)
    ensures i >= 0 ==> JsonNumbers.DecimalInt(i) == JsonNumbers.Decimal(i)
  {
    hide JsonNumbers.Decimal;
  }

  /** valueToString, valueToQuotedStringN and the literals: the text of a scalar. */
  method ScalarText(v: Value, realText: RealText) returns (text: string)
    requires !v.Arr? && !v.Obj?
    ensures text == Render(ScalarTree(v, realText))
  {
    hide *;
    ScalarTextIs(v, realText);
    match v
    case Null => text := "null";
    case Int(i) =>
      text := JsonNumbers.IntToString(i);
      NumeralTextIs(i);
    case UInt(u) =>
      text := JsonNumbers.UInt64ToString(u);
      NumeralTextIs(u);
    case Real(r) => text := realText(r);
    case NoString => text := "";
    case Str(s) =>
      text := ValueToQuotedString(s);
      QuotedIs(s);
    case Bool(b) => text := if b then "true" else "false";
  }

  lemma QuotedIs(s: string)
    ensures Quoted(s) == StringText(Quotes(s))
  {
    assert "\"" + Spellings(Quotes(s)) + "\"" == "\"" + (Spellings(Quotes(s)) + "\"");
  }

  lemma ScalarTreeIs(v: Value, realText: RealText)
    requires !v.Arr? && !v.Obj?
    ensures TreeOf(v, realText) == ScalarTree(v, realText)
  {
    hide ScalarTree;
  }

  lemma SlotValid(es: seq<Entry>, index: nat)
    requires Valid(Arr(es))
    ensures Valid(JsonArrays.Slot(es, index))
  {
    hide JsonArrays.Slot;
    SlotOf(es, index);
    if i :| 0 <= i < |es| && es[i].value == JsonArrays.Slot(es, index) {
      assert es[i] in es;
    }
  }

  lemma MemberValid(es: seq<Entry>, i: nat)
    requires Valid(Obj(es)) && i < |es|
    ensures es[i].key.Name? && Valid(es[i].value) && Find(es, es[i].key) == Some(es[i].value)
    ensures ValueHeight(es[i].value) <= MapHeight(es)
  {
    FindAt(es, i);
    EntryHeight(es, i);
    assert es[i] in es;
  }

  lemma AssocMember(a: string, q: string, r: string, rest: string)
    ensures (((a + q) + ":") + r) + rest == a + (q + (":" + (r + rest)))
  {
  }

  // ---------------------------------------------------------------------------
  // Text without white space, from any point on
  // ---------------------------------------------------------------------------

  lemma ItemsOfText(es: seq<Entry>, index: nat, realText: RealText)
    ensures index >= JsonArrays.SizeOf(es) ==> AfterItem(ItemsOf(es, index, realText)) == "]"
    ensures index < JsonArrays.SizeOf(es) ==>
              var items := ItemsOf(es, index, realText);
              && items != []
              && ItemsText("", items) == Render(TreeOf(JsonArrays.Slot(es, index), realText)) + AfterItem(ItemsOf(es, index + 1, realText))
              && AfterItem(items) == "," + ItemsText("", items)
  {
    if index < JsonArrays.SizeOf(es) {
      var items := ItemsOf(es, index, realText);
      var r, rest := Render(TreeOf(JsonArrays.Slot(es, index), realText)), AfterItem(ItemsOf(es, index + 1, realText));
      assert items[1..] == ItemsOf(es, index + 1, realText);
      assert ItemsText("", items) == "" + (r + ("" + rest));
      hide *;
      assert "" + (r + ("" + rest)) == r + rest;
    }
  }

  lemma RenderArray(es: seq<Entry>, realText: RealText)
    ensures var items := ItemsOf(es, 0, realText);
            Render(TreeOf(Arr(es), realText)) == "[" + if items == [] then "]" else ItemsText("", items)
    ensures JsonArrays.SizeOf(es) > 0 <==> ItemsOf(es, 0, realText) != []
  {
    assert "" + "]" == "]";
    hide ItemsText, JsonArrays.SizeOf, JsonArrays.Slot;
  }

  lemma NoMoreMembers(realText: RealText)
    ensures MembersOf([], realText) == []
  {
  }

  lemma MembersTextIs(ms: seq<Member>)
    requires ms != []
    ensures MembersText(ms) ==
            ms[0].before + (StringText(ms[0].name) + (ms[0].beforeColon + (":" + (ms[0].afterColon +
            (Render(ms[0].value) + (ms[0].after + AfterMember(ms[1..])))))))
  {
    assert MemberText(ms[0]) == Render(ms[0].value);
  }

  lemma MembersOfUnfold(es: seq<Entry>, i: nat, realText: RealText)
    requires i < |es|
    ensures MembersOf(es[i..], realText) ==
            [Member(",", "", Quotes(NameOf(es[i].key)), "", "", TreeOf(es[i].value, realText), "")] + MembersOf(es[i + 1..], realText)
  {
    assert es[i..][1..] == es[i + 1..];
    hide TreeOf, Quotes, NameOf;
  }

  lemma MembersOfText(es: seq<Entry>, i: nat, realText: RealText)
    requires i <= |es|
    ensures i == |es| ==> AfterMember(MembersOf(es[i..], realText)) == "}"
    ensures i < |es| ==>
              var ms := MembersOf(es[i..], realText);
              && ms != [] && AfterMember(ms) == "," + MembersText(ms)
              && MembersText(ms) == Quoted(NameOf(es[i].key)) + (":" + (Render(TreeOf(es[i].value, realText)) + AfterMember(MembersOf(es[i + 1..], realText))))
  {
    NoMoreMembers(realText);
    hide *;
    var ms := MembersOf(es[i..], realText);
    AfterMemberIs(ms);
    if i < |es| {
      MembersOfUnfold(es, i, realText);
      MembersTextIs(ms);
      var rest := MembersOf(es[i + 1..], realText);
      assert ms[1..] == rest;
      QuotedIs(NameOf(es[i].key));
      Flat(StringText(Quotes(NameOf(es[i].key))), Render(TreeOf(es[i].value, realText)), AfterMember(rest));
    } else {
      assert es[i..] == [];
    }
  }

  lemma Flat(n: string, r: string, rest: string)
    ensures "" + (n + ("" + (":" + ("" + (r + ("" + rest)))))) == n + (":" + (r + rest))
  {
  }

  lemma RenderObject(es: seq<Entry>, realText: RealText)
    ensures var ms := MembersOf(es, realText);
            Render(TreeOf(Obj(es), realText)) == "{" + if ms == [] then "}" else MembersText(ms)
    ensures es == [] <==> MembersOf(es, realText) == []
  {
    assert "" + "}" == "}";
    hide MembersText;
  }

  // ---------------------------------------------------------------------------
  // FastWriter
  // ---------------------------------------------------------------------------

  class FastWriter {
    const realText: RealText
    var document: string

    constructor (realText: RealText)
      ensures this.realText == realText
    {
      this.realText := realText;
      document := "";
    }

    method Write(root: Value) returns (text: string)
      requires Valid(root)
      modifies this
      ensures text == Render(TreeOf(root, realText)) + "\n"
    {
      hide *;
      document := "";
      WriteValue(root);
      document := document + "\n";
      text := document;
    }

    method WriteValue(value: Value)
      requires Valid(value)
      modifies this
      ensures document == old(document) + Render(TreeOf(value, realText))
      decreases ValueHeight(value), 2
    {
      HeightIs(value);
      hide *;
      if value.Arr? {
        WriteArray(value.entries);
      } else if value.Obj? {
        WriteObject(value.entries);
      } else {
        var text := ScalarText(value, realText);
        ScalarTreeIs(value, realText);
        document := document + text;
      }
    }

    method WriteArray(es: seq<Entry>)
      requires Valid(Arr(es))
      modifies this
      ensures document == old(document) + Render(TreeOf(Arr(es), realText))
      decreases 1 + MapHeight(es), 0
    {
      hide *;
      ghost var goal := document + Render(TreeOf(Arr(es), realText));
      RenderArray(es, realText);
      var size := JsonArrays.SizeOf(es);
      ItemsOfText(es, 0, realText);
      document := document + "[";
      var index := 0;
      while index < size
        invariant 0 <= index <= size
        invariant index == 0 && size > 0 ==> document + ItemsText("", ItemsOf(es, 0, realText)) == goal
        invariant index > 0 || size == 0 ==> document + AfterItem(ItemsOf(es, index, realText)) == goal
      {
        ItemsOfText(es, index, realText);
        if index > 0 {
          document := document + ",";
        }
        assert document + ItemsText("", ItemsOf(es, index, realText)) == goal;
        SlotValid(es, index);
        SlotHeight(es, index);
        ghost var before := document;
        WriteValue(JsonArrays.Slot(es, index));
        Assoc(before, Render(TreeOf(JsonArrays.Slot(es, index), realText)), AfterItem(ItemsOf(es, index + 1, realText)));
        index := index + 1;
      }
      ItemsOfText(es, index, realText);
      document := document + "]";
    }

    /** One turn of the loop over member names, after the comma. */
    method WriteMember(es: seq<Entry>, i: nat)
      requires Valid(Obj(es)) && i < |es|
      modifies this
      ensures document ==
              ((old(document) + Quoted(NameOf(es[i].key))) + ":") + Render(TreeOf(es[i].value, realText))
      decreases 1 + MapHeight(es), 0
    {
      hide *;
      MemberValid(es, i);
      var name := es[i].key.s;
      NameIs(es[i].key);
      var quoted := ValueToQuotedString(name);
      document := document + quoted;
      document := document + ":";
      WriteValue(Find(es, Name(name)).value);
    }

    method WriteObject(es: seq<Entry>)
      requires Valid(Obj(es))
      modifies this
      ensures document == old(document) + Render(TreeOf(Obj(es), realText))
      decreases 1 + MapHeight(es), 1
    {
      hide *;
      ghost var goal := document + Render(TreeOf(Obj(es), realText));
      RenderObject(es, realText);
      Assoc(document, "{", if es == [] then "}" else MembersText(MembersOf(es, realText)));
      document := document + "{";
      assert es[0..] == es;
      MembersOfText(es, 0, realText);
      var i := 0;
      while i < |es|
        invariant 0 <= i <= |es|
        invariant i == 0 && es != [] ==> document + MembersText(MembersOf(es[i..], realText)) == goal
        invariant i > 0 || es == [] ==> document + AfterMember(MembersOf(es[i..], realText)) == goal
      {
        MembersOfText(es, i, realText);
        if i > 0 {
          Assoc(document, ",", MembersText(MembersOf(es[i..], realText)));
          document := document + ",";
        }
        AssocMember(document, Quoted(NameOf(es[i].key)), Render(TreeOf(es[i].value, realText)),
                    AfterMember(MembersOf(es[i + 1..], realText)));
        WriteMember(es, i);
        i := i + 1;
      }
      MembersOfText(es, i, realText);
      document := document + "}";
    }
  }

  lemma HeightIs(v: Value)
    ensures v.Arr? || v.Obj? ==> ValueHeight(v) == 1 + MapHeight(v.entries)
  {
  }

  lemma NameIs(key: Key)
    requires key.Name?
    ensures NameOf(key) == key.s && key == Name(key.s)
  {
  }

  // ---------------------------------------------------------------------------
  // Laid-out text, from any point on
  // ---------------------------------------------------------------------------

  lemma ItemsTextIs(w: string, items: seq<Item>)
    requires items != []
    ensures ItemsText(w, items) == w + (Render(items[0].value) + (items[0].after + AfterItem(items[1..])))
  {
    assert ItemText(items[0]) == Render(items[0].value);
  }

  lemma LayoutItemsText(es: seq<Entry>, index: nat, indent: string, indentation: string, realText: RealText)
    requires index < JsonArrays.SizeOf(es)
    ensures var inner := indent + indentation;
            var items := LayoutItems(es, index, indent, indentation, realText);
            var rest := LayoutItems(es, index + 1, indent, indentation, realText);
            && items != [] && (rest == [] <==> index + 1 == JsonArrays.SizeOf(es))
            && items[0].before == NewLine(indentation, inner)
            && ItemsText(items[0].before, items) ==
               NewLine(indentation, inner) + (Render(Layout(JsonArrays.Slot(es, index), inner, indentation, realText)) +
               if rest == [] then NewLine(indentation, indent) + "]" else "," + ItemsText(rest[0].before, rest))
  {
    hide *;
    LayoutItemsUnfold(es, index, indent, indentation, realText);
    var items := LayoutItems(es, index, indent, indentation, realText);
    ItemsTextIs(items[0].before, items);
    AfterItemIs(items[1..]);
    if index + 1 == JsonArrays.SizeOf(es) {
      LayoutItemsEnd(es, index + 1, indent, indentation, realText);
    } else {
      LayoutItemsUnfold(es, index + 1, indent, indentation, realText);
      Unit(AfterItem(items[1..]));
    }
  }

  lemma Unit(s: string)
    ensures "" + s == s
  {
  }

  lemma LayoutMembersText(es: seq<Entry>, i: nat, indent: string, indentation: string, realText: RealText)
    requires i < |es|
    ensures var inner := indent + indentation;
            var ms := LayoutMembers(es[i..], indent, indentation, realText);
            var rest := LayoutMembers(es[i + 1..], indent, indentation, realText);
            && ms != [] && (rest == [] <==> i + 1 == |es|)
            && MembersText(ms) ==
               ((((NewLine(indentation, inner) + Quoted(NameOf(es[i].key))) + ColonSymbol(indentation))
                 + (if IsBig(es[i].value) then NewLine(indentation, inner) else ""))
                + Render(Layout(es[i].value, inner, indentation, realText)))
               + if rest == [] then NewLine(indentation, indent) + "}" else "," + MembersText(rest)
  {
    NoMoreLayoutMembers(indent, indentation, realText);
    hide *;
    assert es[i..][1..] == es[i + 1..];
    LayoutMembersUnfold(es[i..], indent, indentation, realText);
    var ms := LayoutMembers(es[i..], indent, indentation, realText);
    MembersTextIs(ms);
    AfterMemberIs(ms[1..]);
    QuotedIs(NameOf(es[i].key));
    ColonSymbolIs(indentation);
    if i + 1 < |es| {
      LayoutMembersUnfold(es[i + 1..], indent, indentation, realText);
      Unit(AfterMember(ms[1..]));
    } else {
      assert es[i + 1..] == [];
    }
    AssocMembers(ms[0].before, StringText(ms[0].name), ColonSpace(indentation),
                 if IsBig(es[i].value) then NewLine(indentation, indent + indentation) else "",
                 Render(ms[0].value), ms[0].after + AfterMember(ms[1..]));
  }

  lemma AssocMembers(b: string, n: string, cs: string, lead: string, r: string, rest: string)
    ensures b + (n + (cs + (":" + ((cs + lead) + (r + rest))))) == ((((b + n) + (cs + ":" + cs)) + lead) + r) + rest
  {
  }

  lemma NoMoreLayoutMembers(indent: string, indentation: string, realText: RealText)
    ensures LayoutMembers([], indent, indentation, realText) == []
  {
  }

  /** The colon newStreamWriter chooses, YAML compatibility being off. */
  function ColonSymbol(indentation: string): string {
    if indentation == "" then ":" else " : "
  }

  lemma ColonSymbolIs(indentation: string)
    ensures ColonSymbol(indentation) == ColonSpace(indentation) + ":" + ColonSpace(indentation)
  {
  }

  lemma RenderLayout(v: Value, indent: string, indentation: string, realText: RealText)
    ensures v.Arr? ==>
              Render(Layout(v, indent, indentation, realText)) ==
              if JsonArrays.SizeOf(v.entries) == 0 then "[]"
              else var items := LayoutItems(v.entries, 0, indent, indentation, realText);
                   "[" + (if items == [] then "" else ItemsText(items[0].before, items))
    ensures v.Obj? ==>
              Render(Layout(v, indent, indentation, realText)) ==
              if v.entries == [] then "{}"
              else var ms := LayoutMembers(v.entries, indent, indentation, realText);
                   "{" + (if ms == [] then "" else MembersText(ms))
    ensures !v.Arr? && !v.Obj? ==> Layout(v, indent, indentation, realText) == ScalarTree(v, realText)
    ensures IsBig(v) <==> (v.Arr? && JsonArrays.SizeOf(v.entries) > 0) || (v.Obj? && v.entries != [])
  {
    hide JsonArrays.SizeOf;
    if v.Arr? {
      assert "[" + ("" + "]") == "[]";
    } else if v.Obj? {
      assert "{" + ("" + "}") == "{}";
    }
  }

  // ---------------------------------------------------------------------------
  // BuiltStyledStreamWriter, comment style All
  // ---------------------------------------------------------------------------

  /** With comment style All every non-empty container is broken over lines, so the branch that
      prints an array on one line and the child values kept for it never come into play. */
  class BuiltStyledStreamWriter {
    const realText: RealText
    const indentation: string
    const colonSymbol: string
    var sout: string
    var indentString: string
    var indented: bool

    constructor (indentation: string, realText: RealText)
      ensures this.indentation == indentation && this.realText == realText && colonSymbol == ColonSymbol(indentation)
    {
      this.indentation, this.realText, colonSymbol := indentation, realText, ColonSymbol(indentation);
      sout, indentString, indented := "", "", false;
    }

    method WriteIndent()
      modifies this`sout
      ensures sout == old(sout) + NewLine(indentation, indentString)
    {
      if indentation != "" {
        sout := sout + ("\n" + indentString);
      }
    }

    method WriteWithIndent(value: string)
      modifies this`sout, this`indented
      ensures sout == old(sout) + (if old(indented) then "" else NewLine(indentation, indentString)) + value
      ensures !indented
    {
      if !indented {
        WriteIndent();
      }
      sout := sout + value;
      indented := false;
    }

    method Indent()
      modifies this`indentString
      ensures indentString == old(indentString) + indentation
    {
      indentString := indentString + indentation;
    }

    method Unindent(ghost was: string)
      requires indentString == was + indentation
      modifies this`indentString
      ensures indentString == was
    {
      indentString := indentString[..|indentString| - |indentation|];
    }

    /** A new line goes before a container that is broken over lines, unless just written. */
    function Lead(v: Value, atLineStart: bool, indent: string): string {
      if IsBig(v) && !atLineStart then NewLine(indentation, indent) else ""
    }

    /** write, to a stream that is empty so far. */
    method Write(root: Value) returns (text: string)
      requires Valid(root) && colonSymbol == ColonSymbol(indentation)
      modifies this
      ensures text == Render(Layout(root, "", indentation, realText))
    {
      hide *;
      sout := "";
      indented := true;
      indentString := "";
      LeadIs(root, true, "");
      WriteValue(root);
      text := sout;
    }

    method WriteValue(value: Value)
      requires Valid(value) && colonSymbol == ColonSymbol(indentation)
      modifies this
      ensures indentString == old(indentString) && indented == (old(indented) && !IsBig(value))
      ensures sout ==
              (old(sout) + Lead(value, old(indented), indentString)) + Render(Layout(value, indentString, indentation, realText))
      decreases ValueHeight(value), 2
    {
      HeightIs(value);
      RenderLayout(value, indentString, indentation, realText);
      var small := !IsBig(value);
      hide *;
      if !value.Arr? && !value.Obj? {
        var text := ScalarText(value, realText);
        LeadIs(value, indented, indentString);
        sout := sout + text;
      } else if value.Arr? {
        if small {
          LeadIs(value, indented, indentString);
          sout := sout + "[]";
        } else {
          WriteArrayValue(value.entries);
        }
      } else {
        if small {
          LeadIs(value, indented, indentString);
          sout := sout + "{}";
        } else {
          WriteObjectValue(value.entries);
        }
      }
    }

    lemma LeadIs(v: Value, atLineStart: bool, indent: string)
      ensures Lead(v, atLineStart, indent) == if IsBig(v) && !atLineStart then NewLine(indentation, indent) else ""
      ensures forall s: string :: s + "" == s
    {
    }

    /** One turn of the loop over an array's slots, up to the comma. */
    method WriteItem(es: seq<Entry>, index: nat)
      requires Valid(Arr(es)) && index < JsonArrays.SizeOf(es) && !indented && colonSymbol == ColonSymbol(indentation)
      modifies this
      ensures indentString == old(indentString) && !indented
      ensures sout ==
              (old(sout) + NewLine(indentation, indentString))
              + Render(Layout(JsonArrays.Slot(es, index), indentString, indentation, realText))
      decreases 1 + MapHeight(es), 0
    {
      hide *;
      SlotValid(es, index);
      SlotHeight(es, index);
      var childValue := JsonArrays.Slot(es, index);
      if !indented {
        WriteIndent();
      }
      indented := true;
      LeadIs(childValue, true, indentString);
      WriteValue(childValue);
      indented := false;
    }

    method WriteArrayValue(es: seq<Entry>)
      requires Valid(Arr(es)) && JsonArrays.SizeOf(es) > 0 && colonSymbol == ColonSymbol(indentation)
      modifies this
      ensures indentString == old(indentString) && !indented
      ensures sout ==
              (old(sout) + Lead(Arr(es), old(indented), indentString)) + Render(Layout(Arr(es), indentString, indentation, realText))
      decreases 1 + MapHeight(es), 1
    {
      RenderLayout(Arr(es), indentString, indentation, realText);
      hide *;
      ghost var indent, inner := indentString, indentString + indentation;
      ghost var head := sout + Lead(Arr(es), indented, indent);
      ghost var goal := head + Render(Layout(Arr(es), indent, indentation, realText));
      LeadIs(Arr(es), indented, indent);
      LayoutItemsText(es, 0, indent, indentation, realText);
      ghost var items := LayoutItems(es, 0, indent, indentation, realText);
      WriteWithIndent("[");
      assert sout == head + "[";
      Indent();
      Assoc(head, "[", ItemsText(items[0].before, items));
      var index := 0;
      while true
        invariant 0 <= index < JsonArrays.SizeOf(es) && !indented && indentString == inner
        invariant var items := LayoutItems(es, index, indent, indentation, realText);
                  items != [] && sout + ItemsText(items[0].before, items) == goal
        decreases JsonArrays.SizeOf(es) - index
      {
        LayoutItemsText(es, index, indent, indentation, realText);
        ghost var child := Render(Layout(JsonArrays.Slot(es, index), inner, indentation, realText));
        ghost var rest := LayoutItems(es, index + 1, indent, indentation, realText);
        AssocItem(sout, NewLine(indentation, inner), child,
                  if rest == [] then NewLine(indentation, indent) + "]" else "," + ItemsText(rest[0].before, rest));
        WriteItem(es, index);
        index := index + 1;
        if index == JsonArrays.SizeOf(es) {
          break;
        }
        Assoc(sout, ",", ItemsText(rest[0].before, rest));
        sout := sout + ",";
      }
      Unindent(indent);
      Assoc(sout, NewLine(indentation, indent), "]");
      WriteWithIndent("]");
    }

    /** One turn of the loop over member names, up to the comma. */
    method WriteMember(es: seq<Entry>, i: nat)
      requires Valid(Obj(es)) && i < |es| && !indented && colonSymbol == ColonSymbol(indentation)
      modifies this
      ensures indentString == old(indentString) && !indented
      ensures sout ==
              ((((old(sout) + (NewLine(indentation, indentString) + Quoted(NameOf(es[i].key)))) + ColonSymbol(indentation))
                + (if IsBig(es[i].value) then NewLine(indentation, indentString) else ""))
               + Render(Layout(es[i].value, indentString, indentation, realText)))
      decreases 1 + MapHeight(es), 0
    {
      hide *;
      MemberValid(es, i);
      var name := es[i].key.s;
      NameIs(es[i].key);
      var quoted := ValueToQuotedString(name);
      Assoc(sout, NewLine(indentation, indentString), quoted);
      WriteWithIndent(quoted);
      sout := sout + colonSymbol;
      LeadIs(es[i].value, false, indentString);
      WriteValue(Find(es, Name(name)).value);
    }

    method WriteObjectValue(es: seq<Entry>)
      requires Valid(Obj(es)) && es != [] && colonSymbol == ColonSymbol(indentation)
      modifies this
      ensures indentString == old(indentString) && !indented
      ensures sout ==
              (old(sout) + Lead(Obj(es), old(indented), indentString)) + Render(Layout(Obj(es), indentString, indentation, realText))
      decreases 1 + MapHeight(es), 1
    {
      RenderLayout(Obj(es), indentString, indentation, realText);
      hide *;
      ghost var indent, inner := indentString, indentString + indentation;
      ghost var head := sout + Lead(Obj(es), indented, indent);
      ghost var goal := head + Render(Layout(Obj(es), indent, indentation, realText));
      LeadIs(Obj(es), indented, indent);
      assert es[0..] == es;
      LayoutMembersText(es, 0, indent, indentation, realText);
      WriteWithIndent("{");
      assert sout == head + "{";
      Indent();
      Assoc(head, "{", MembersText(LayoutMembers(es, indent, indentation, realText)));
      var i := 0;
      while true
        invariant 0 <= i < |es| && !indented && indentString == inner
        invariant var ms := LayoutMembers(es[i..], indent, indentation, realText);
                  ms != [] && sout + MembersText(ms) == goal
        decreases |es| - i
      {
        LayoutMembersText(es, i, indent, indentation, realText);
        ghost var rest := LayoutMembers(es[i + 1..], indent, indentation, realText);
        AssocFront(sout, NewLine(indentation, inner) + Quoted(NameOf(es[i].key)), ColonSymbol(indentation),
                   if IsBig(es[i].value) then NewLine(indentation, inner) else "",
                   Render(Layout(es[i].value, inner, indentation, realText)),
                   if rest == [] then NewLine(indentation, indent) + "}" else "," + MembersText(rest));
        WriteMember(es, i);
        i := i + 1;
        if i == |es| {
          break;
        }
        Assoc(sout, ",", MembersText(rest));
        sout := sout + ",";
      }
      Unindent(indent);
      Assoc(sout, NewLine(indentation, indent), "}");
      WriteWithIndent("}");
    }
  }

  lemma AssocFront(a: string, n: string, c: string, lead: string, r: string, tail: string)
    ensures a + ((((n + c) + lead) + r) + tail) == ((((a + n) + c) + lead) + r) + tail
  {
  }

  lemma AssocItem(a: string, n: string, r: string, tail: string)
    ensures ((a + n) + r) + tail == a + (n + (r + tail))
  {
  }
}
