/**
 Writing and reading back: the value that comes back, when it does, and the normal form that
 every successfully parsed document has.
 */
module JsonRoundTrip {
  import opened JsonValues
  import JsonArrays
  import JsonNumbers
  import JsonParsing
  import opened JsonScanner
  import opened JsonStrings
  import opened JsonTokens
  import opened JsonGrammar
  import opened JsonLayout
  import JsonAcceptance

  // ---------------------------------------------------------------------------
  // The value that comes back
  // ---------------------------------------------------------------------------

  /** v with every integer tagged as the reader tags it and every array hole filled with null. */
  ghost function Canon(v: Value): Value
    decreases ValueHeight(v), 0, 0
  {
    match v
    case Int(i) => JsonNumbers.Tagged(i)
    case UInt(u) => JsonNumbers.Tagged(u)
    case Arr(es) => Arr(CanonItems(es, 0))
    case Obj(es) => Obj(CanonMembers(es))
    case _ => v
  }

  ghost function CanonItems(es: seq<Entry>, index: nat): seq<Entry>
    decreases MapHeight(es), 1, JsonArrays.SizeOf(es) - index
  {
    if index >= JsonArrays.SizeOf(es) then []
    else
      SlotHeight(es, index);
      [Entry(Index(index), Canon(JsonArrays.Slot(es, index)))] + CanonItems(es, index + 1)
  }

  ghost function CanonMembers(es: seq<Entry>): seq<Entry>
    decreases MapHeight(es), 1, |es|
  {
    if es == [] then [] else [Entry(es[0].key, Canon(es[0].value))] + CanonMembers(es[1..])
  }

  /** No real and no null string pointer anywhere. */
  ghost predicate Plain(v: Value)
    decreases v
  {
    match v
    case Real(_) => false
    case NoString => false
    case Arr(es) => PlainMap(es)
    case Obj(es) => PlainMap(es)
    case _ => true
  }

  ghost predicate PlainMap(es: seq<Entry>)
    decreases es
  {
    es == [] || (assert es[0].value < es[0]; Plain(es[0].value) && PlainMap(es[1..]))
  }

  lemma {:induction false} PlainEntry(es: seq<Entry>, i: nat)
    requires PlainMap(es) && i < |es|
    ensures Plain(es[i].value)
  {
    if i > 0 {
      PlainEntry(es[1..], i - 1);
    }
  }

  lemma SlotOf(es: seq<Entry>, index: nat)
    ensures JsonArrays.Slot(es, index) == Null ||
            exists i :: 0 <= i < |es| && es[i].value == JsonArrays.Slot(es, index)
  {
  }

  lemma SlotGood(es: seq<Entry>, index: nat)
    requires Valid(Arr(es)) && PlainMap(es)
    ensures Valid(JsonArrays.Slot(es, index)) && Plain(JsonArrays.Slot(es, index))
  {
    hide JsonArrays.Slot;
    SlotOf(es, index);
    if i :| 0 <= i < |es| && es[i].value == JsonArrays.Slot(es, index) {
      PlainEntry(es, i);
      assert es[i] in es;
    }
  }

  // ---------------------------------------------------------------------------
  // What the laid-out text denotes
  // ---------------------------------------------------------------------------

  lemma NumeralDenotes(i: int, toDouble: JsonNumbers.ToDouble)
    requires JsonNumbers.InRange(i)
    ensures WellFormed(NumberLiteral(NumeralOf(i))) && Readable(NumberLiteral(NumeralOf(i)), toDouble)
    ensures Denote(NumberLiteral(NumeralOf(i)), toDouble) == JsonNumbers.Tagged(i)
  {
    hide *;
    JsonNumbers.DecodeInvertsToString(i, toDouble);
    NumeralOfText(i);
    NumeralIsRead(NumeralOf(i));
    NumeralValueIs(NumeralOf(i), toDouble);
    NumberDenotes(NumeralOf(i), toDouble);
  }

  lemma NumeralOfText(i: int)
    ensures NumeralText(NumeralOf(i)) == JsonNumbers.DecimalInt(i) && IsNumeral(NumeralOf(i))
  {
    DecimalDigits(if i < 0 then -i else i);
    hide JsonNumbers.Decimal, Digits;
  }

  lemma NumberDenotes(n: Numeral, toDouble: JsonNumbers.ToDouble)
    ensures WellFormed(NumberLiteral(n)) <==> IsNumeral(n)
    ensures Readable(NumberLiteral(n), toDouble) <==> NumeralValue(n, toDouble).Some?
    ensures NumeralValue(n, toDouble).Some? ==> Denote(NumberLiteral(n), toDouble) == NumeralValue(n, toDouble).value
  {
    hide IsNumeral, NumeralValue;
  }

  lemma DecimalDigits(n: nat)
    ensures Digits(JsonNumbers.Decimal(n))
  {
    assert JsonNumbers.AllDigits(JsonNumbers.Decimal(n));
    hide JsonNumbers.Decimal;
  }

  lemma ScalarDenotes(v: Value, realText: RealText, toDouble: JsonNumbers.ToDouble)
    requires !v.Arr? && !v.Obj? && Plain(v)
    ensures WellFormed(ScalarTree(v, realText)) && Readable(ScalarTree(v, realText), toDouble)
    ensures Denote(ScalarTree(v, realText), toDouble) == Canon(v)
    ensures Height(ScalarTree(v, realText)) == 1
  {
    hide NumeralOf;
    match v {
      case Int(i) => NumeralDenotes(i, toDouble);
      case UInt(u) => NumeralDenotes(u, toDouble);
      case Str(s) => QuotesMean(s);
      case _ =>
    }
    hide IsNumeral, JsonNumbers.NumberValue, Decodable, Meanings;
  }

  lemma LayoutSpaces(indent: string, indentation: string)
    requires Blank(indent) && Blank(indentation)
    ensures Blank(indent + indentation) && Blank("") && Blank(NewLine(indentation, indent)) && Blank(ColonSpace(indentation))
    ensures Blank(NewLine(indentation, indent + indentation))
    ensures Blank(ColonSpace(indentation) + NewLine(indentation, indent + indentation))
    ensures Blank(ColonSpace(indentation) + "")
  {
  }

  lemma LayoutItemsUnfold(es: seq<Entry>, index: nat, indent: string, indentation: string, realText: RealText)
    requires index < JsonArrays.SizeOf(es)
    ensures var items := LayoutItems(es, index, indent, indentation, realText);
            && items != [] && items[1..] == LayoutItems(es, index + 1, indent, indentation, realText)
            && items[0].before == NewLine(indentation, indent + indentation)
            && items[0].value == Layout(JsonArrays.Slot(es, index), indent + indentation, indentation, realText)
            && items[0].after == if index + 1 == JsonArrays.SizeOf(es) then NewLine(indentation, indent) else ""
    ensures CanonItems(es, index) ==
            [Entry(Index(index), Canon(JsonArrays.Slot(es, index)))] + CanonItems(es, index + 1)
  {
    hide Layout, JsonArrays.Slot, JsonArrays.SizeOf, NewLine, Canon;
  }

  lemma LayoutItemsEnd(es: seq<Entry>, index: nat, indent: string, indentation: string, realText: RealText)
    requires index >= JsonArrays.SizeOf(es)
    ensures LayoutItems(es, index, indent, indentation, realText) == [] && CanonItems(es, index) == []
  {
  }

  lemma WellFormedItemsIs(items: seq<Item>, index: nat, toDouble: JsonNumbers.ToDouble)
    requires items != []
    ensures WellFormedItems(items) && ReadableItems(items, toDouble) <==>
            Blank(items[0].before) && Blank(items[0].after) && WellFormed(items[0].value) && Readable(items[0].value, toDouble)
            && WellFormedItems(items[1..]) && ReadableItems(items[1..], toDouble)
    ensures ItemsHeight(items) == Max(Height(items[0].value), ItemsHeight(items[1..]))
    ensures WellFormedItems(items) && ReadableItems(items, toDouble) ==>
              DenoteItems(index, items, toDouble) ==
              [Entry(Index(index), Denote(items[0].value, toDouble))] + DenoteItems(index + 1, items[1..], toDouble)
  {
    assert WellFormedItem(items[0]) && ReadableItem(items[0], toDouble) <==>
           Blank(items[0].before) && Blank(items[0].after) && WellFormed(items[0].value) && Readable(items[0].value, toDouble);
    hide WellFormed, Readable, Blank, Height, Denote;
  }

  lemma NoItems(index: nat, toDouble: JsonNumbers.ToDouble)
    ensures WellFormedItems([]) && ReadableItems([], toDouble) && ItemsHeight([]) == 0 && DenoteItems(index, [], toDouble) == []
  {
  }

  lemma {:induction false} LayoutDenotes(v: Value, indent: string, indentation: string, realText: RealText, toDouble: JsonNumbers.ToDouble)
    requires Valid(v) && Plain(v) && Blank(indent) && Blank(indentation)
    ensures var x := Layout(v, indent, indentation, realText);
            WellFormed(x) && Readable(x, toDouble) && Denote(x, toDouble) == Canon(v) && Height(x) == ValueHeight(v)
    decreases ValueHeight(v), 0, 0
  {
    if v.Arr? {
      ArrayDenotes(v.entries, indent, indentation, realText, toDouble);
    } else if v.Obj? {
      ObjectDenotes(v.entries, indent, indentation, realText, toDouble);
    } else {
      hide *;
      ScalarLayout(v, indent, indentation, realText);
      ScalarDenotes(v, realText, toDouble);
    }
  }

  lemma ScalarLayout(v: Value, indent: string, indentation: string, realText: RealText)
    requires !v.Arr? && !v.Obj?
    ensures Layout(v, indent, indentation, realText) == ScalarTree(v, realText) && ValueHeight(v) == 1
  {
    hide ScalarTree;
  }

  lemma ArrayDenotes(es: seq<Entry>, indent: string, indentation: string, realText: RealText, toDouble: JsonNumbers.ToDouble)
    requires Valid(Arr(es)) && PlainMap(es) && Blank(indent) && Blank(indentation)
    ensures var x := Layout(Arr(es), indent, indentation, realText);
            WellFormed(x) && Readable(x, toDouble) && Denote(x, toDouble) == Canon(Arr(es)) && Height(x) == ValueHeight(Arr(es))
    decreases MapHeight(es), 2, 0
  {
    hide Valid, PlainMap, LayoutItems, CanonItems, MapHeight, WellFormedItems, ReadableItems, DenoteItems, ItemsHeight;
    LayoutSpaces(indent, indentation);
    hide Blank;
    ItemsDenote(es, 0, indent, indentation, realText, toDouble);
    if es != [] {
      ItemsReachHeight(es, indent, indentation, realText, toDouble);
    } else {
      EmptyHeights(indent, indentation, realText);
    }
  }

  lemma EmptyHeights(indent: string, indentation: string, realText: RealText)
    ensures MapHeight([]) == 0 && ItemsHeight(LayoutItems([], 0, indent, indentation, realText)) == 0
  {
  }

  lemma {:induction false} ItemsDenote(es: seq<Entry>, index: nat, indent: string, indentation: string, realText: RealText, toDouble: JsonNumbers.ToDouble)
    requires Valid(Arr(es)) && PlainMap(es) && Blank(indent) && Blank(indentation)
    ensures var items := LayoutItems(es, index, indent, indentation, realText);
            && WellFormedItems(items) && ReadableItems(items, toDouble) && DenoteItems(index, items, toDouble) == CanonItems(es, index)
            && ItemsHeight(items) <= MapHeight(es)
            && forall k: nat :: index <= k < JsonArrays.SizeOf(es) ==> ValueHeight(JsonArrays.Slot(es, k)) <= ItemsHeight(items)
    decreases MapHeight(es), 1, JsonArrays.SizeOf(es) - index
  {
    hide *;
    if index >= JsonArrays.SizeOf(es) {
      LayoutItemsEnd(es, index, indent, indentation, realText);
      NoItems(index, toDouble);
    } else {
      LayoutItemsUnfold(es, index, indent, indentation, realText);
      LayoutSpaces(indent, indentation);
      SlotGood(es, index);
      SlotHeight(es, index);
      LayoutDenotes(JsonArrays.Slot(es, index), indent + indentation, indentation, realText, toDouble);
      ItemsDenote(es, index + 1, indent, indentation, realText, toDouble);
      var items := LayoutItems(es, index, indent, indentation, realText);
      WellFormedItemsIs(items, index, toDouble);
      JsonAcceptance.MaxIs(Height(items[0].value), ItemsHeight(items[1..]));
    }
  }

  /** The highest entry of an array is one of its slots. */
  lemma ItemsReachHeight(es: seq<Entry>, indent: string, indentation: string, realText: RealText, toDouble: JsonNumbers.ToDouble)
    requires Valid(Arr(es)) && es != []
    requires var items := LayoutItems(es, 0, indent, indentation, realText);
             forall k: nat :: k < JsonArrays.SizeOf(es) ==> ValueHeight(JsonArrays.Slot(es, k)) <= ItemsHeight(items)
    ensures MapHeight(es) <= ItemsHeight(LayoutItems(es, 0, indent, indentation, realText))
  {
    var j := HighestEntry(es);
    var k := es[j].key.i;
    FindAt(es, j);
    JsonArrays.FindBelowSize(es, k);
    hide *;
    SlotFound(es, k);
  }

  lemma SlotFound(es: seq<Entry>, k: nat)
    requires Find(es, Index(k)).Some?
    ensures JsonArrays.Slot(es, k) == Find(es, Index(k)).value
  {
  }

  lemma {:induction false} HighestEntry(es: seq<Entry>) returns (j: nat)
    requires es != []
    ensures j < |es| && ValueHeight(es[j].value) == MapHeight(es)
  {
    j := 0;
    if |es| > 1 {
      var k := HighestEntry(es[1..]);
      if ValueHeight(es[0].value) < MapHeight(es[1..]) {
        j := k + 1;
      }
    } else {
      assert MapHeight(es[1..]) == 0;
    }
  }

  // ---------------------------------------------------------------------------
  // Members
  // ---------------------------------------------------------------------------

  /** A key above all keys of a map goes to its end. */
  lemma PutAtEnd(es: seq<Entry>, k: Key, v: Value)
    requires forall i :: 0 <= i < |es| ==> KeyLess(es[i].key, k)
    ensures Put(es, k, v) == es + [Entry(k, v)]
  {
    assert LowerBound(es, k) == |es|;
  }

  lemma LayoutMembersUnfold(es: seq<Entry>, indent: string, indentation: string, realText: RealText)
    requires es != []
    ensures var ms := LayoutMembers(es, indent, indentation, realText);
            && ms != [] && ms[1..] == LayoutMembers(es[1..], indent, indentation, realText)
            && ms[0].separator == ","
            && ms[0].before == NewLine(indentation, indent + indentation)
            && ms[0].name == Quotes(NameOf(es[0].key))
            && ms[0].beforeColon == ColonSpace(indentation)
            && ms[0].afterColon == ColonSpace(indentation) + (if IsBig(es[0].value) then NewLine(indentation, indent + indentation) else "")
            && ms[0].value == Layout(es[0].value, indent + indentation, indentation, realText)
            && ms[0].after == if |es| == 1 then NewLine(indentation, indent) else ""
    ensures CanonMembers(es) == [Entry(es[0].key, Canon(es[0].value))] + CanonMembers(es[1..])
    ensures MapHeight(es) == Max(ValueHeight(es[0].value), MapHeight(es[1..]))
    ensures PlainMap(es) ==> Plain(es[0].value) && PlainMap(es[1..])
  {
    hide Layout, NewLine, Canon, IsBig, ColonSpace, ValueHeight, Plain;
  }

  lemma WellFormedMembersIs(ms: seq<Member>, es: seq<Entry>, toDouble: JsonNumbers.ToDouble)
    requires ms != []
    ensures var m := ms[0];
            WellFormedMembers(ms) && ReadableMembers(ms, toDouble) <==>
            m.separator == "," && Blank(m.before) && Blank(m.beforeColon) && Blank(m.afterColon) && Blank(m.after)
            && Decodable(m.name) && WellFormed(m.value) && Readable(m.value, toDouble) && WellFormedMembers(ms[1..]) && ReadableMembers(ms[1..], toDouble)
    ensures MembersHeight(ms) == Max(Height(ms[0].value), MembersHeight(ms[1..]))
    ensures WellFormedMembers(ms) && ReadableMembers(ms, toDouble) ==>
              DenoteMembers(es, ms, toDouble) ==
              DenoteMembers(Put(es, Name(Meanings(ms[0].name)), Denote(ms[0].value, toDouble)), ms[1..], toDouble)
  {
    assert WellFormedMember(ms[0]) && ReadableMember(ms[0], toDouble) <==>
           ms[0].separator == "," && Blank(ms[0].before) && Blank(ms[0].beforeColon) && Blank(ms[0].afterColon) && Blank(ms[0].after)
           && Decodable(ms[0].name) && WellFormed(ms[0].value) && Readable(ms[0].value, toDouble);
    hide WellFormed, Readable, Blank, Height, Denote, Decodable, Meanings, Put;
  }

  lemma NoMembers(es: seq<Entry>, indent: string, indentation: string, realText: RealText, toDouble: JsonNumbers.ToDouble)
    ensures LayoutMembers([], indent, indentation, realText) == [] && CanonMembers([]) == [] && MapHeight([]) == 0
    ensures WellFormedMembers([]) && ReadableMembers([], toDouble) && MembersHeight([]) == 0 && DenoteMembers(es, [], toDouble) == es
  {
  }

  /** All keys of es are names, increasing, and above those of pre. */
  ghost predicate Follows(pre: seq<Entry>, es: seq<Entry>) {
    && Valid(Obj(es))
    && forall i, j :: 0 <= i < |pre| && 0 <= j < |es| ==> KeyLess(pre[i].key, es[j].key)
  }

  lemma FollowsNext(pre: seq<Entry>, es: seq<Entry>, v: Value)
    requires Follows(pre, es) && es != []
    ensures Valid(es[0].value) && es[0].key == Name(NameOf(es[0].key))
    ensures Follows(pre + [Entry(es[0].key, v)], es[1..])
    ensures Put(pre, es[0].key, v) == pre + [Entry(es[0].key, v)]
  {
    PutAtEnd(pre, es[0].key, v);
    hide Put, KeyLess;
    assert es[0] in es;
    forall e | e in es[1..] ensures Valid(e.value) {
      assert e in es;
    }
  }

  lemma {:induction false} MembersDenote(pre: seq<Entry>, es: seq<Entry>, indent: string, indentation: string, realText: RealText, toDouble: JsonNumbers.ToDouble)
    requires Follows(pre, es) && PlainMap(es) && Blank(indent) && Blank(indentation)
    ensures var ms := LayoutMembers(es, indent, indentation, realText);
            && WellFormedMembers(ms) && ReadableMembers(ms, toDouble) && DenoteMembers(pre, ms, toDouble) == pre + CanonMembers(es)
            && MembersHeight(ms) == MapHeight(es)
    decreases MapHeight(es), 1, |es|
  {
    hide *;
    if es == [] {
      NoMembers(pre, indent, indentation, realText, toDouble);
    } else {
      var v, rest := es[0].value, es[1..];
      LayoutMembersUnfold(es, indent, indentation, realText);
      LayoutSpaces(indent, indentation);
      FollowsNext(pre, es, Canon(v));
      JsonAcceptance.MaxIs(ValueHeight(v), MapHeight(rest));
      LayoutDenotes(v, indent + indentation, indentation, realText, toDouble);
      var pre' := pre + [Entry(es[0].key, Canon(v))];
      MembersDenote(pre', rest, indent, indentation, realText, toDouble);
      var ms := LayoutMembers(es, indent, indentation, realText);
      QuotesMean(NameOf(es[0].key));
      WellFormedMembersIs(ms, pre, toDouble);
      assert pre' + CanonMembers(rest) == pre + CanonMembers(es);
    }
  }

  lemma ObjectDenotes(es: seq<Entry>, indent: string, indentation: string, realText: RealText, toDouble: JsonNumbers.ToDouble)
    requires Valid(Obj(es)) && PlainMap(es) && Blank(indent) && Blank(indentation)
    ensures var x := Layout(Obj(es), indent, indentation, realText);
            WellFormed(x) && Readable(x, toDouble) && Denote(x, toDouble) == Canon(Obj(es)) && Height(x) == ValueHeight(Obj(es))
    decreases MapHeight(es), 2, 0
  {
    FollowsNothing(es);
    hide *;
    LayoutSpaces(indent, indentation);
    MembersDenote([], es, indent, indentation, realText, toDouble);
    assert [] + CanonMembers(es) == CanonMembers(es);
    ObjectLayoutIs(es, indent, indentation, realText, toDouble);
  }

  lemma FollowsNothing(es: seq<Entry>)
    requires Valid(Obj(es))
    ensures Follows([], es)
  {
  }

  lemma ObjectLayoutIs(es: seq<Entry>, indent: string, indentation: string, realText: RealText, toDouble: JsonNumbers.ToDouble)
    requires WellFormedMembers(LayoutMembers(es, indent, indentation, realText))
    requires ReadableMembers(LayoutMembers(es, indent, indentation, realText), toDouble)
    ensures var x, ms := Layout(Obj(es), indent, indentation, realText), LayoutMembers(es, indent, indentation, realText);
            && WellFormed(x) && Readable(x, toDouble) && Denote(x, toDouble) == Obj(DenoteMembers([], ms, toDouble))
            && Height(x) == 1 + MembersHeight(ms)
    ensures Canon(Obj(es)) == Obj(CanonMembers(es)) && ValueHeight(Obj(es)) == 1 + MapHeight(es)
  {
    hide LayoutMembers, CanonMembers, MapHeight, WellFormedMembers, ReadableMembers, DenoteMembers, MembersHeight;
  }
}
