/**
 What writing and reading mean together: which values survive the trip, which come back as
 themselves, and the normal form of everything the reader accepts.
 */
module JsonTheorems {
  import opened JsonValues
  import JsonArrays
  import JsonNumbers
  import opened JsonParsing
  import opened JsonStrings
  import opened JsonTokens
  import opened JsonGrammar
  import opened JsonLayout
  import opened JsonRoundTrip
  import opened JsonNormalForm
  import JsonAcceptance
  import opened JsonWriters
  import JsonReader

  /** The reader's settings the program uses, for a document. */
  function Lenient(document: string, toDouble: JsonNumbers.ToDouble): Config {
    Config(document, true, false, toDouble)
  }

  lemma LenientIs(document: string, toDouble: JsonNumbers.ToDouble)
    ensures Lenient(document, toDouble) == Config(document, true, false, toDouble)
  {
  }

  lemma BlankEnds()
    ensures Blank("") && Blank("\n")
    ensures forall s: string :: "" + s == s
  {
  }

  /** Reading a plain value laid out with any blank indentation and followed by blanks: the value
      comes back with its integers retagged and its array holes filled, or parse throws, exactly
      when it nests deeper than the stack limit. */
  lemma LayoutThenParse(v: Value, indent: string, indentation: string, after: string, root: Value,
                        realText: RealText, toDouble: JsonNumbers.ToDouble)
    requires Valid(v) && Plain(v) && Blank(indent) && Blank(indentation) && Blank(after)
    ensures var document := Render(Layout(v, indent, indentation, realText)) + after;
            Parse(Lenient(document, toDouble), root) ==
            if ValueHeight(v) > STACK_LIMIT then Threw else Done(true, Canon(v), State(|document|, 0, []))
  {
    hide *;
    var x := Layout(v, indent, indentation, realText);
    var document := Render(x) + after;
    LayoutDenotes(v, indent, indentation, realText, toDouble);
    BlankEnds();
    LenientIs(document, toDouble);
    JsonAcceptance.ParsesReadable(Lenient(document, toDouble), root, "", x, after);
  }

  /** FastWriter::write, then parse: a value without reals comes back, with its integers retagged
      and its array holes filled, exactly when it holds no null string pointer and does not nest
      deeper than the stack limit. */
  lemma WriteThenParse(v: Value, root: Value, realText: RealText, toDouble: JsonNumbers.ToDouble)
    requires Valid(v) && NoReal(v)
    ensures var document := Render(TreeOf(v, realText)) + "\n";
            Parse(Lenient(document, toDouble), root) == Done(true, Canon(v), State(|document|, 0, [])) <==>
            Plain(v) && ValueHeight(v) <= STACK_LIMIT
  {
    hide *;
    var document := Render(TreeOf(v, realText)) + "\n";
    var r := Parse(Lenient(document, toDouble), root);
    if Plain(v) {
      BlankEnds();
      LayoutFlat(v, realText);
      LayoutThenParse(v, "", "", "\n", root, realText, toDouble);
    } else if r == Done(true, Canon(v), State(|document|, 0, [])) {
      ParseGood(Lenient(document, toDouble), root);
      CanonicalCanonPlain(v);
    }
  }

  /** A null string pointer is what spoils the trip: it prints as nothing, so what is read back
      is not the value, whatever else the value holds. */
  lemma NullPointerNeverReturns(v: Value, root: Value, realText: RealText, toDouble: JsonNumbers.ToDouble)
    requires Valid(v) && NoReal(v) && !Plain(v)
    ensures var r := Parse(Lenient(Render(TreeOf(v, realText)) + "\n", toDouble), root);
            r.Done? && r.ok ==> r.value != Canon(v)
  {
    hide *;
    var c := Lenient(Render(TreeOf(v, realText)) + "\n", toDouble);
    var r := Parse(c, root);
    if r.Done? && r.ok && r.value == Canon(v) {
      ParseGood(c, root);
      CanonicalCanonPlain(v);
    }
  }

  lemma ParseFrom(c: Config, root: Value)
    ensures var r := ReadValue(c, root, State(0, 0, []));
            var p := Parse(c, root);
            p.Done? && p.ok ==> r.Done? && r.ok && r.value == p.value
  {
    hide ReadValue, NextToken, Regular;
  }

  /** Whatever document the reader accepts, with any settings and whatever the root held before,
      the value has the normal form: integers tagged by size, no null string pointer, arrays
      without holes, member names in dictionary order at every depth, nesting within the limit. */
  lemma ParseGood(c: Config, root: Value)
    ensures var r := Parse(c, root);
            r.Done? && r.ok ==>
              Canonical(r.value) && Valid(r.value) && NamesInOrder(r.value) && ValueHeight(r.value) <= STACK_LIMIT
  {
    hide *;
    ParseFrom(c, root);
    ReadGood(c, root, State(0, 0, []));
    Outcomes(ReadValue(c, root, State(0, 0, [])), 0);
    var r := Parse(c, root);
    if r.Done? && r.ok {
      CanonicalValid(r.value);
      ValidInOrder(r.value);
    }
  }

  lemma {:induction false} MemberWritten(es: seq<Entry>, i: nat, realText: RealText)
    requires i < |es|
    ensures var ms := MembersOf(es, realText);
            |ms| == |es| && ms[i].name == Quotes(NameOf(es[i].key)) && ms[i].value == TreeOf(es[i].value, realText)
  {
    MembersOfUnfold(es, 0, realText);
    assert es[0..] == es;
    hide MembersOf, TreeOf, Quotes, NameOf;
    if i > 0 {
      MemberWritten(es[1..], i - 1, realText);
    } else if |es| > 1 {
      MemberWritten(es[1..], 0, realText);
    } else {
      NoMoreMembers(realText);
      assert es[1..] == [];
    }
  }

  /** The members of an object are all written, with their values, and in the dictionary order of
      their names. */
  lemma ObjectWritten(v: Value, realText: RealText, i: nat, j: nat)
    requires Valid(v) && v.Obj? && i < j < |v.entries|
    ensures var x := TreeOf(v, realText);
            && x.ObjectLiteral? && |x.members| == |v.entries|
            && Decodable(x.members[i].name) && Decodable(x.members[j].name)
            && v.entries[i] == Entry(Name(Meanings(x.members[i].name)), v.entries[i].value)
            && x.members[i].value == TreeOf(v.entries[i].value, realText)
            && Before(Meanings(x.members[i].name), Meanings(x.members[j].name))
  {
    var es := v.entries;
    NamesOfObject(es);
    NameIs(es[i].key);
    NameIs(es[j].key);
    MemberWritten(es, i, realText);
    MemberWritten(es, j, realText);
    QuotesMean(es[i].key.s);
    QuotesMean(es[j].key.s);
    hide MembersOf, Quotes, NameOf, Before, Decodable, Meanings;
  }

  /** Every accepted document without reals has a normal form: its value, written and read again,
      is the same value, so reading and writing repeat from then on. */
  lemma ParseWriteParse(c: Config, root: Value, again: Value, realText: RealText, toDouble: JsonNumbers.ToDouble)
    ensures var r := Parse(c, root);
            r.Done? && r.ok && NoReal(r.value) ==>
              var document := Render(TreeOf(r.value, realText)) + "\n";
              Parse(Lenient(document, toDouble), again) == Done(true, r.value, State(|document|, 0, []))
  {
    hide *;
    var r := Parse(c, root);
    if r.Done? && r.ok && NoReal(r.value) {
      ParseGood(c, root);
      CanonicalPlain(r.value);
      CanonicalFixed(r.value);
      WriteThenParse(r.value, again, realText, toDouble);
    }
  }

  /** The trip gives back the very same value, tags and holes included, exactly when the value
      already has the normal form. */
  lemma WriteThenParseIdentity(v: Value, root: Value, realText: RealText, toDouble: JsonNumbers.ToDouble)
    requires Valid(v) && NoReal(v)
    ensures var document := Render(TreeOf(v, realText)) + "\n";
            Parse(Lenient(document, toDouble), root) == Done(true, v, State(|document|, 0, [])) <==>
            Canonical(v) && ValueHeight(v) <= STACK_LIMIT
  {
    hide *;
    var c := Lenient(Render(TreeOf(v, realText)) + "\n", toDouble);
    ParseGood(c, root);
    if Canonical(v) {
      CanonicalPlain(v);
      CanonicalFixed(v);
      WriteThenParse(v, root, realText, toDouble);
    }
  }

  /** The same data: integers equal by numeric value whatever their tags, arrays equal slot by
      slot with a hole reading as null, objects equal member by member, all else identical. */
  ghost predicate SameData(v: Value, w: Value)
    decreases ValueHeight(v)
  {
    match v
    case Int(i) => (w.Int? && w.i == i) || (w.UInt? && w.u == i)
    case UInt(u) => (w.Int? && w.i == u) || (w.UInt? && w.u == u)
    case Arr(es) =>
      && w.Arr? && JsonArrays.SizeOf(w.entries) == JsonArrays.SizeOf(es)
      && forall k: nat | k < JsonArrays.SizeOf(es) ::
           (SlotHeight(es, k); SameData(JsonArrays.Slot(es, k), JsonArrays.Slot(w.entries, k)))
    case Obj(es) =>
      && w.Obj? && |w.entries| == |es|
      && forall i: nat | i < |es| ::
           (EntryHeight(es, i); es[i].key == w.entries[i].key && SameData(es[i].value, w.entries[i].value))
    case _ => w == v
  }

  /** What comes back is the same data. */
  lemma {:induction false} CanonSameData(v: Value)
    requires Valid(v)
    ensures SameData(v, Canon(v))
    decreases ValueHeight(v)
  {
    match v {
      case Arr(es) =>
        CanonItemsCounted(es);
        forall k: nat | k < JsonArrays.SizeOf(es) ensures SameData(JsonArrays.Slot(es, k), Canon(JsonArrays.Slot(es, k))) {
          SlotHeight(es, k);
          SlotValid(es, k);
          CanonSameData(JsonArrays.Slot(es, k));
        }
      case Obj(es) =>
        forall i: nat | i < |es|
          ensures |CanonMembers(es)| == |es| && CanonMembers(es)[i].key == es[i].key && SameData(es[i].value, CanonMembers(es)[i].value)
        {
          EntryHeight(es, i);
          CanonMembersAt(es, i);
          assert es[i] in es;
          CanonSameData(es[i].value);
        }
      case _ =>
    }
  }

  /** With empty indentation BuiltStyledStreamWriter prints what FastWriter prints, less the line
      feed at the end. */
  method StyledIsFast(v: Value, realText: RealText) returns (styled: string, fast: string)
    requires Valid(v)
    ensures fast == styled + "\n"
  {
    hide *;
    var s := new BuiltStyledStreamWriter("", realText);
    styled := s.Write(v);
    var f := new FastWriter(realText);
    fast := f.Write(v);
    LayoutFlat(v, realText);
  }

  /** Write, read and write again: what is read is the value with its integers retagged and its
      array holes filled, and the second text is the first. */
  method WriteReadWrite(v: Value, root: Value, realText: RealText, toDouble: JsonNumbers.ToDouble)
    returns (first: string, threw: bool, ok: bool, back: Value, second: string)
    requires Valid(v) && Plain(v)
    ensures threw <==> ValueHeight(v) > STACK_LIMIT
    ensures !threw ==> ok && back == Canon(v) && SameData(v, back) && second == first
  {
    hide *;
    var f := new FastWriter(realText);
    first := f.Write(v);
    BlankEnds();
    LayoutFlat(v, realText);
    LayoutThenParse(v, "", "", "\n", root, realText, toDouble);
    var c := Config(first, true, false, toDouble);
    LenientIs(first, toDouble);
    ghost var r := Parse(c, root);
    ParseGood(c, root);
    var reader := new JsonReader.Reader(c);
    threw, ok := reader.Parse(root);
    back, second := Null, "";
    if !threw {
      back := reader.nodes[0];
      CanonSameTree(v, realText);
      CanonSameData(v);
      var g := new FastWriter(realText);
      second := g.Write(back);
    }
  }
}
