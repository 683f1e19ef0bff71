/**
 Canonical values: the ones the reader produces.  Every successful parse, of any document
 whatsoever, yields one, and they are exactly the values that writing and reading leaves as
 they are.
 */
module JsonNormalForm {
  import opened JsonValues
  import JsonArrays
  import JsonNumbers
  import opened JsonParsing
  import JsonScanner
  import opened JsonGrammar
  import opened JsonLayout
  import opened JsonRoundTrip
  import opened JsonAcceptance

  /** Integers tagged by their size, arrays without holes, no null string pointers. */
  ghost predicate Canonical(v: Value)
    decreases v
  {
    match v
    case Int(i) => i <= JsonNumbers.MAX_INT
    case UInt(u) => u > JsonNumbers.MAX_INT
    case NoString => false
    case Arr(es) => Counted(es, |es|) && CanonicalMap(es)
    case Obj(es) => Sorted(es) && AllName(es) && CanonicalMap(es)
    case _ => true
  }

  ghost predicate CanonicalMap(es: seq<Entry>)
    decreases es
  {
    es == [] || (assert es[0].value < es[0]; Canonical(es[0].value) && CanonicalMap(es[1..]))
  }

  ghost predicate NoReal(v: Value)
    decreases v
  {
    match v
    case Real(_) => false
    case Arr(es) => NoRealMap(es)
    case Obj(es) => NoRealMap(es)
    case _ => true
  }

  ghost predicate NoRealMap(es: seq<Entry>)
    decreases es
  {
    es == [] || (assert es[0].value < es[0]; NoReal(es[0].value) && NoRealMap(es[1..]))
  }

  lemma {:induction false} CanonicalEntry(es: seq<Entry>, i: nat)
    requires CanonicalMap(es) && i < |es|
    ensures Canonical(es[i].value)
  {
    if i > 0 {
      CanonicalEntry(es[1..], i - 1);
    }
  }

  lemma {:induction false} CanonicalFromEntries(es: seq<Entry>)
    requires forall i :: 0 <= i < |es| ==> Canonical(es[i].value)
    ensures CanonicalMap(es)
  {
    if es != [] {
      assert forall i :: 0 <= i < |es[1..]| ==> es[1..][i] == es[i + 1];
      CanonicalFromEntries(es[1..]);
    }
  }

  lemma HeightFromEntries(es: seq<Entry>, h: nat)
    requires forall i :: 0 <= i < |es| ==> ValueHeight(es[i].value) <= h
    ensures MapHeight(es) <= h
  {
    if es != [] {
      var j := HighestEntry(es);
    }
  }

  // ---------------------------------------------------------------------------
  // Everything the reader returns is canonical and below the stack limit
  // ---------------------------------------------------------------------------

  /** The entries of a container under construction, at most h high. */
  ghost predicate Growing(es: seq<Entry>, h: nat) {
    CanonicalMap(es) && MapHeight(es) <= h
  }

  lemma GrowPut(es: seq<Entry>, k: Key, v: Value, h: nat)
    requires Growing(es, h) && Canonical(v) && ValueHeight(v) <= h
    ensures Growing(Put(es, k, v), h)
  {
    var ps := Put(es, k, v);
    forall i | 0 <= i < |ps| ensures Canonical(ps[i].value) && ValueHeight(ps[i].value) <= h {
      var n := LowerBound(es, k);
      if ps[i] != Entry(k, v) {
        var j := if |ps| == |es| || i < n then i else i - 1;
        assert ps[i] == es[j];
        CanonicalEntry(es, j);
        EntryHeight(es, j);
      }
    }
    CanonicalFromEntries(ps);
    HeightFromEntries(ps, h);
  }

  /** A successful outcome's value is canonical and fits below the stack limit. */
  ghost predicate GoodOutcome(r: Outcome, depth: nat) {
    r.Done? && r.ok ==> Canonical(r.value) && ValueHeight(r.value) + depth <= STACK_LIMIT
  }

  lemma GrowingNothing(h: nat)
    ensures Growing([], h) && Sorted([]) && AllName([]) && Counted([], 0)
  {
  }

  lemma ArrGood(es: seq<Entry>, index: nat, h: nat)
    requires Growing(es, h) && Counted(es, index)
    ensures Canonical(Arr(es)) && ValueHeight(Arr(es)) <= 1 + h
  {
    hide CanonicalMap, MapHeight;
  }

  lemma ObjGood(es: seq<Entry>, h: nat)
    requires Growing(es, h) && Sorted(es) && AllName(es)
    ensures Canonical(Obj(es)) && ValueHeight(Obj(es)) <= 1 + h
  {
    hide CanonicalMap, MapHeight, Sorted, AllName;
  }

  lemma NumberGood(c: Config, v: Value, s: State, t: JsonScanner.Token)
    requires s.pos <= |c.document| && t.start < t.end <= |c.document|
    ensures var r := NumberOf(c, v, s, t); r.Done? && r.ok ==> Canonical(r.value) && ValueHeight(r.value) == 1
  {
    hide JsonNumbers.IntegerText;
  }

  lemma ItemTurnCases(c: Config, index: nat, es: seq<Entry>, s: State)
    requires s.pos <= |c.document|
    ensures var r := ReadValue(c, Null, s);
            match ItemTurn(c, index, es, s)
            case Last(o) => o.Done? && o.ok ==> r.Done? && r.ok && o.value == Arr(Put(es, Index(index), r.value))
            case More(_, es', s') =>
              && r.Done? && r.ok && es' == Put(es, Index(index), r.value)
              && s.pos < s'.pos <= |c.document| && s'.depth == s.depth
  {
    hide ReadValue, Put, JsonScanner.ScanPastComments, JsonScanner.RecoverEnd;
  }

  lemma MemberRestCases(c: Config, key: string, es: seq<Entry>, s: State)
    requires s.pos <= |c.document|
    ensures var colon := JsonScanner.Scan(c.document, s.pos);
            var r := ReadValue(c, MemberOrNull(es, key), s.(pos := colon.end));
            match MemberRest(c, key, es, s)
            case Last(o) => o.Done? && o.ok ==>
              colon.end > s.pos && r.Done? && r.ok && o.value == Obj(Put(es, Name(key), r.value))
            case More(_, es', s') =>
              && colon.end > s.pos && r.Done? && r.ok && es' == Put(es, Name(key), r.value)
              && s.pos < s'.pos <= |c.document| && s'.depth == s.depth
  {
    hide ReadValue, Put, JsonScanner.Scan, JsonScanner.ScanPastComments, JsonScanner.RecoverEnd, MemberOrNull;
  }

  /** A turn ends the loop without touching the entries, or goes on past a member name. */
  lemma MemberTurnCases(c: Config, name: string, es: seq<Entry>, s: State) returns (named: bool, key: string, pos: nat)
    requires s.pos <= |c.document|
    ensures var turn := MemberTurn(c, name, es, s);
            if named
            then s.pos <= pos <= |c.document| && turn == MemberRest(c, key, es, s.(pos := pos))
            else turn.Last? && (turn.r.Done? && turn.r.ok ==> turn.r.value == Obj(es))
  {
    hide MemberRest, JsonScanner.ScanPastComments, JsonScanner.RecoverEnd, JsonStrings.Decode, Regular, RegularTurn;
    var t := JsonScanner.ScanPastComments(c.document, s.pos);
    named, key, pos := false, "", t.end;
    if t.kind == JsonScanner.StringToken {
      match JsonStrings.Decode(c.document, t.start + 1, t.end - 1) {
        case Bad(_, _) =>
        case Text(k) => named, key := true, k;
      }
    }
  }

  lemma ReadArrayCases(c: Config, s: State)
    requires s.pos <= |c.document|
    ensures var i := JsonScanner.SpacesEnd(c.document, s.pos);
            || ReadArray(c, s) == ReadItems(c, 0, [], s.(pos := i))
            || (ReadArray(c, s).Done? && ReadArray(c, s).value == Arr([]))
  {
    hide ReadItems, JsonScanner.Scan, JsonScanner.SpacesEnd, Regular;
  }

  lemma ReadValueCases(c: Config, v: Value, s: State)
    requires s.pos <= |c.document|
    ensures var r := ReadValue(c, v, s);
            r.Done? && r.ok ==>
              && s.depth < STACK_LIMIT
              && var t := NextToken(c, s.pos);
                 var inside := State(t.end, s.depth + 1, s.errors);
                 && t.start < t.end && StartsValue(t.kind)
                 && (t.kind == JsonScanner.StringToken ==> t.start + 2 <= t.end)
                 && r == Leave(ReadToken(c, v, inside, t))
  {
    hide NextToken, ReadMembers, ReadArray, NumberOf, StringValue, Regular, Leave;
  }

  lemma ScalarTokenGood(c: Config, v: Value, inside: State, t: JsonScanner.Token)
    requires inside.pos <= |c.document| && t.start < t.end <= |c.document|
    requires t.kind == JsonScanner.StringToken ==> t.start + 2 <= t.end
    requires StartsValue(t.kind) && t.kind != JsonScanner.ArrayBegin && t.kind != JsonScanner.ObjectBegin
    ensures var r := ReadToken(c, v, inside, t); r.Done? && r.ok ==> Canonical(r.value) && ValueHeight(r.value) == 1
  {
    NumberGood(c, v, inside, t);
    hide ReadMembers, ReadArray, NumberOf, Regular, JsonStrings.Decode;
  }

  lemma LeaveGood(r: Outcome, depth: nat)
    requires GoodOutcome(r, depth)
    ensures GoodOutcome(Leave(r), depth)
  {
  }

  lemma Outcomes(r: Outcome, depth: nat)
    ensures GoodOutcome(r, depth) <==> (r.Done? && r.ok ==> Canonical(r.value) && ValueHeight(r.value) + depth <= STACK_LIMIT)
  {
  }

  lemma LimitIs()
    ensures STACK_LIMIT == 1000
  {
  }

  lemma {:induction false} ReadGood(c: Config, v: Value, s: State)
    requires s.pos <= |c.document|
    ensures GoodOutcome(ReadValue(c, v, s), s.depth)
    decreases |c.document| - s.pos, 0
  {
    hide *;
    LimitIs();
    var r := ReadValue(c, v, s);
    Outcomes(r, s.depth);
    if r.Done? && r.ok {
      ReadValueCases(c, v, s);
      var t := NextToken(c, s.pos);
      var inside := State(t.end, s.depth + 1, s.errors);
      ContainerIsRead(c, v, inside, t);
      var o := ReadToken(c, v, inside, t);
      Outcomes(o, s.depth);
      if t.kind == JsonScanner.ArrayBegin {
        ArrayGood(c, inside);
      } else if t.kind == JsonScanner.ObjectBegin {
        GrowingNothing(STACK_LIMIT - inside.depth);
        MembersGood(c, "", [], inside);
      } else {
        ScalarTokenGood(c, v, inside, t);
      }
      LeaveGood(o, s.depth);
    }
  }

  lemma ArrayGood(c: Config, s: State)
    requires s.pos <= |c.document| && 1 <= s.depth <= STACK_LIMIT
    ensures GoodOutcome(ReadArray(c, s), s.depth - 1)
    decreases |c.document| - s.pos, 3
  {
    hide *;
    LimitIs();
    ReadArrayCases(c, s);
    GrowingNothing(STACK_LIMIT - s.depth);
    ArrGood([], 0, STACK_LIMIT - s.depth);
    Outcomes(ReadArray(c, s), s.depth - 1);
    var s1 := s.(pos := JsonScanner.SpacesEnd(c.document, s.pos));
    ItemsGood(c, 0, [], s1);
  }

  lemma {:induction false} ItemsGood(c: Config, index: nat, es: seq<Entry>, s: State)
    requires s.pos <= |c.document| && 1 <= s.depth <= STACK_LIMIT
    requires Counted(es, index) && Growing(es, STACK_LIMIT - s.depth)
    ensures GoodOutcome(ReadItems(c, index, es, s), s.depth - 1)
    decreases |c.document| - s.pos, 2
  {
    hide *;
    LimitIs();
    ReadGood(c, Null, s);
    var r := ReadValue(c, Null, s);
    Outcomes(r, s.depth);
    Outcomes(ReadItems(c, index, es, s), s.depth - 1);
    ItemTurnCases(c, index, es, s);
    ReadItemsIs(c, index, es, s);
    if r.Done? && r.ok {
      CountedNext(es, index, r.value);
      var es' := Put(es, Index(index), r.value);
      GrowPut(es, Index(index), r.value, STACK_LIMIT - s.depth);
      ArrGood(es', index + 1, STACK_LIMIT - s.depth);
      var turn := ItemTurn(c, index, es, s);
      if turn.More? {
        ItemsGood(c, index + 1, es', turn.state);
      }
    }
  }

  lemma NamesLike(es: seq<Entry>, key: string)
    ensures AllName(es) <==> KeysLike(es, Name(key))
  {
  }

  lemma {:induction false} MembersGood(c: Config, name: string, es: seq<Entry>, s: State)
    requires s.pos <= |c.document| && 1 <= s.depth <= STACK_LIMIT
    requires Sorted(es) && AllName(es) && Growing(es, STACK_LIMIT - s.depth)
    ensures GoodOutcome(ReadMembers(c, name, es, s), s.depth - 1)
    decreases |c.document| - s.pos, 2
  {
    hide *;
    LimitIs();
    var h := STACK_LIMIT - s.depth;
    Outcomes(ReadMembers(c, name, es, s), s.depth - 1);
    ReadMembersIs(c, name, es, s);
    var named, key, pos := MemberTurnCases(c, name, es, s);
    ObjGood(es, h);
    var turn := MemberTurn(c, name, es, s);
    if named {
      MemberRestCases(c, key, es, s.(pos := pos));
      var s1 := s.(pos := JsonScanner.Scan(c.document, pos).end);
      var r := ReadValue(c, MemberOrNull(es, key), s1);
      Outcomes(r, s.depth);
      if s1.pos > pos && r.Done? && r.ok {
        ReadGood(c, MemberOrNull(es, key), s1);
        var es' := Put(es, Name(key), r.value);
        NamesLike(es, key);
        PutSorted(es, Name(key), r.value);
        NamesLike(es', key);
        GrowPut(es, Name(key), r.value, h);
        ObjGood(es', h);
        if turn.More? {
          MembersGood(c, turn.name, es', turn.state);
        }
      }
    }
  }

  // ---------------------------------------------------------------------------
  // Canonical values are the fixed points of writing and reading
  // ---------------------------------------------------------------------------

  lemma CountedValid(es: seq<Entry>)
    requires Counted(es, |es|)
    ensures Sorted(es) && AllIndex(es) && JsonArrays.SizeOf(es) == |es|
    ensures forall k: nat :: k < |es| ==> JsonArrays.Slot(es, k) == es[k].value
  {
    forall k: nat | k < |es| ensures JsonArrays.Slot(es, k) == es[k].value {
      FindAt(es, k);
    }
  }

  lemma {:induction false} CanonicalValid(v: Value)
    requires Canonical(v)
    ensures Valid(v)
    decreases v
  {
    if v.Arr? {
      CountedValid(v.entries);
      CanonicalMapValid(v.entries);
    } else if v.Obj? {
      CanonicalMapValid(v.entries);
    }
  }

  lemma {:induction false} CanonicalMapValid(es: seq<Entry>)
    requires CanonicalMap(es)
    ensures forall e <- es :: Valid(e.value)
    decreases es
  {
    if es != [] {
      assert es[0].value < es[0];
      CanonicalValid(es[0].value);
      CanonicalMapValid(es[1..]);
      hide Valid, Canonical;
      assert es == [es[0]] + es[1..];
    }
  }

  lemma {:induction false} CanonicalFixed(v: Value)
    requires Canonical(v)
    ensures Canon(v) == v
    decreases v
  {
    if v.Arr? {
      var es := v.entries;
      CountedValid(es);
      CanonicalItemsFixed(es, 0);
      assert es[0..] == es;
    } else if v.Obj? {
      CanonicalMembersFixed(v.entries);
    }
  }

  lemma {:induction false} CanonicalItemsFixed(es: seq<Entry>, index: nat)
    requires Counted(es, |es|) && CanonicalMap(es) && index <= |es|
    ensures CanonItems(es, index) == es[index..]
    decreases es, |es| - index
  {
    CountedValid(es);
    if index < |es| {
      CanonicalEntry(es, index);
      EntryBelow(es, index);
      CanonicalFixed(es[index].value);
      CanonicalItemsFixed(es, index + 1);
      hide Canonical, Canon, CanonicalMap;
      assert es[index..] == [es[index]] + es[index + 1..];
    }
  }

  lemma EntryBelow(es: seq<Entry>, i: nat)
    requires i < |es|
    ensures es decreases to es[i].value
  {
    assert es[i].value < es[i];
  }

  lemma {:induction false} CanonicalMembersFixed(es: seq<Entry>)
    requires CanonicalMap(es)
    ensures CanonMembers(es) == es
    decreases es
  {
    if es != [] {
      assert es[0].value < es[0];
      CanonicalFixed(es[0].value);
      CanonicalMembersFixed(es[1..]);
      assert es == [es[0]] + es[1..];
    }
  }

  /** A canonical value without reals is plain: there are no null string pointers in it. */
  lemma {:induction false} CanonicalPlain(v: Value)
    requires Canonical(v) && NoReal(v)
    ensures Plain(v)
    decreases v
  {
    if v.Arr? || v.Obj? {
      CanonicalPlainMap(v.entries);
    }
  }

  lemma {:induction false} CanonicalPlainMap(es: seq<Entry>)
    requires CanonicalMap(es) && NoRealMap(es)
    ensures PlainMap(es)
    decreases es
  {
    if es != [] {
      assert es[0].value < es[0];
      CanonicalPlain(es[0].value);
      CanonicalPlainMap(es[1..]);
    }
  }

  // ---------------------------------------------------------------------------
  // Canon keeps the text, and keeps null string pointers
  // ---------------------------------------------------------------------------

  lemma {:induction false} CanonItemsAt(es: seq<Entry>, index: nat, k: nat)
    requires index <= JsonArrays.SizeOf(es)
    ensures |CanonItems(es, index)| == JsonArrays.SizeOf(es) - index
    ensures index <= k < JsonArrays.SizeOf(es) ==>
              CanonItems(es, index)[k - index] == Entry(Index(k), Canon(JsonArrays.Slot(es, k)))
    decreases JsonArrays.SizeOf(es) - index
  {
    hide Canon, JsonArrays.Slot;
    if index < JsonArrays.SizeOf(es) {
      CanonItemsAt(es, index + 1, k);
    }
  }

  lemma CanonItemsCounted(es: seq<Entry>)
    ensures var cs := CanonItems(es, 0);
            && Counted(cs, |cs|) && JsonArrays.SizeOf(cs) == |cs| == JsonArrays.SizeOf(es)
            && forall k: nat :: k < |cs| ==> JsonArrays.Slot(cs, k) == Canon(JsonArrays.Slot(es, k))
  {
    var cs := CanonItems(es, 0);
    forall k: nat ensures |cs| == JsonArrays.SizeOf(es) && (k < |cs| ==> cs[k] == Entry(Index(k), Canon(JsonArrays.Slot(es, k)))) {
      CanonItemsAt(es, 0, k);
    }
    hide CanonItems, Canon, JsonArrays.Slot;
    CountedValid(cs);
  }

  /** Writing the value that came back gives the identical text. */
  lemma {:induction false} CanonSameTree(v: Value, realText: RealText)
    ensures TreeOf(Canon(v), realText) == TreeOf(v, realText)
    decreases ValueHeight(v), 0, 0
  {
    match v {
      case Arr(es) =>
        CanonItemsCounted(es);
        CanonItemsSameTree(es, 0, realText);
      case Obj(es) => CanonMembersSameTree(es, realText);
      case _ =>
    }
    hide NumeralOf, JsonNumbers.Decimal;
  }

  lemma {:induction false} CanonItemsSameTree(es: seq<Entry>, index: nat, realText: RealText)
    ensures ItemsOf(CanonItems(es, 0), index, realText) == ItemsOf(es, index, realText)
    decreases MapHeight(es), 1, JsonArrays.SizeOf(es) - index
  {
    hide *;
    CanonItemsCounted(es);
    ItemsOfUnfold(es, index, realText);
    ItemsOfUnfold(CanonItems(es, 0), index, realText);
    if index < JsonArrays.SizeOf(es) {
      SlotHeight(es, index);
      CanonSameTree(JsonArrays.Slot(es, index), realText);
      CanonItemsSameTree(es, index + 1, realText);
    }
  }

  lemma ItemsOfUnfold(es: seq<Entry>, index: nat, realText: RealText)
    ensures index >= JsonArrays.SizeOf(es) ==> ItemsOf(es, index, realText) == []
    ensures index < JsonArrays.SizeOf(es) ==>
              ItemsOf(es, index, realText) ==
              [Item("", TreeOf(JsonArrays.Slot(es, index), realText), "")] + ItemsOf(es, index + 1, realText)
  {
    hide TreeOf, JsonArrays.Slot, JsonArrays.SizeOf;
  }

  lemma {:induction false} CanonMembersSameTree(es: seq<Entry>, realText: RealText)
    ensures MembersOf(CanonMembers(es), realText) == MembersOf(es, realText)
    decreases MapHeight(es), 1, |es|
  {
    if es != [] {
      CanonSameTree(es[0].value, realText);
      CanonMembersSameTree(es[1..], realText);
      hide Canon, TreeOf;
      assert CanonMembers(es)[1..] == CanonMembers(es[1..]);
    }
  }

  lemma {:induction false} PlainFromEntries(es: seq<Entry>)
    requires forall i :: 0 <= i < |es| ==> Plain(es[i].value)
    ensures PlainMap(es)
  {
    if es != [] {
      assert forall i :: 0 <= i < |es[1..]| ==> es[1..][i] == es[i + 1];
      PlainFromEntries(es[1..]);
    }
  }

  lemma {:induction false} NoRealEntry(es: seq<Entry>, i: nat)
    requires NoRealMap(es) && i < |es|
    ensures NoReal(es[i].value)
  {
    if i > 0 {
      NoRealEntry(es[1..], i - 1);
    }
  }

  lemma {:induction false} CanonMembersAt(es: seq<Entry>, i: nat)
    requires i < |es|
    ensures |CanonMembers(es)| == |es| && CanonMembers(es)[i] == Entry(es[i].key, Canon(es[i].value))
  {
    hide Canon;
    if i > 0 {
      CanonMembersAt(es[1..], i - 1);
    } else if |es| > 1 {
      CanonMembersAt(es[1..], 0);
    }
  }

  /** A null string pointer in v leaves Canon(v) outside the canonical values. */
  lemma {:induction false} CanonicalCanonPlain(v: Value)
    requires Valid(v) && NoReal(v) && Canonical(Canon(v))
    ensures Plain(v)
    decreases v
  {
    if v.Arr? || v.Obj? {
      var es := v.entries;
      forall j | 0 <= j < |es| ensures Plain(es[j].value) {
        CanonicalCanonEntry(v, j);
        NoRealEntry(es, j);
        assert es[j] in es;
        EntryBelow(es, j);
        CanonicalCanonPlain(es[j].value);
      }
      PlainFromEntries(es);
    }
  }

  lemma CanonicalCanonEntry(v: Value, j: nat)
    requires Valid(v) && (v.Arr? || v.Obj?) && j < |v.entries| && Canonical(Canon(v))
    ensures Canonical(Canon(v.entries[j].value))
  {
    var es := v.entries;
    if v.Arr? {
      var k := es[j].key.i;
      FindAt(es, j);
      JsonArrays.FindBelowSize(es, k);
      SlotFound(es, k);
      CanonItemsAt(es, 0, k);
      CanonicalEntry(CanonItems(es, 0), k);
    } else {
      CanonMembersAt(es, j);
      CanonicalEntry(CanonMembers(es), j);
    }
  }
}
