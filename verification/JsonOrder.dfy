/**
 `Value::operator<` and `Value::operator==` are a strict total order and its equality on all
 valid nested values.
 */
module JsonOrder {
  import opened JsonValues

  /** The numbering of ValueType. */
  function TypeCode(v: Value): int {
    match v
    case Null => 0
    case Int(_) => 1
    case UInt(_) => 2
    case Real(_) => 3
    case NoString => 4
    case Str(_) => 4
    case Bool(_) => 5
    case Arr(_) => 6
    case Obj(_) => 7
  }

  // Number of nodes: two values are compared in either order, so recursion follows their sum.

  ghost function Size(v: Value): (n: nat)
    ensures n > 0
  {
    match v
    case Arr(es) => 1 + MapSize(es)
    case Obj(es) => 1 + MapSize(es)
    case _ => 1
  }

  ghost function MapSize(es: seq<Entry>): nat {
    if es == [] then 0
    else
      assert es[0].value < es[0];
      Size(es[0].value) + MapSize(es[1..])
  }

  predicate Less(a: Value, b: Value)
    decreases Size(a) + Size(b), 0
  {
    var typeDelta := TypeCode(a) - TypeCode(b);
    if typeDelta != 0 then typeDelta < 0
    else
      match a
      case Null => false
      case Int(i) => i < b.i
      case UInt(u) => u < b.u
      case Real(r) => r < b.r
      case NoString => b.Str?
      case Str(s) => b.Str? && StringLess(s, b.s)
      case Bool(x) => !x && b.b
      case Arr(es) =>
        var delta := |es| - |b.entries|;
        if delta != 0 then delta < 0 else MapLess(es, b.entries)
      case Obj(es) =>
        var delta := |es| - |b.entries|;
        if delta != 0 then delta < 0 else MapLess(es, b.entries)
  }

  /** std::pair's operator<. */
  predicate EntryLess(p: Entry, q: Entry)
    decreases Size(p.value) + Size(q.value), 1
  {
    KeyLess(p.key, q.key) || (!KeyLess(q.key, p.key) && Less(p.value, q.value))
  }

  /** std::map's operator<: lexicographical_compare over the entries. */
  predicate MapLess(p: seq<Entry>, q: seq<Entry>)
    decreases MapSize(p) + MapSize(q), 2
  {
    if q == [] then false
    else if p == [] then true
    else if EntryLess(p[0], q[0]) then true
    else if EntryLess(q[0], p[0]) then false
    else MapLess(p[1..], q[1..])
  }

  predicate Equal(a: Value, b: Value)
    decreases a
  {
    TypeCode(a) == TypeCode(b) &&
    match a
    case Null => true
    case Int(i) => i == b.i
    case UInt(u) => u == b.u
    case Real(r) => r == b.r
    case NoString => b.NoString?
    case Str(s) => b.Str? && |s| == |b.s| && MemCmp(s, b.s, |s|) == 0
    case Bool(x) => x == b.b
    case Arr(es) => |es| == |b.entries| && MapEqual(es, b.entries)
    case Obj(es) => |es| == |b.entries| && MapEqual(es, b.entries)
  }

  /** CZString::operator==. */
  predicate KeyEqual(a: Key, b: Key) {
    match (a, b)
    case (Index(i), Index(j)) => i == j
    case (Name(s), Name(t)) => |s| == |t| && MemCmp(s, t, |s|) == 0
    case _ => false
  }

  predicate MapEqual(p: seq<Entry>, q: seq<Entry>)
    requires |p| == |q|
    decreases p
  {
    p == [] ||
    (assert p[0].value < p[0];
     KeyEqual(p[0].key, q[0].key) && Equal(p[0].value, q[0].value) && MapEqual(p[1..], q[1..]))
  }

  // ---------------------------------------------------------------------------
  // operator== is equality of the stored data
  // ---------------------------------------------------------------------------

  lemma {:induction false} MemCmpEqual(a: string, b: string)
    requires |a| == |b|
    ensures MemCmp(a, b, |a|) == 0 <==> a == b
  {
    if a != [] && a[0] == b[0] {
      MemCmpEqual(a[1..], b[1..]);
      assert a == [a[0]] + a[1..] && b == [b[0]] + b[1..];
    }
  }

  lemma {:induction false} EqualIsIdentity(a: Value, b: Value)
    ensures Equal(a, b) <==> a == b
    decreases a
  {
    if a.Str? && b.Str? && |a.s| == |b.s| {
      MemCmpEqual(a.s, b.s);
    } else if ((a.Arr? && b.Arr?) || (a.Obj? && b.Obj?)) && |a.entries| == |b.entries| {
      MapEqualIsIdentity(a.entries, b.entries);
    }
  }

  lemma {:induction false} MapEqualIsIdentity(p: seq<Entry>, q: seq<Entry>)
    requires |p| == |q|
    ensures MapEqual(p, q) <==> p == q
    decreases p
  {
    if p != [] {
      if p[0].key.Name? && q[0].key.Name? && |p[0].key.s| == |q[0].key.s| {
        MemCmpEqual(p[0].key.s, q[0].key.s);
      }
      assert p[0].value < p[0];
      EqualIsIdentity(p[0].value, q[0].value);
      MapEqualIsIdentity(p[1..], q[1..]);
      assert p == [p[0]] + p[1..] && q == [q[0]] + q[1..];
    }
  }

  // ---------------------------------------------------------------------------
  // operator< is a strict total order
  // ---------------------------------------------------------------------------

  /** All keys of both maps are of one kind. */
  ghost predicate Comparable(p: seq<Entry>, q: seq<Entry>) {
    (AllIndex(p) && AllIndex(q)) || (AllName(p) && AllName(q))
  }

  ghost predicate AllValid(p: seq<Entry>) {
    forall e <- p :: Valid(e.value)
  }

  /** Exactly one of a < b, a == b and b < a holds. */
  lemma {:induction false} Trichotomy(a: Value, b: Value)
    requires Valid(a) && Valid(b)
    ensures Equal(a, b) <==> !Less(a, b) && !Less(b, a)
    ensures !(Less(a, b) && Less(b, a))
    decreases Size(a) + Size(b), 0
  {
    EqualIsIdentity(a, b);
    if a.Str? && b.Str? {
      StringTrichotomy(a.s, b.s);
    } else if ((a.Arr? && b.Arr?) || (a.Obj? && b.Obj?)) && |a.entries| == |b.entries| {
      MapTrichotomy(a.entries, b.entries);
    }
  }

  lemma {:induction false} EntryTrichotomy(p: Entry, q: Entry)
    requires Valid(p.value) && Valid(q.value) && SameKind(p.key, q.key)
    ensures p == q <==> !EntryLess(p, q) && !EntryLess(q, p)
    ensures !(EntryLess(p, q) && EntryLess(q, p))
    decreases Size(p.value) + Size(q.value), 1
  {
    KeyTrichotomy(p.key, q.key);
    Trichotomy(p.value, q.value);
    EqualIsIdentity(p.value, q.value);
  }

  lemma {:induction false} MapTrichotomy(p: seq<Entry>, q: seq<Entry>)
    requires |p| == |q| && Comparable(p, q) && AllValid(p) && AllValid(q)
    ensures p == q <==> !MapLess(p, q) && !MapLess(q, p)
    ensures !(MapLess(p, q) && MapLess(q, p))
    decreases MapSize(p) + MapSize(q), 2
  {
    if p != [] {
      EntryTrichotomy(p[0], q[0]);
      MapTrichotomy(p[1..], q[1..]);
      assert p == [p[0]] + p[1..] && q == [q[0]] + q[1..];
    }
  }

  lemma {:induction false} Transitive(a: Value, b: Value, c: Value)
    requires Valid(a) && Valid(b) && Valid(c)
    requires Less(a, b) && Less(b, c)
    ensures Less(a, c)
    decreases Size(a), 0
  {
    if a.Str? && b.Str? && c.Str? {
      StringTransitive(a.s, b.s, c.s);
    } else if (a.Arr? && b.Arr? && c.Arr?) || (a.Obj? && b.Obj? && c.Obj?) {
      if |a.entries| == |b.entries| == |c.entries| {
        MapTransitive(a.entries, b.entries, c.entries);
      }
    }
  }

  lemma {:induction false} EntryTransitive(p: Entry, q: Entry, r: Entry)
    requires Valid(p.value) && Valid(q.value) && Valid(r.value)
    requires SameKind(p.key, q.key) && SameKind(q.key, r.key)
    requires EntryLess(p, q) && EntryLess(q, r)
    ensures EntryLess(p, r)
    decreases Size(p.value), 1
  {
    KeyTrichotomy(p.key, q.key);
    KeyTrichotomy(q.key, r.key);
    if KeyLess(p.key, q.key) && KeyLess(q.key, r.key) {
      KeyTransitive(p.key, q.key, r.key);
    } else if p.key == q.key == r.key {
      Transitive(p.value, q.value, r.value);
    }
  }

  lemma {:induction false} MapTransitive(p: seq<Entry>, q: seq<Entry>, r: seq<Entry>)
    requires |p| == |q| == |r| && Comparable(p, q) && Comparable(q, r)
    requires AllValid(p) && AllValid(q) && AllValid(r)
    requires MapLess(p, q) && MapLess(q, r)
    ensures MapLess(p, r)
    decreases MapSize(p), 2
  {
    EntryTrichotomy(p[0], q[0]);
    EntryTrichotomy(q[0], r[0]);
    EntryTrichotomy(p[0], r[0]);
    if EntryLess(p[0], q[0]) && EntryLess(q[0], r[0]) {
      EntryTransitive(p[0], q[0], r[0]);
    } else if p[0] == q[0] == r[0] {
      MapTransitive(p[1..], q[1..], r[1..]);
    }
  }

  // ---------------------------------------------------------------------------
  // Which way the order goes
  // ---------------------------------------------------------------------------

  /** Null, signed, unsigned, real, string, boolean, array, object, in this order. */
  lemma TypesInOrder(a: Value, b: Value)
    ensures a.Null? && !b.Null? ==> Less(a, b)
    ensures a.Int? && (b.UInt? || b.Real? || b.NoString? || b.Str? || b.Bool? || b.Arr? || b.Obj?) ==> Less(a, b)
    ensures a.UInt? && (b.Real? || b.NoString? || b.Str? || b.Bool? || b.Arr? || b.Obj?) ==> Less(a, b)
    ensures a.Real? && (b.NoString? || b.Str? || b.Bool? || b.Arr? || b.Obj?) ==> Less(a, b)
    ensures (a.NoString? || a.Str?) && (b.Bool? || b.Arr? || b.Obj?) ==> Less(a, b)
    ensures a.Bool? && (b.Arr? || b.Obj?) ==> Less(a, b)
    ensures a.Arr? && b.Obj? ==> Less(a, b)
  {
  }

  /** Numbers by size, strings as dictionaries have them, a null pointer before any string, false
      before true. */
  lemma ScalarsInOrder(a: Value, b: Value)
    ensures a.Int? && b.Int? ==> (Less(a, b) <==> a.i < b.i)
    ensures a.UInt? && b.UInt? ==> (Less(a, b) <==> a.u < b.u)
    ensures a.Real? && b.Real? ==> (Less(a, b) <==> a.r < b.r)
    ensures a.Str? && b.Str? ==> (Less(a, b) <==> Before(a.s, b.s))
    ensures a.NoString? && b.Str? ==> Less(a, b)
    ensures a.Bool? && b.Bool? ==> (Less(a, b) <==> a == Bool(false) && b == Bool(true))
  {
    if a.Str? && b.Str? {
      StringLessIs(a.s, b.s);
      hide StringLess, Before;
    }
  }

  ghost predicate KeyBefore(a: Key, b: Key) {
    (a.Index? && b.Index? && a.i < b.i) || (a.Name? && b.Name? && Before(a.s, b.s))
  }

  /** At entry k the maps differ for the first time, in the key or else in the value, and p has the
      smaller. */
  ghost predicate EntrySmallerAt(p: seq<Entry>, q: seq<Entry>, k: nat) {
    && k < |p| && k < |q| && p[..k] == q[..k]
    && (KeyBefore(p[k].key, q[k].key) || (p[k].key == q[k].key && Less(p[k].value, q[k].value)))
  }

  lemma KeyLessIs(a: Key, b: Key)
    ensures KeyLess(a, b) <==> KeyBefore(a, b)
  {
    if a.Name? && b.Name? {
      StringLessIs(a.s, b.s);
    }
    hide StringLess, Before;
  }

  lemma EntryLessIs(p: Entry, q: Entry)
    requires SameKind(p.key, q.key)
    ensures EntryLess(p, q) <==> KeyBefore(p.key, q.key) || (p.key == q.key && Less(p.value, q.value))
  {
    KeyLessIs(p.key, q.key);
    KeyTrichotomy(p.key, q.key);
    hide KeyLess, KeyBefore, Less;
  }

  lemma EntryLater(p: seq<Entry>, q: seq<Entry>, k: nat)
    requires p != [] && q != [] && p[0] == q[0]
    requires !KeyBefore(p[0].key, q[0].key) && !Less(p[0].value, q[0].value)
    ensures EntrySmallerAt(p, q, k) <==> k > 0 && EntrySmallerAt(p[1..], q[1..], k - 1)
  {
    hide KeyBefore, Less;
    if 0 < k < |p| && k < |q| {
      assert p[..k] == [p[0]] + p[1..][..k - 1] && q[..k] == [q[0]] + q[1..][..k - 1];
      assert p[1..][..k - 1] == p[..k][1..] && q[1..][..k - 1] == q[..k][1..];
    }
  }

  lemma {:induction false} MapLessIs(p: seq<Entry>, q: seq<Entry>)
    requires |p| == |q| && Comparable(p, q) && AllValid(p) && AllValid(q)
    ensures MapLess(p, q) <==> exists k: nat :: EntrySmallerAt(p, q, k)
    decreases |p|
  {
    if p != [] {
      EntryTrichotomy(p[0], q[0]);
      EntryLessIs(p[0], q[0]);
      EntryLessIs(q[0], p[0]);
      if p[0] == q[0] {
        MapLessIs(p[1..], q[1..]);
        forall k: nat ensures EntrySmallerAt(p, q, k) <==> k > 0 && EntrySmallerAt(p[1..], q[1..], k - 1) {
          EntryLater(p, q, k);
        }
        hide EntrySmallerAt, EntryLess, KeyBefore, Less, Comparable;
        if k: nat :| EntrySmallerAt(p[1..], q[1..], k) {
          assert EntrySmallerAt(p, q, k + 1);
        }
      } else {
        hide EntryLess, KeyBefore, Less;
        assert EntrySmallerAt(p, q, 0) <==> EntryLess(p[0], q[0]);
        forall k: nat ensures k > 0 ==> !EntrySmallerAt(p, q, k) {
          assert k > 0 && k < |p| && k < |q| ==> p[..k][0] == p[0] && q[..k][0] == q[0];
        }
      }
    }
  }

  /** Containers by size first, then by the first entry in which they differ: its key, or else its
      value. */
  lemma ContainersInOrder(a: Value, b: Value)
    requires Valid(a) && Valid(b) && ((a.Arr? && b.Arr?) || (a.Obj? && b.Obj?))
    ensures Less(a, b) <==>
            |a.entries| < |b.entries| || (|a.entries| == |b.entries| && exists k: nat :: EntrySmallerAt(a.entries, b.entries, k))
  {
    if |a.entries| == |b.entries| {
      MapLessIs(a.entries, b.entries);
    }
    hide MapLess, EntrySmallerAt;
  }
}
