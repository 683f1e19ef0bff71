/**
 The value store of lib/jsoncpp: `Json::Value`, its map keys (`CZString`) and the ordered
 map both arrays and objects are held in.

 A `std::map` is seen through its iterators only, so it is modelled as the strictly
 increasing sequence of its entries.  A byte is a `char` below 256; nothing below depends on
 that bound, so every statement holds for wider characters too.
 */
module JsonValues {

  datatype Option<+T> = None | Some(value: T)

  /** Value::LargestInt and Value::LargestUInt are 64 bits wide. */
  type Int64 = i: int | -0x8000_0000_0000_0000 <= i < 0x8000_0000_0000_0000
  type UInt64 = u: int | 0 <= u < 0x1_0000_0000_0000_0000

  /** A CZString holds an array index (null cstr_) or a member name. */
  datatype Key = Index(i: nat) | Name(s: string)

  datatype Entry = Entry(key: Key, value: Value)

  /** One constructor for each ValueType.  `NoString` is the stringValue whose pointer is
      null, which is what `Value(stringValue)` builds. */
  datatype Value =
    | Null
    | Int(i: Int64)
    | UInt(u: UInt64)
    | Real(r: real)
    | NoString
    | Str(s: string)
    | Bool(b: bool)
    | Arr(entries: seq<Entry>)
    | Obj(entries: seq<Entry>)

  /** memcmp over the first n bytes: negative, zero or positive. */
  function MemCmp(a: string, b: string, n: nat): int
    requires n <= |a| && n <= |b|
  {
    if n == 0 then 0
    else if a[0] < b[0] then -1
    else if a[0] > b[0] then 1
    else MemCmp(a[1..], b[1..], n - 1)
  }

  /** Byte strings are compared over their common length first, then by length. */
  predicate StringLess(a: string, b: string) {
    var minLen := if |a| < |b| then |a| else |b|;
    var comp := MemCmp(a, b, minLen);
    if comp < 0 then true
    else if comp > 0 then false
    else |a| < |b|
  }

  /** CZString::operator<; keys of both kinds never meet in one map. */
  predicate KeyLess(a: Key, b: Key) {
    match (a, b)
    case (Index(i), Index(j)) => i < j
    case (Name(s), Name(t)) => StringLess(s, t)
    case _ => false
  }

  /** The keys of a map: all indices for an array, all names for an object, increasing. */
  ghost predicate Sorted(es: seq<Entry>) {
    forall i, j :: 0 <= i < j < |es| ==> KeyLess(es[i].key, es[j].key)
  }

  ghost predicate AllIndex(es: seq<Entry>) {
    forall i :: 0 <= i < |es| ==> es[i].key.Index?
  }

  ghost predicate AllName(es: seq<Entry>) {
    forall i :: 0 <= i < |es| ==> es[i].key.Name?
  }

  /** What every value built through the interface of Json::Value satisfies. */
  ghost predicate Valid(v: Value) {
    match v
    case Arr(es) => Sorted(es) && AllIndex(es) && forall e <- es :: Valid(e.value)
    case Obj(es) => Sorted(es) && AllName(es) && forall e <- es :: Valid(e.value)
    case _ => true
  }

  // ---------------------------------------------------------------------------
  // The order on keys is a strict total order
  // ---------------------------------------------------------------------------

  lemma {:induction false} StringTrichotomy(a: string, b: string)
    ensures a == b <==> !StringLess(a, b) && !StringLess(b, a)
    ensures !(StringLess(a, b) && StringLess(b, a))
  {
    if a != [] && b != [] && a[0] == b[0] {
      StringTrichotomy(a[1..], b[1..]);
      assert a == [a[0]] + a[1..] && b == [b[0]] + b[1..];
    }
  }

  lemma {:induction false} StringTransitive(a: string, b: string, c: string)
    requires StringLess(a, b) && StringLess(b, c)
    ensures StringLess(a, c)
  {
    if a != [] && b != [] && c != [] && a[0] == b[0] == c[0] {
      StringTransitive(a[1..], b[1..], c[1..]);
    }
  }

  /** At position k the strings differ for the first time, and a has the smaller byte. */
  ghost predicate SmallerAt(a: string, b: string, k: nat) {
    k < |a| && k < |b| && a[..k] == b[..k] && a[k] < b[k]
  }

  /** Dictionary order: a is a proper beginning of b, or has the smaller byte where they differ first. */
  ghost predicate Before(a: string, b: string) {
    (|a| < |b| && a == b[..|a|]) || exists k: nat :: SmallerAt(a, b, k)
  }

  lemma {:induction false} FirstDifference(a: string, b: string, n: nat)
    requires n <= |a| && n <= |b|
    ensures MemCmp(a, b, n) == 0 <==> a[..n] == b[..n]
    ensures MemCmp(a, b, n) < 0 <==> exists k: nat :: k < n && SmallerAt(a, b, k)
    decreases n
  {
    if n > 0 {
      var x, y := a[1..], b[1..];
      assert a == [a[0]] + x && b == [b[0]] + y;
      if a[0] == b[0] {
        FirstDifference(x, y, n - 1);
        assert a[..n] == [a[0]] + x[..n - 1] && b[..n] == [b[0]] + y[..n - 1];
        assert x[..n - 1] == a[..n][1..] && y[..n - 1] == b[..n][1..];
        forall k: nat | k < n ensures SmallerAt(a, b, k) <==> k > 0 && SmallerAt(x, y, k - 1) {
          SmallerLater(a, b, k);
        }
        hide SmallerAt;
        if k: nat :| k < n - 1 && SmallerAt(x, y, k) {
          assert SmallerAt(a, b, k + 1);
        }
      } else {
        assert a[..n][0] == a[0] && b[..n][0] == b[0];
        assert SmallerAt(a, b, 0) <==> a[0] < b[0];
        forall k: nat | 0 < k < n ensures !SmallerAt(a, b, k) {
          assert k < |a| && k < |b| ==> a[..k][0] == a[0] && b[..k][0] == b[0];
        }
      }
    }
  }

  lemma SmallerLater(a: string, b: string, k: nat)
    requires a != [] && b != [] && a[0] == b[0]
    ensures SmallerAt(a, b, k) <==> k > 0 && SmallerAt(a[1..], b[1..], k - 1)
  {
    if 0 < k < |a| && k < |b| {
      assert a[..k] == [a[0]] + a[1..][..k - 1] && b[..k] == [b[0]] + b[1..][..k - 1];
      assert a[1..][..k - 1] == a[..k][1..] && b[1..][..k - 1] == b[..k][1..];
    }
  }

  /** Names and string values are in dictionary order. */
  lemma StringLessIs(a: string, b: string)
    ensures StringLess(a, b) <==> Before(a, b)
  {
    var n := if |a| < |b| then |a| else |b|;
    FirstDifference(a, b, n);
    assert a[..|a|] == a && b[..|b|] == b;
    hide MemCmp;
    forall k: nat ensures SmallerAt(a, b, k) ==> k < n && a[..n] != b[..n] {
      if SmallerAt(a, b, k) {
        assert a[..n][k] == a[k] && b[..n][k] == b[k];
      }
    }
  }

  /** In every object of v, however deep, the member names stand in dictionary order. */
  ghost predicate NamesInOrder(v: Value) {
    match v
    case Arr(es) => forall e <- es :: NamesInOrder(e.value)
    case Obj(es) =>
      && (forall e <- es :: e.key.Name? && NamesInOrder(e.value))
      && forall i, j :: 0 <= i < j < |es| && es[i].key.Name? && es[j].key.Name? ==> Before(es[i].key.s, es[j].key.s)
    case _ => true
  }

  lemma {:induction false} ValidInOrder(v: Value)
    requires Valid(v)
    ensures NamesInOrder(v)
    decreases v
  {
    if v.Arr? || v.Obj? {
      forall e | e in v.entries ensures NamesInOrder(e.value) {
        ValidInOrder(e.value);
      }
    }
    if v.Obj? {
      NamesOfObject(v.entries);
      hide Before, NamesInOrder;
    }
  }

  lemma NamesOfObject(es: seq<Entry>)
    requires Sorted(es) && AllName(es)
    ensures forall e <- es :: e.key.Name?
    ensures forall i, j :: 0 <= i < j < |es| ==> es[i].key.Name? && es[j].key.Name? && Before(es[i].key.s, es[j].key.s)
  {
    forall i, j | 0 <= i < j < |es| ensures es[i].key.Name? && es[j].key.Name? && Before(es[i].key.s, es[j].key.s) {
      assert KeyLess(es[i].key, es[j].key);
      StringLessIs(es[i].key.s, es[j].key.s);
      hide StringLess, Before;
    }
  }

  predicate SameKind(a: Key, b: Key) {
    a.Index? <==> b.Index?
  }

  lemma KeyTrichotomy(a: Key, b: Key)
    requires SameKind(a, b)
    ensures a == b <==> !KeyLess(a, b) && !KeyLess(b, a)
    ensures !(KeyLess(a, b) && KeyLess(b, a))
  {
    if a.Name? {
      StringTrichotomy(a.s, b.s);
    }
  }

  lemma KeyTransitive(a: Key, b: Key, c: Key)
    requires KeyLess(a, b) && KeyLess(b, c)
    ensures KeyLess(a, c)
  {
    if a.Name? {
      StringTransitive(a.s, b.s, c.s);
    }
  }

  // ---------------------------------------------------------------------------
  // The ordered map
  // ---------------------------------------------------------------------------

  /** std::map::lower_bound: how many leading keys are less than k. */
  function LowerBound(es: seq<Entry>, k: Key): (n: nat)
    ensures n <= |es|
    ensures forall i :: 0 <= i < n ==> KeyLess(es[i].key, k)
    ensures n < |es| ==> !KeyLess(es[n].key, k)
  {
    if es != [] && KeyLess(es[0].key, k) then 1 + LowerBound(es[1..], k) else 0
  }

  /** std::map::find. */
  function Find(es: seq<Entry>, k: Key): (r: Option<Value>)
    ensures r.Some? ==> exists i :: 0 <= i < |es| && es[i] == Entry(k, r.value)
  {
    var n := LowerBound(es, k);
    if n < |es| && es[n].key == k then Some(es[n].value) else None
  }

  /** Insert or overwrite: what `map[k] = v` does. */
  function Put(es: seq<Entry>, k: Key, v: Value): seq<Entry> {
    var n := LowerBound(es, k);
    if n < |es| && es[n].key == k then es[n := Entry(k, v)] else es[..n] + [Entry(k, v)] + es[n..]
  }

  /** std::map::erase by key. */
  function Erase(es: seq<Entry>, k: Key): seq<Entry> {
    var n := LowerBound(es, k);
    if n < |es| && es[n].key == k then es[..n] + es[n + 1..] else es
  }

  /** All keys are of the kind of k. */
  ghost predicate KeysLike(es: seq<Entry>, k: Key) {
    forall i :: 0 <= i < |es| ==> SameKind(es[i].key, k)
  }

  /** In a sorted map, find sees an entry at any position it stands. */
  lemma FindAt(es: seq<Entry>, j: nat)
    requires Sorted(es) && j < |es| && KeysLike(es, es[j].key)
    ensures LowerBound(es, es[j].key) == j
    ensures Find(es, es[j].key) == Some(es[j].value)
  {
    if j < LowerBound(es, es[j].key) {
      KeyTrichotomy(es[j].key, es[j].key);
    }
  }

  lemma FindMissing(es: seq<Entry>, k: Key)
    requires forall i :: 0 <= i < |es| ==> es[i].key != k
    ensures Find(es, k) == None
  {
  }

  lemma PutSorted(es: seq<Entry>, k: Key, v: Value)
    requires Sorted(es) && KeysLike(es, k)
    ensures Sorted(Put(es, k, v)) && KeysLike(Put(es, k, v), k)
  {
    var n := LowerBound(es, k);
    var ps := Put(es, k, v);
    if !(n < |es| && es[n].key == k) {
      if n < |es| {
        KeyTrichotomy(es[n].key, k);
      }
      forall i, j | 0 <= i < j < |ps| ensures KeyLess(ps[i].key, ps[j].key) {
        if i == n && n + 1 < j {
          KeyTransitive(k, es[n].key, es[j - 1].key);
        }
      }
    }
  }

  lemma PutFind(es: seq<Entry>, k: Key, v: Value, q: Key)
    requires Sorted(es) && KeysLike(es, k) && SameKind(k, q)
    ensures Find(Put(es, k, v), q) == if q == k then Some(v) else Find(es, q)
  {
    PutSorted(es, k, v);
    var ps := Put(es, k, v);
    if q == k {
      FindAt(ps, LowerBound(es, k));
    } else if i :| 0 <= i < |es| && es[i].key == q {
      FindAt(es, i);
      FindAt(ps, PutIndex(es, k, v, i));
    } else {
      FindMissing(es, q);
      FindMissing(ps, q);
    }
  }

  /** Where the entry at i stands after a Put under another key. */
  ghost function PutIndex(es: seq<Entry>, k: Key, v: Value, i: nat): (j: nat)
    requires i < |es| && es[i].key != k
    ensures j < |Put(es, k, v)| && Put(es, k, v)[j] == es[i]
  {
    var n := LowerBound(es, k);
    if i < n || (n < |es| && es[n].key == k) then i else i + 1
  }

  lemma EraseSorted(es: seq<Entry>, k: Key)
    requires Sorted(es) && KeysLike(es, k)
    ensures Sorted(Erase(es, k)) && KeysLike(Erase(es, k), k)
  {
  }

  lemma EraseFind(es: seq<Entry>, k: Key, q: Key)
    requires Sorted(es) && KeysLike(es, k) && SameKind(k, q)
    ensures Find(Erase(es, k), q) == if q == k then None else Find(es, q)
  {
    EraseSorted(es, k);
    if q == k {
      EraseAbsent(es, k);
    } else if i :| 0 <= i < |es| && es[i].key == q {
      FindAt(es, i);
      FindAt(Erase(es, k), EraseIndex(es, k, i));
    } else {
      FindMissing(es, q);
      FindMissing(Erase(es, k), q);
    }
  }

  /** Where the entry at i stands after an Erase of another key. */
  ghost function EraseIndex(es: seq<Entry>, k: Key, i: nat): (j: nat)
    requires i < |es| && es[i].key != k
    ensures j < |Erase(es, k)| && Erase(es, k)[j] == es[i]
  {
    hide LowerBound;
    var n := LowerBound(es, k);
    assert n < |es| && es[n].key == k && n < i ==> (es[..n] + es[n + 1..])[i - 1] == es[i];
    if i < n || n == |es| || es[n].key != k then i else i - 1
  }

  lemma EraseAbsent(es: seq<Entry>, k: Key)
    requires Sorted(es) && KeysLike(es, k)
    ensures Find(Erase(es, k), k) == None
  {
    KeyTrichotomy(k, k);
    var rs := Erase(es, k);
    if i :| 0 <= i < |rs| && rs[i].key == k {
      var j := if i < LowerBound(es, k) then i else if |rs| == |es| then i else i + 1;
      FindAt(es, j);
    } else {
      FindMissing(rs, k);
    }
  }
}
