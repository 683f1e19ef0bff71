/**
 A JSON array is an ordered map from indices to values in which slots may be missing.  It
 stands for the sequence up to its highest index with a null in every missing slot; this
 module proves what each in-place operation does to that sequence.
 */
module JsonArrays {
  import opened JsonValues

  /** An array's map: increasing indices. */
  ghost predicate IsArrayMap(es: seq<Entry>) {
    Sorted(es) && AllIndex(es)
  }

  /** Value::size of an array: the highest index plus one. */
  function SizeOf(es: seq<Entry>): nat {
    if es == [] || !es[|es| - 1].key.Index? then 0 else es[|es| - 1].key.i + 1
  }

  /** The const operator[]: a missing slot reads as null. */
  function Slot(es: seq<Entry>, index: nat): Value {
    match Find(es, Index(index))
    case Some(v) => v
    case None => Null
  }

  /** The slots that are present. */
  ghost function Slots(es: seq<Entry>): map<nat, Value> {
    map k: nat | k < SizeOf(es) && Find(es, Index(k)).Some? :: Find(es, Index(k)).value
  }

  /** A slot of m, null when missing. */
  ghost function Read(m: map<nat, Value>, k: nat): Value {
    if k in m then m[k] else Null
  }

  /** The sequence of length n with the present slots of m and nulls elsewhere. */
  ghost function Filled(m: map<nat, Value>, n: nat): (s: seq<Value>)
    ensures |s| == n
  {
    seq(n, k requires 0 <= k => Read(m, k))
  }

  /** The sequence an array stands for. */
  ghost function Dense(es: seq<Entry>): seq<Value> {
    Filled(Slots(es), SizeOf(es))
  }

  /** s with nulls added until it has at least n elements. */
  ghost function Padded(s: seq<Value>, n: nat): seq<Value> {
    if |s| < n then s + seq(n - |s|, _ => Null) else s
  }

  /** n is the least bound of the slots of m. */
  ghost predicate Bounds(m: map<nat, Value>, n: nat) {
    (n > 0 ==> n - 1 in m) && forall k <- m :: k < n
  }

  // ---------------------------------------------------------------------------
  // The map operations, seen through the slots
  // ---------------------------------------------------------------------------

  lemma FindBelowSize(es: seq<Entry>, index: nat)
    requires IsArrayMap(es) && Find(es, Index(index)).Some?
    ensures index < SizeOf(es)
  {
    var i :| 0 <= i < |es| && es[i].key == Index(index);
    assert i < |es| - 1 ==> KeyLess(es[i].key, es[|es| - 1].key);
  }

  lemma FindSlot(es: seq<Entry>, index: nat)
    requires IsArrayMap(es)
    ensures Find(es, Index(index)) == if index in Slots(es) then Some(Slots(es)[index]) else None
  {
    if Find(es, Index(index)).Some? {
      FindBelowSize(es, index);
    }
  }

  lemma SizeBounds(es: seq<Entry>)
    requires IsArrayMap(es)
    ensures Bounds(Slots(es), SizeOf(es))
  {
    if es != [] {
      FindAt(es, |es| - 1);
    }
  }

  lemma PutSlot(es: seq<Entry>, index: nat, v: Value, k: nat)
    requires IsArrayMap(es)
    ensures IsArrayMap(Put(es, Index(index), v))
    ensures k in Slots(Put(es, Index(index), v)) <==> k == index || k in Slots(es)
    ensures k in Slots(Put(es, Index(index), v)) ==>
              Slots(Put(es, Index(index), v))[k] == if k == index then v else Slots(es)[k]
  {
    PutSorted(es, Index(index), v);
    PutFind(es, Index(index), v, Index(k));
    hide Find, Put, Slots;
    FindSlot(es, k);
    FindSlot(Put(es, Index(index), v), k);
  }

  lemma SlotsPut(es: seq<Entry>, index: nat, v: Value)
    requires IsArrayMap(es)
    ensures IsArrayMap(Put(es, Index(index), v))
    ensures Slots(Put(es, Index(index), v)) == Slots(es)[index := v]
  {
    hide *;
    forall k: nat {
      PutSlot(es, index, v, k);
    }
    assert Slots(Put(es, Index(index), v)) == Slots(es)[index := v];
    PutSlot(es, index, v, index);
  }

  lemma EraseSlot(es: seq<Entry>, index: nat, k: nat)
    requires IsArrayMap(es)
    ensures IsArrayMap(Erase(es, Index(index)))
    ensures k in Slots(Erase(es, Index(index))) <==> k != index && k in Slots(es)
    ensures k in Slots(Erase(es, Index(index))) ==> Slots(Erase(es, Index(index)))[k] == Slots(es)[k]
  {
    EraseSorted(es, Index(index));
    EraseFind(es, Index(index), Index(k));
    hide Find, Erase, Slots;
    FindSlot(es, k);
    FindSlot(Erase(es, Index(index)), k);
  }

  lemma SlotsErase(es: seq<Entry>, index: nat)
    requires IsArrayMap(es)
    ensures IsArrayMap(Erase(es, Index(index)))
    ensures Slots(Erase(es, Index(index))) == Slots(es) - {index}
  {
    hide *;
    forall k: nat {
      EraseSlot(es, index, k);
    }
    assert Slots(Erase(es, Index(index))) == Slots(es) - {index};
    EraseSlot(es, index, index);
  }

  lemma EmptyArray()
    ensures IsArrayMap([]) && Slots([]) == map[] && SizeOf([]) == 0
  {
  }

  lemma FilledAssign(m: map<nat, Value>, n: nat, index: nat, v: Value, n': nat)
    requires Bounds(m, n) && Bounds(m[index := v], n')
    ensures Filled(m[index := v], n') == Padded(Filled(m, n), index + 1)[index := v]
  {
    assert index in m[index := v];
    assert n > 0 ==> n - 1 in m[index := v];
  }

  /** The slots outside lo .. hi. */
  ghost function Outside(m: map<nat, Value>, lo: nat, hi: nat): map<nat, Value> {
    map k | k in m && !(lo <= k < hi) :: m[k]
  }

  lemma FilledTake(m: map<nat, Value>, n: nat, newSize: nat, n': nat)
    requires Bounds(m, n) && newSize <= n && Bounds(Outside(m, newSize, n), n')
    ensures n' <= newSize
    ensures n' == newSize <==> newSize == 0 || newSize - 1 in m
    ensures n' == newSize <==> Filled(Outside(m, newSize, n), n') == Filled(m, n)[..newSize]
  {
    if newSize > 0 && newSize - 1 in m {
      assert newSize - 1 in Outside(m, newSize, n);
    }
  }

  /** Deleting slot `index` and moving the later ones down by one. */
  ghost function Closed(m: map<nat, Value>, index: nat, n: nat): map<nat, Value>
    requires index < n
  {
    map k: nat | k < n - 1 && (k in m || index <= k) :: if k < index then m[k] else Read(m, k + 1)
  }

  /** The slots when the loop of removeIndex has moved down those up to i. */
  ghost function Shifted(m: map<nat, Value>, n: nat, index: nat, i: nat): map<nat, Value> {
    map k: nat | k < n && (k in m || index <= k <= i) :: if index <= k < i then Read(m, k + 1) else Read(m, k)
  }

  /** One turn of that loop: create slot i + 1 if missing, copy it to slot i. */
  lemma ShiftStep(m: map<nat, Value>, n: nat, index: nat, i: nat)
    requires index <= i && i + 1 < n && index in m
    ensures var s := Shifted(m, n, index, i);
            var s' := if i + 1 in s then s else s[i + 1 := Null];
            Shifted(m, n, index, i + 1) == s'[i := s'[i + 1]]
  {
  }

  lemma ShiftedClosed(m: map<nat, Value>, index: nat, n: nat)
    requires index < n && index in m && Bounds(m, n)
    ensures Shifted(m, n, index, index) == m
    ensures Shifted(m, n, index, n - 1) - {n - 1} == Closed(m, index, n)
  {
  }

  lemma FilledClosed(m: map<nat, Value>, index: nat, n: nat, n': nat)
    requires Bounds(m, n) && index in m && Bounds(Closed(m, index, n), n')
    ensures Filled(Closed(m, index, n), n') == Filled(m, n)[..index] + Filled(m, n)[index + 1..]
            <==> index + 1 < n || index == 0 || index - 1 in m
  {
    var c := Closed(m, index, n);
    if index + 1 < n || index == 0 || index - 1 in m {
      assert n > 1 ==> n - 2 in c;
      assert n' == n - 1;
      assert Filled(c, n') == Filled(m, n)[..index] + Filled(m, n)[index + 1..];
    } else {
      assert n' != n - 1 by {
        assert n - 2 !in c;
      }
      assert |Filled(c, n')| == n';
    }
  }

  // ---------------------------------------------------------------------------
  // The array operations
  // ---------------------------------------------------------------------------

  class ArrayValue {
    var entries: seq<Entry>

    ghost predicate Valid()
      reads this
    {
      IsArrayMap(entries)
    }

    constructor ()
      ensures Valid() && Dense(entries) == []
    {
      entries := [];
    }

    /** The mutable operator[]: creates a null slot when there is none. */
    method At(index: nat) returns (value: Value)
      requires Valid()
      modifies this
      ensures Valid()
      ensures Dense(entries) == Padded(old(Dense(entries)), index + 1)
      ensures value == Dense(entries)[index]
      ensures index in Slots(entries) && value == Slots(entries)[index]
      ensures Slots(entries) == if index in old(Slots(entries)) then old(Slots(entries)) else old(Slots(entries))[index := Null]
    {
      hide Find, Put, Slots, IsArrayMap;
      SizeBounds(entries);
      FindSlot(entries, index);
      var found := Find(entries, Index(index));
      if found.Some? {
        return found.value;
      }
      SlotsPut(entries, index, Null);
      SizeBounds(Put(entries, Index(index), Null));
      FilledAssign(Slots(entries), SizeOf(entries), index, Null, SizeOf(Put(entries, Index(index), Null)));
      entries := Put(entries, Index(index), Null);
      value := Null;
    }

    /** `array[index] = value`. */
    method Assign(index: nat, value: Value)
      requires Valid()
      modifies this
      ensures Valid()
      ensures Dense(entries) == Padded(old(Dense(entries)), index + 1)[index := value]
      ensures Slots(entries) == old(Slots(entries))[index := value]
    {
      hide Find, Put, Slots, IsArrayMap;
      SizeBounds(entries);
      SlotsPut(entries, index, value);
      SizeBounds(Put(entries, Index(index), value));
      FilledAssign(Slots(entries), SizeOf(entries), index, value, SizeOf(Put(entries, Index(index), value)));
      entries := Put(entries, Index(index), value);
    }

    method Append(value: Value)
      requires Valid()
      modifies this
      ensures Valid()
      ensures Dense(entries) == old(Dense(entries)) + [value]
    {
      Assign(SizeOf(entries), value);
    }

    /** Growing pads with nulls.  Shrinking drops the slots from `newSize` on; `sound` is the
        closing `assert(size() == newSize)`, which fails exactly when slot newSize - 1 is missing. */
    method Resize(newSize: nat) returns (sound: bool)
      requires Valid()
      modifies this
      ensures Valid()
      ensures newSize > |old(Dense(entries))| ==> sound && Dense(entries) == Padded(old(Dense(entries)), newSize)
      ensures newSize <= |old(Dense(entries))| ==>
                && Slots(entries) == Outside(old(Slots(entries)), newSize, |old(Dense(entries))|)
                && (sound <==> newSize == 0 || newSize - 1 in old(Slots(entries)))
                && (sound <==> Dense(entries) == old(Dense(entries))[..newSize])
    {
      hide Find, Erase, Slots, IsArrayMap, Filled, Padded;
      ghost var was := Slots(entries);
      var oldSize := SizeOf(entries);
      SizeBounds(entries);
      if newSize == 0 {
        EmptyArray();
        entries := [];
        return true;
      } else if newSize > oldSize {
        var _ := At(newSize - 1);
        return true;
      }
      var index := newSize;
      while index < oldSize
        invariant newSize <= index <= oldSize && Valid()
        invariant Slots(entries) == Outside(was, newSize, index)
      {
        SlotsErase(entries, index);
        entries := Erase(entries, Index(index));
        index := index + 1;
      }
      SizeBounds(entries);
      FilledTake(was, oldSize, newSize, SizeOf(entries));
      sound := SizeOf(entries) == newSize;
    }

    /** Removes a present slot and closes the gap.  That deletes exactly one element of the
        sequence, unless it was the last one and the slot before it is missing. */
    method RemoveIndex(index: nat) returns (ok: bool, removed: Value)
      requires Valid()
      modifies this
      ensures Valid()
      ensures ok <==> index in old(Slots(entries))
      ensures !ok ==> entries == old(entries)
      ensures ok ==> removed == old(Slots(entries))[index]
      ensures ok ==> index < |old(Dense(entries))| && removed == old(Dense(entries))[index]
      ensures ok ==> Slots(entries) == Closed(old(Slots(entries)), index, |old(Dense(entries))|)
      ensures ok ==>
                (Dense(entries) == old(Dense(entries))[..index] + old(Dense(entries))[index + 1..]
                 <==> index + 1 < |old(Dense(entries))| || index == 0 || index - 1 in old(Slots(entries)))
    {
      hide Find, Put, Erase, Slots, IsArrayMap, Shifted, Closed, Padded;
      ghost var was := Slots(entries);
      SizeBounds(entries);
      FindSlot(entries, index);
      var found := Find(entries, Index(index));
      if found.None? {
        return false, Null;
      }
      removed := found.value;
      var oldSize := SizeOf(entries);
      var i := index;
      ShiftedClosed(was, index, oldSize);
      while i < oldSize - 1
        invariant index <= i <= oldSize - 1 && Valid()
        invariant Slots(entries) == Shifted(was, oldSize, index, i)
      {
        ShiftStep(was, oldSize, index, i);
        var next := At(i + 1);
        Assign(i, next);
        i := i + 1;
      }
      SlotsErase(entries, oldSize - 1);
      entries := Erase(entries, Index(oldSize - 1));
      SizeBounds(entries);
      FilledClosed(was, index, oldSize, SizeOf(entries));
      ok := true;
    }
  }
}
