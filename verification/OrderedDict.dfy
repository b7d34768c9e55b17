/** The part of Python's `OrderedDict` the caches use, as a sequence of slots in insertion order. */
module OrderedDict {
  import opened Prelude

  datatype Slot<K, V> = Slot(key: K, value: V)

  function Find<K(==), V>(slots: seq<Slot<K, V>>, key: K): (i: nat)
    ensures i <= |slots|
    ensures forall j :: 0 <= j < i ==> slots[j].key != key
    ensures i < |slots| ==> slots[i].key == key
  {
    if slots == [] || slots[0].key == key then 0 else 1 + Find(slots[1..], key)
  }

  /** `get(key)`. */
  function Get<K(==), V>(slots: seq<Slot<K, V>>, key: K): Option<V> {
    var i := Find(slots, key);
    if i < |slots| then Some(slots[i].value) else None
  }

  /** `pop(key, None)`. */
  function Drop<K(==), V>(slots: seq<Slot<K, V>>, key: K): seq<Slot<K, V>> {
    var i := Find(slots, key);
    if i < |slots| then slots[..i] + slots[i + 1..] else slots
  }

  /** `d[key] = value` followed by `move_to_end(key)`. */
  function Place<K(==), V>(slots: seq<Slot<K, V>>, key: K, value: V): seq<Slot<K, V>> {
    Drop(slots, key) + [Slot(key, value)]
  }

  /** What `popitem(last=False)` leaves when it is repeated down to a capacity. */
  function Newest<K, V>(slots: seq<Slot<K, V>>, cap: nat): seq<Slot<K, V>> {
    if |slots| > cap then slots[|slots| - cap..] else slots
  }

  ghost predicate UniqueKeys<K, V>(slots: seq<Slot<K, V>>) {
    forall i, j :: 0 <= i < j < |slots| ==> slots[i].key != slots[j].key
  }

  function Keys<K, V>(slots: seq<Slot<K, V>>): (r: seq<K>)
    ensures |r| == |slots| && forall i :: 0 <= i < |r| ==> r[i] == slots[i].key
  {
    seq(|slots|, i requires 0 <= i < |slots| => slots[i].key)
  }

  /** The eviction loop. */
  method EvictOldest<K, V>(slots: seq<Slot<K, V>>, cap: nat) returns (kept: seq<Slot<K, V>>)
    ensures kept == Newest(slots, cap)
  {
    kept := slots;
    ghost var gone: nat := 0;
    while |kept| > cap
      invariant gone <= |slots| && kept == slots[gone..]
      invariant gone == 0 || |kept| >= cap
      decreases |kept|
    {
      kept, gone := kept[1..], gone + 1;
    }
  }

  lemma GetAt<K, V>(slots: seq<Slot<K, V>>, i: nat)
    requires UniqueKeys(slots) && i < |slots|
    ensures Get(slots, slots[i].key) == Some(slots[i].value)
  {
  }

  lemma GetDrop<K, V>(slots: seq<Slot<K, V>>, gone: K, key: K)
    requires UniqueKeys(slots)
    ensures Get(Drop(slots, gone), key) == if key == gone then None else Get(slots, key)
  {
    var left, i := Drop(slots, gone), Find(slots, gone);
    var j := Find(slots, key);
    if j < |slots| && i < |slots| && key != gone {
      assert left[if j < i then j else j - 1] == slots[j];
    }
  }

  lemma DropShape<K, V>(slots: seq<Slot<K, V>>, gone: K)
    requires UniqueKeys(slots)
    ensures UniqueKeys(Drop(slots, gone))
    ensures forall i :: 0 <= i < |Drop(slots, gone)| ==>
      Drop(slots, gone)[i].key != gone && Drop(slots, gone)[i] in slots
    ensures |Drop(slots, gone)| == |slots| - if Get(slots, gone).Some? then 1 else 0
  {
  }

  lemma DropAbsent<K, V>(slots: seq<Slot<K, V>>, key: K)
    ensures Get(slots, key).None? ==> Drop(slots, key) == slots
  {
  }

  lemma DroppedOnly<K, V>(slots: seq<Slot<K, V>>, gone: K)
    requires UniqueKeys(slots)
    ensures forall s :: s in Drop(slots, gone) ==> s in slots
    ensures forall s :: s in slots && s !in Drop(slots, gone) ==> Get(slots, gone) == Some(s.value)
  {
    var i := Find(slots, gone);
    if i < |slots| {
      assert slots == slots[..i] + [slots[i]] + slots[i + 1..];
    }
  }

  lemma PlaceShape<K, V>(slots: seq<Slot<K, V>>, key: K, value: V)
    requires UniqueKeys(slots)
    ensures UniqueKeys(Place(slots, key, value))
    ensures forall s :: s in Place(slots, key, value) ==> s == Slot(key, value) || (s in slots && s.key != key)
    ensures |Place(slots, key, value)| == |slots| + if Get(slots, key).Some? then 0 else 1
  {
    DropShape(slots, key);
  }

  lemma {:induction false} FindSnoc<K, V>(slots: seq<Slot<K, V>>, last: Slot<K, V>, key: K)
    ensures var i := Find(slots, key);
            Find(slots + [last], key) == if i == |slots| && last.key != key then i + 1 else i
  {
    var all := slots + [last];
    assert forall x :: 0 <= x < |slots| ==> all[x] == slots[x];
    assert all[|slots|] == last;
    if Find(slots, key) < |slots| {
      assert all[Find(slots, key)].key == key;
    }
    if Find(all, key) < |slots| {
      assert slots[Find(all, key)].key == key;
    }
  }

  /** A placed key has its new value, and every other key what it had. */
  lemma GetPlace<K, V>(slots: seq<Slot<K, V>>, placed: K, value: V, key: K)
    requires UniqueKeys(slots)
    ensures Get(Place(slots, placed, value), key) == if key == placed then Some(value) else Get(slots, key)
  {
    GetDrop(slots, placed, key);
    FindSnoc(Drop(slots, placed), Slot(placed, value), key);
  }

  /** Evicting loses keys, but none of the newest. */
  lemma GetNewest<K, V>(slots: seq<Slot<K, V>>, cap: nat, key: K)
    requires UniqueKeys(slots)
    ensures Get(Newest(slots, cap), key) == Get(slots, key) || Get(Newest(slots, cap), key) == None
    ensures Find(slots, key) + cap >= |slots| ==> Get(Newest(slots, cap), key) == Get(slots, key)
  {
    var kept, i := Newest(slots, cap), Find(slots, key);
    var j := Find(kept, key);
    if |slots| > cap {
      var d := |slots| - cap;
      if j < |kept| {
        assert kept[j] == slots[j + d];
      }
      if d <= i < |slots| {
        assert kept[i - d] == slots[i];
      }
    }
  }

  // ------------------------------------------------------------------
  // Order of use
  // ------------------------------------------------------------------

  /** When the key was last used, uses being in order; -1 if it never was. */
  ghost function LastUse<K>(uses: seq<K>, key: K): (i: int)
    ensures -1 <= i < |uses| && (i >= 0 ==> uses[i] == key)
    ensures forall j :: i < j < |uses| ==> uses[j] != key
  {
    if uses == [] then -1 else if uses[|uses| - 1] == key then |uses| - 1 else LastUse(uses[..|uses| - 1], key)
  }

  /** The slots are in the order in which their keys were last used. */
  ghost predicate InUseOrder<K, V>(uses: seq<K>, slots: seq<Slot<K, V>>) {
    && (forall i :: 0 <= i < |slots| ==> LastUse(uses, slots[i].key) >= 0)
    && (forall i, j :: 0 <= i < j < |slots| ==> LastUse(uses, slots[i].key) < LastUse(uses, slots[j].key))
  }

  /** A key that is used goes to the end. */
  lemma PlaceInUseOrder<K, V>(uses: seq<K>, slots: seq<Slot<K, V>>, key: K, value: V)
    requires UniqueKeys(slots) && InUseOrder(uses, slots)
    ensures InUseOrder(uses + [key], Place(slots, key, value))
  {
    DropShape(slots, key);
    DropInUseOrder(uses, slots, key);
    UsedNow(uses, key);
    var left := Drop(slots, key);
    assert forall i :: 0 <= i < |left| ==> left[i].key != key;
    hide Drop, LastUse, UniqueKeys;
    SnocInUseOrder(uses, left, key, value);
  }

  lemma SnocInUseOrder<K, V>(uses: seq<K>, left: seq<Slot<K, V>>, key: K, value: V)
    requires InUseOrder(uses, left) && forall i :: 0 <= i < |left| ==> left[i].key != key
    ensures InUseOrder(uses + [key], left + [Slot(key, value)])
  {
    UsedNow(uses, key);
    hide LastUse;
  }

  lemma UsedNow<K>(uses: seq<K>, key: K)
    ensures LastUse(uses + [key], key) == |uses|
    ensures forall k :: k != key ==> LastUse(uses + [key], k) == LastUse(uses, k)
  {
    assert (uses + [key])[..|uses|] == uses;
  }

  lemma DropInUseOrder<K, V>(uses: seq<K>, slots: seq<Slot<K, V>>, key: K)
    requires InUseOrder(uses, slots)
    ensures InUseOrder(uses, Drop(slots, key))
  {
    var left, f := Drop(slots, key), Find(slots, key);
    assert forall i :: 0 <= i < |left| ==> left[i] == slots[if i < f then i else i + 1];
    hide Drop, Find, LastUse;
  }

  /** What is evicted was used before everything that stays. */
  lemma EvictsLeastRecent<K, V>(uses: seq<K>, slots: seq<Slot<K, V>>, cap: nat)
    requires UniqueKeys(slots) && InUseOrder(uses, slots)
    ensures InUseOrder(uses, Newest(slots, cap))
    ensures forall gone, kept ::
              gone in slots && Get(Newest(slots, cap), gone.key).None? && kept in Newest(slots, cap) ==>
                LastUse(uses, gone.key) < LastUse(uses, kept.key)
  {
    var left := Newest(slots, cap);
    forall gone, kept | gone in slots && Get(left, gone.key).None? && kept in left
      ensures LastUse(uses, gone.key) < LastUse(uses, kept.key)
    {
      var i :| 0 <= i < |slots| && slots[i] == gone;
      var j :| 0 <= j < |left| && left[j] == kept;
      var d := |slots| - |left|;
      assert left[j] == slots[j + d];
    }
  }
}
