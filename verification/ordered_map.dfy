/**
 * The thread-safe ordered map of safe/ordered_map.go: a slice of keys in
 * first-insertion order next to a Go map from keys to values. The read/write
 * mutex is not modelled: every method is one atomic step.
 *
 * The abstract value of a map is a `MapState` (its key order and its
 * mapping); `Put` and `Remove` are the pure transitions that `Set` and
 * `Delete` perform, and the lemmas about them (and about whole runs of
 * operations) are what the Go tests observe.
 */
module SafeOrderedMap {
  import opened Seqs

  /** The key order and the mapping of an ordered map. */
  datatype MapState<K, V> = MapState(keys: seq<K>, values: map<K, V>)

  /** Representation invariant: every key is listed once, and the listed keys
      are exactly the keys of the mapping. */
  ghost predicate Consistent<K, V>(s: MapState<K, V>)
  {
    NoDuplicates(s.keys) && Elems(s.keys) == s.values.Keys
  }

  /** The state `NewOrderedMap` builds. */
  function Empty<K, V>(): (r: MapState<K, V>)
    ensures Consistent(r) && r.keys == [] && r.values == map[]
  {
    MapState([], map[])
  }

  /** `Set(key, value)`: a new key goes to the end of the key order, a present
      key keeps its place and only its value changes. */
  function Put<K, V>(s: MapState<K, V>, key: K, value: V): (r: MapState<K, V>)
    ensures key in r.values && r.values[key] == value
    ensures forall k :: k in s.values && k != key ==> k in r.values && r.values[k] == s.values[k]
    ensures r.values.Keys == s.values.Keys + {key}
    ensures key in s.values ==> r.keys == s.keys
    ensures key !in s.values ==> r.keys == s.keys + [key]
    ensures Consistent(s) ==> Consistent(r)
  {
    MapState(if key in s.values then s.keys else s.keys + [key], s.values[key := value])
  }

  /** `Delete(key)`: drops the mapping and the key's place in the order. */
  function Remove<K, V>(s: MapState<K, V>, key: K): (r: MapState<K, V>)
    ensures key !in r.values
    ensures r.values.Keys == s.values.Keys - {key}
    ensures forall k :: k in r.values ==> r.values[k] == s.values[k]
    ensures key !in s.values ==> r == s
    ensures key in s.values ==> Elems(r.keys) == Elems(s.keys) - {key}
  {
    if key in s.values then MapState(Filter(s.keys, {key}), s.values - {key}) else s
  }

  /** Deleting an absent key changes nothing; deleting a present key removes
      it from both the mapping and the key order, leaves every other mapping
      alone, keeps the remaining keys in their relative order and shortens the
      order by one. */
  lemma RemoveProperties<K, V>(s: MapState<K, V>, key: K)
    requires Consistent(s)
    ensures var r := Remove(s, key);
      && Consistent(r)
      && key !in r.values && key !in r.keys
      && (forall k :: k in s.values && k != key ==> k in r.values && r.values[k] == s.values[k])
      && r.values.Keys == s.values.Keys - {key}
      && IsSubsequence(r.keys, s.keys)
      && (key !in s.values ==> r == s)
      && (key in s.values ==> |r.keys| == |s.keys| - 1)
  {
    var r := Remove(s, key);
    if key in s.values {
      assert key in Elems(s.keys);
      var i :| 0 <= i < |s.keys| && s.keys[i] == key;
      RemoveAtIsFilter(s.keys, i);
      RemoveAtElems(s.keys, i);
      FilterIsSubsequence(s.keys, {key});
    } else {
      SubsequenceReflexive(s.keys);
    }
  }

  /** `Len()` is the number of mappings: the key list is as long as the map. */
  lemma LenIsMappingCount<K, V>(s: MapState<K, V>)
    requires Consistent(s)
    ensures |s.keys| == |s.values|
  {
    DistinctCard(s.keys);
    assert |s.values| == |s.values.Keys|;
  }

  // ---------------------------------------------------------------------------
  // Runs of operations: what a sequence of atomic Set/Delete calls produces
  // ---------------------------------------------------------------------------

  datatype Op<K, V> = SetOp(key: K, value: V) | DeleteOp(key: K)

  function Apply<K, V>(s: MapState<K, V>, op: Op<K, V>): MapState<K, V>
  {
    match op
    case SetOp(k, v) => Put(s, k, v)
    case DeleteOp(k) => Remove(s, k)
  }

  /** The state after performing `ops` in order, starting from `s`. */
  function Run<K, V>(s: MapState<K, V>, ops: seq<Op<K, V>>): MapState<K, V>
  {
    if ops == [] then s else Apply(Run(s, ops[..|ops| - 1]), ops[|ops| - 1])
  }

  /** Every run of operations keeps the representation invariant. */
  lemma {:induction false} RunConsistent<K, V>(s: MapState<K, V>, ops: seq<Op<K, V>>)
    requires Consistent(s)
    ensures Consistent(Run(s, ops))
  {
    if ops != [] {
      RunConsistent(s, ops[..|ops| - 1]);
      var p := Run(s, ops[..|ops| - 1]);
      if ops[|ops| - 1].DeleteOp? {
        RemoveProperties(p, ops[|ops| - 1].key);
      }
    }
  }

  /** The keys set by a run of `Set` operations, in call order. */
  function SetKeys<K, V>(ops: seq<Op<K, V>>): (ks: seq<K>)
    ensures |ks| == |ops|
  {
    seq(|ops|, i requires 0 <= i < |ops| => ops[i].key)
  }

  /** The keys of a run are the keys of all but the last call, then the last key. */
  lemma SetKeysSnoc<K, V>(ops: seq<Op<K, V>>)
    requires ops != []
    ensures SetKeys(ops) == SetKeys(ops[..|ops| - 1]) + [ops[|ops| - 1].key]
  {
  }

  /** `N` calls of `Set` with pairwise distinct keys on a new map leave `N`
      mappings, listed by `Keys()` in the order of the calls. */
  lemma {:induction false} DistinctSetsFill<K, V>(ops: seq<Op<K, V>>)
    requires forall i :: 0 <= i < |ops| ==> ops[i].SetOp?
    requires NoDuplicates(SetKeys(ops))
    ensures Run(Empty(), ops).keys == SetKeys(ops)
    ensures |Run(Empty(), ops).values| == |ops|
  {
    if ops != [] {
      var init, last := ops[..|ops| - 1], ops[|ops| - 1];
      SetKeysSnoc(ops);
      NoDuplicatesSnoc(SetKeys(init), last.key);
      DistinctSetsFill(init);
      RunConsistent(Empty(), init);
      var p := Run(Empty(), init);
      assert last.key !in p.values by {
        assert last.key !in Elems(p.keys);
      }
      assert Run(Empty(), ops) == Put(p, last.key, last.value);
    }
  }

  /** A key that is deleted and then set again moves to the end of the key
      order and carries the new value. */
  lemma ReinsertMovesToEnd<K, V>(s: MapState<K, V>, key: K, value: V)
    requires Consistent(s) && key in s.values
    ensures Run(s, [DeleteOp(key), SetOp(key, value)]).keys == Filter(s.keys, {key}) + [key]
    ensures Run(s, [DeleteOp(key), SetOp(key, value)]).values[key] == value
  {
    var ops := [DeleteOp(key), SetOp(key, value)];
    RemoveProperties(s, key);
    var removed := Remove(s, key);
    assert ops[..1] == [DeleteOp(key)] && ops[..1][..0] == [];
    assert Run(s, ops[..1]) == removed;
    assert Run(s, ops) == Put(removed, key, value);
  }

  // ---------------------------------------------------------------------------
  // The object
  // ---------------------------------------------------------------------------

  class OrderedMap<K(==), V(0)> {
    var keys: seq<K>
    var values: map<K, V>

    function State(): MapState<K, V>
      reads this
    {
      MapState(keys, values)
    }

    ghost predicate Valid()
      reads this
    {
      Consistent(State())
    }

    /** `NewOrderedMap`. */
    constructor ()
      ensures Valid() && State() == Empty()
    {
      keys := [];
      values := map[];
    }

    method Set(key: K, value: V)
      requires Valid()
      modifies this
      ensures Valid()
      ensures State() == Put(old(State()), key, value)
    {
      if key !in values {
        keys := keys + [key];
      }
      values := values[key := value];
    }

    method Get(key: K) returns (value: V, found: bool)
      ensures found <==> key in values
      ensures found ==> value == values[key]
    {
      if key !in values {
        var zero: V := *;
        return zero, false;
      }
      return values[key], true;
    }

    method Delete(key: K)
      requires Valid()
      modifies this
      ensures Valid()
      ensures State() == Remove(old(State()), key)
    {
      if key in values {
        assert key in Elems(keys);
        values := values - {key};
        var i := 0;
        var found := false;
        while i < |keys|
          invariant 0 <= i <= |keys|
          invariant keys == old(keys)
          invariant forall j :: 0 <= j < i ==> keys[j] != key
        {
          if keys[i] == key {
            RemoveAtIsFilter(keys, i);
            RemoveAtElems(keys, i);
            keys := keys[..i] + keys[i + 1..];
            found := true;
            break;
          }
          i := i + 1;
        }
        if !found {
          assert false;
        }
      }
    }

    /** A copy of the keys in first-insertion order. */
    method Keys() returns (ks: seq<K>)
      requires Valid()
      ensures ks == keys
      ensures NoDuplicates(ks) && Elems(ks) == values.Keys
    {
      var out := new K[|keys|](i requires 0 <= i < |keys| reads this => keys[i]);
      ks := out[..];
    }

    /** The values, position by position matching `Keys()`. */
    method Values() returns (vs: seq<V>)
      requires Valid()
      ensures |vs| == |keys|
      ensures forall i :: 0 <= i < |keys| ==> keys[i] in values && vs[i] == values[keys[i]]
    {
      var out := new V[|keys|];
      for i := 0 to |keys|
        invariant forall j :: 0 <= j < i ==> keys[j] in values && out[j] == values[keys[j]]
      {
        assert keys[i] in Elems(keys);
        out[i] := values[keys[i]];
      }
      vs := out[..];
    }

    method Len() returns (n: int)
      requires Valid()
      ensures n == |keys| && n == |values|
    {
      LenIsMappingCount(State());
      n := |keys|;
    }
  }
}
