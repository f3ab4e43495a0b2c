/**
 * The uniqueness-enforcing thread-safe slice of safe/unique_slice.go: a
 * slice of items plus a Go map used as a membership set
 * (`map[T]struct{}`, modelled as a `set<T>`). The mutex is not modelled:
 * every method is one atomic step on the two fields.
 */
module SafeUniqueSlice {
  import opened Seqs

  class UniqueSafeSlice<T(==, 0)> {
    var items: seq<T>
    var unique: set<T>

    /** Representation invariant: no value is listed twice and the membership
        set holds exactly the listed values. */
    ghost predicate Valid()
      reads this
    {
      NoDuplicates(items) && unique == Elems(items)
    }

    /** `NewUniqueSafeSlice`. */
    constructor ()
      ensures Valid() && items == [] && unique == {}
    {
      items := [];
      unique := {};
    }

    /** Adds `item` at the end unless an equal value is already present, in
        which case nothing changes. */
    method Append(item: T)
      requires Valid()
      modifies this
      ensures Valid()
      ensures items == AppendIfAbsent(old(items), item)
      ensures item in old(items) ==> items == old(items) && unique == old(unique)
      ensures item !in old(items) ==> items == old(items) + [item] && unique == old(unique) + {item}
    {
      if item !in unique {
        items := items + [item];
        unique := unique + {item};
      }
    }

    /** Cuts out the element at `index`, moving the later ones down by one, and
        evicts its value from the membership set; a negative or too large index
        is refused and nothing changes. */
    method Remove(index: int) returns (ok: bool)
      requires Valid()
      modifies this
      ensures Valid()
      ensures ok <==> 0 <= index < |old(items)|
      ensures ok ==> items == RemoveAt(old(items), index) && unique == old(unique) - {old(items)[index]}
      ensures !ok ==> items == old(items) && unique == old(unique)
    {
      if index < 0 || index >= |items| {
        return false;
      }
      var removedItem := items[index];
      RemoveAtElems(items, index);
      unique := unique - {removedItem};
      items := items[..index] + items[index + 1..];
      return true;
    }

    /** The element at `index`, if there is one. */
    method Get(index: int) returns (item: T, ok: bool)
      ensures ok <==> 0 <= index < |items|
      ensures ok ==> item == items[index]
    {
      var zero: T := *;
      if index < 0 || index >= |items| {
        return zero, false;
      }
      return items[index], true;
    }

    method Size() returns (n: int)
      requires Valid()
      ensures n == |items| && n == |unique|
    {
      DistinctCard(items);
      n := |items|;
    }

    /** A copy of the elements, in order; no value occurs twice in it. */
    method Items() returns (snapshot: seq<T>)
      requires Valid()
      ensures snapshot == items
      ensures NoDuplicates(snapshot)
    {
      var copy := new T[|items|];
      for i := 0 to |items|
        invariant copy[..i] == items[..i]
      {
        copy[i] := items[i];
      }
      snapshot := copy[..];
    }
  }

  /** After a removal the removed value is absent again, so appending it puts
      it back, at the end. */
  lemma RemovedValueCanReturn<T>(items: seq<T>, index: nat)
    requires NoDuplicates(items) && index < |items|
    ensures AppendIfAbsent(RemoveAt(items, index), items[index]) == RemoveAt(items, index) + [items[index]]
  {
    RemoveAtElems(items, index);
    assert items[index] !in Elems(RemoveAt(items, index));
  }
}
