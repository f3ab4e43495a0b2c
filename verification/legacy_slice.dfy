/**
 * The older, non-generic thread-safe slice of safe/safe.go, which stores Go
 * `interface{}` values. It declares the same names as safe/slice.go and is
 * kept apart here as its own module. The embedded mutex is not modelled:
 * every method is one atomic step on the `items` field.
 */
module SafeLegacySlice {
  import opened Seqs

  /** A Go `interface{}` value: `nil`, or a dynamic value of some type `T`. */
  datatype Any<T> = Nil | Dyn(value: T)

  class SafeSlice<T> {
    var items: seq<Any<T>>

    /** `NewSafeSlice`. */
    constructor ()
      ensures items == []
    {
      items := [];
    }

    /** Adds `item` after the last element. */
    method Append(item: Any<T>)
      modifies this
      ensures |items| == |old(items)| + 1
      ensures items[|items| - 1] == item
      ensures items[..|old(items)|] == old(items)
    {
      items := items + [item];
    }

    /** The element at `index`, or `nil` and `false` when there is none. */
    method Get(index: int) returns (item: Any<T>, ok: bool)
      ensures ok <==> 0 <= index < |items|
      ensures ok ==> item == items[index]
      ensures !ok ==> item == Nil
    {
      if index < 0 || index >= |items| {
        return Nil, false;
      }
      return items[index], true;
    }

    /** Cuts out the element at `index`, moving the later ones down by one;
        a negative or too large index is refused and nothing changes. */
    method Remove(index: int) returns (ok: bool)
      modifies this
      ensures ok <==> 0 <= index < |old(items)|
      ensures ok ==> items == RemoveAt(old(items), index)
      ensures !ok ==> items == old(items)
    {
      if index < 0 || index >= |items| {
        return false;
      }
      items := items[..index] + items[index + 1..];
      return true;
    }

    method Size() returns (n: int)
      ensures n == |items|
    {
      n := |items|;
    }
  }
}
