/**
 * The generic thread-safe slice of safe/slice.go. The mutex is not
 * modelled: every method is one atomic step on the `items` field.
 */
module SafeGenericSlice {
  import opened Seqs

  class SafeSlice<T(0)> {
    var items: seq<T>

    /** `NewSafeSlice`. */
    constructor ()
      ensures items == []
    {
      items := [];
    }

    /** Adds `item` after the last element. */
    method Append(item: T)
      modifies this
      ensures |items| == |old(items)| + 1
      ensures items[|items| - 1] == item
      ensures items[..|old(items)|] == old(items)
      ensures items == Step(old(items), AppendOp(item)).0
    {
      items := items + [item];
    }

    /** Cuts out the element at `index`, moving the later ones down by one;
        a negative or too large index is refused and nothing changes. */
    method Remove(index: int) returns (ok: bool)
      modifies this
      ensures ok <==> 0 <= index < |old(items)|
      ensures ok ==> items == RemoveAt(old(items), index)
      ensures !ok ==> items == old(items)
      ensures (items, ok) == Step(old(items), RemoveOp(index))
    {
      if index < 0 || index >= |items| {
        return false;
      }
      items := items[..index] + items[index + 1..];
      return true;
    }

    /** The element at `index`, if there is one. */
    method Get(index: int) returns (item: T, ok: bool)
      ensures ok <==> 0 <= index < |items|
      ensures ok ==> item == items[index]
    {
      var zero: T := *;
      if index < 0 || index >= |items| {
        return zero, false;
      }
      return items[index], true;
    }

    method Size() returns (n: int)
      ensures n == |items|
    {
      n := |items|;
    }

    /** A copy of the elements, in order. */
    method Items() returns (snapshot: seq<T>)
      ensures snapshot == items
    {
      var copy := new T[|items|];
      for i := 0 to |items|
        invariant copy[..i] == items[..i]
      {
        copy[i] := items[i];
      }
      snapshot := copy[..];
    }
  }

  // ---------------------------------------------------------------------------
  // Runs of atomic calls: each append adds one element and each successful
  // remove takes one away.
  // ---------------------------------------------------------------------------

  /** One call of a mutating method. */
  datatype Op<T> = AppendOp(item: T) | RemoveOp(index: int)

  /** The items after `op`, and whether it succeeded (an append always does). */
  function Step<T>(items: seq<T>, op: Op<T>): (seq<T>, bool)
  {
    match op
    case AppendOp(x) => (items + [x], true)
    case RemoveOp(i) => if 0 <= i < |items| then (RemoveAt(items, i), true) else (items, false)
  }

  /** The items after performing `ops` in order from `items`. */
  function Run<T>(items: seq<T>, ops: seq<Op<T>>): seq<T>
  {
    if ops == [] then items else Step(Run(items, ops[..|ops| - 1]), ops[|ops| - 1]).0
  }

  /** How many calls in `ops` are appends. */
  function Appends<T>(ops: seq<Op<T>>): nat
  {
    if ops == [] then 0 else Appends(ops[..|ops| - 1]) + (if ops[|ops| - 1].AppendOp? then 1 else 0)
  }

  /** How many calls in `ops` are removes that succeed when `ops` is performed
      from `items`. */
  function SuccessfulRemoves<T>(items: seq<T>, ops: seq<Op<T>>): nat
  {
    if ops == [] then 0
    else
      var last := ops[|ops| - 1];
      SuccessfulRemoves(items, ops[..|ops| - 1])
        + (if last.RemoveOp? && Step(Run(items, ops[..|ops| - 1]), last).1 then 1 else 0)
  }

  /** `Size()` after a run equals the initial size plus the appends minus the
      removes that succeeded. */
  lemma {:induction false} SizeCountsAppendsAndRemoves<T>(items: seq<T>, ops: seq<Op<T>>)
    ensures |Run(items, ops)| + SuccessfulRemoves(items, ops) == |items| + Appends(ops)
  {
    if ops != [] {
      SizeCountsAppendsAndRemoves(items, ops[..|ops| - 1]);
    }
  }

  /** Each of the appends in a run of appends ends up in the slice, in call order
      (the sequential reading of the concurrent-append test). */
  lemma {:induction false} AppendsInOrder<T>(items: seq<T>, xs: seq<T>)
    ensures Run(items, seq(|xs|, i requires 0 <= i < |xs| => AppendOp(xs[i]))) == items + xs
  {
    var ops := seq(|xs|, i requires 0 <= i < |xs| => AppendOp(xs[i]));
    if xs != [] {
      var init := xs[..|xs| - 1];
      assert ops[..|ops| - 1] == seq(|init|, i requires 0 <= i < |init| => AppendOp(init[i]));
      AppendsInOrder(items, init);
      assert items + init + [xs[|xs| - 1]] == items + xs;
    }
  }
}
