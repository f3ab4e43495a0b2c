/**
 * Vocabulary shared by the container and string-helper models: duplicate
 * freedom, the element set of a sequence, removal at an index (a slice
 * splice), order-preserving filtering, the subsequence relation, and the
 * append-if-absent step that several of the Go helpers use.
 */
module Seqs {

  /** No value occurs twice in `s`. */
  predicate NoDuplicates<T(==)>(s: seq<T>)
  {
    forall i, j :: 0 <= i < j < |s| ==> s[i] != s[j]
  }

  /** The set of values occurring in `s`. */
  function Elems<T>(s: seq<T>): set<T>
  {
    set x | x in s
  }

  /** `s` with the element at index `i` cut out and the later elements moved
      down by one (Go: `append(s[:i], s[i+1:]...)`). */
  function RemoveAt<T>(s: seq<T>, i: nat): (r: seq<T>)
    requires i < |s|
    ensures |r| == |s| - 1
    ensures forall j :: 0 <= j < i ==> r[j] == s[j]
    ensures forall j :: i <= j < |r| ==> r[j] == s[j + 1]
  {
    s[..i] + s[i + 1..]
  }

  /** The elements of `s` that are not in `drop`, in their original order. */
  function Filter<T>(s: seq<T>, drop: set<T>): (r: seq<T>)
    ensures |r| <= |s|
    ensures Elems(r) == Elems(s) - drop
  {
    if s == [] then []
    else
      var init, last := s[..|s| - 1], s[|s| - 1];
      var kept, tail := Filter(init, drop), if last in drop then [] else [last];
      ElemsConcat(init, [last]);
      ElemsConcat(kept, tail);
      assert s == init + [last];
      kept + tail
  }

  /** `a` can be obtained from `b` by deleting elements (greedy matching from
      the back, which decides the subsequence relation). */
  predicate IsSubsequence<T(==)>(a: seq<T>, b: seq<T>)
    decreases |b|
  {
    if a == [] then true
    else if b == [] then false
    else if a[|a| - 1] == b[|b| - 1] then IsSubsequence(a[..|a| - 1], b[..|b| - 1])
    else IsSubsequence(a, b[..|b| - 1])
  }

  /** One "append unless already present" step. */
  function AppendIfAbsent<T(==)>(s: seq<T>, x: T): (r: seq<T>)
    ensures x in r
    ensures Elems(r) == Elems(s) + {x}
    ensures x in s ==> r == s
    ensures x !in s ==> |r| == |s| + 1 && r[..|s|] == s && r[|s|] == x
    ensures NoDuplicates(s) ==> NoDuplicates(r)
  {
    if x in s then s else s + [x]
  }

  /** Appends, one after the other and left to right, every element of `xs`
      that is not already in the growing result. Since each
      `UniqueSafeSlice.Append` call turns `items` into
      `AppendIfAbsent(items, x)`, this is also the contents of a unique slice
      holding `s` after `Append` has been called with each element of `xs`. */
  function CombineExclusive<T(==)>(s: seq<T>, xs: seq<T>): seq<T>
  {
    if xs == [] then s
    else AppendIfAbsent(CombineExclusive(s, xs[..|xs| - 1]), xs[|xs| - 1])
  }

  // ---------------------------------------------------------------------------
  // Lemmas
  // ---------------------------------------------------------------------------

  /** The values of a concatenation are those of its parts. */
  lemma ElemsConcat<T>(a: seq<T>, b: seq<T>)
    ensures Elems(a + b) == Elems(a) + Elems(b)
  {
    assert forall x :: x in a + b <==> x in a || x in b;
  }

  /** A duplicate-free sequence has as many distinct values as elements. */
  lemma {:induction false} DistinctCard<T>(s: seq<T>)
    requires NoDuplicates(s)
    ensures |Elems(s)| == |s|
  {
    if s != [] {
      var init := s[..|s| - 1];
      assert NoDuplicates(init);
      DistinctCard(init);
      assert Elems(s) == Elems(init) + {s[|s| - 1]};
      assert s[|s| - 1] !in Elems(init);
    }
  }

  /** Cutting one element out of a duplicate-free sequence keeps it free of
      duplicates and removes exactly that value from its element set. */
  lemma RemoveAtElems<T>(s: seq<T>, i: nat)
    requires NoDuplicates(s) && i < |s|
    ensures NoDuplicates(RemoveAt(s, i))
    ensures Elems(RemoveAt(s, i)) == Elems(s) - {s[i]}
  {
    var r := RemoveAt(s, i);
    forall x | x in Elems(s) - {s[i]} ensures x in Elems(r) {
      var k :| 0 <= k < |s| && s[k] == x;
      if k < i { assert r[k] == x; } else { assert r[k - 1] == x; }
    }
  }

  /** Filtering out values that do not occur changes nothing. */
  lemma {:induction false} FilterAbsent<T>(s: seq<T>, drop: set<T>)
    requires forall k :: 0 <= k < |s| ==> s[k] !in drop
    ensures Filter(s, drop) == s
  {
    if s != [] {
      FilterAbsent(s[..|s| - 1], drop);
      assert s[..|s| - 1] + [s[|s| - 1]] == s;
    }
  }

  /** Filtering distributes over concatenation. */
  lemma {:induction false} FilterConcat<T>(a: seq<T>, b: seq<T>, drop: set<T>)
    ensures Filter(a + b, drop) == Filter(a, drop) + Filter(b, drop)
    decreases |b|
  {
    if b == [] {
      assert a + b == a;
    } else {
      var b' := b[..|b| - 1];
      assert (a + b)[..|a + b| - 1] == a + b';
      FilterConcat(a, b', drop);
    }
  }

  /** In a duplicate-free sequence, cutting out the element at `i` is the same
      as filtering out its value: the splice keeps the other elements in order. */
  lemma RemoveAtIsFilter<T>(s: seq<T>, i: nat)
    requires NoDuplicates(s) && i < |s|
    ensures RemoveAt(s, i) == Filter(s, {s[i]})
  {
    var x, pre, post := s[i], s[..i], s[i + 1..];
    assert s[..i + 1] == pre + [x];
    assert s == s[..i + 1] + post;
    FilterAbsent(pre, {x});
    FilterAbsent(post, {x});
    FilterConcat(s[..i + 1], post, {x});
    assert Filter(s[..i + 1], {x}) == pre by {
      assert s[..i + 1][..i] == pre;
    }
  }

  /** A filtered sequence is a subsequence of the original. */
  lemma {:induction false} FilterIsSubsequence<T>(s: seq<T>, drop: set<T>)
    ensures IsSubsequence(Filter(s, drop), s)
  {
    if s != [] {
      var init, last := s[..|s| - 1], s[|s| - 1];
      FilterIsSubsequence(init, drop);
      var f := Filter(init, drop);
      if last !in drop {
        assert (f + [last])[..|f|] == f;
      } else {
        assert Filter(s, drop) == f;
        if f != [] {
          SubsequenceOfLonger(f, init, last);
        }
      }
    }
  }

  /** Every sequence is a subsequence of itself. */
  lemma {:induction false} SubsequenceReflexive<T>(s: seq<T>)
    ensures IsSubsequence(s, s)
  {
    if s != [] {
      SubsequenceReflexive(s[..|s| - 1]);
    }
  }

  /** If a sequence extended by one value is free of duplicates, so is the
      prefix, and the value is new to it. */
  lemma NoDuplicatesSnoc<T>(s: seq<T>, x: T)
    requires NoDuplicates(s + [x])
    ensures NoDuplicates(s) && x !in s
  {
    var t := s + [x];
    forall i, j | 0 <= i < j < |s| ensures s[i] != s[j] {
      assert t[i] == s[i] && t[j] == s[j];
    }
    forall i | 0 <= i < |s| ensures s[i] != x {
      assert t[i] == s[i] && t[|s|] == x;
    }
  }

  /** A subsequence of `b` is a subsequence of `b` extended at the end. */
  lemma {:induction false} SubsequenceOfLonger<T>(a: seq<T>, b: seq<T>, y: T)
    requires IsSubsequence(a, b)
    ensures IsSubsequence(a, b + [y])
    decreases |b|, 1
  {
    if a != [] {
      var b' := b + [y];
      assert b'[..|b'| - 1] == b;
      if a[|a| - 1] == y {
        // greedy match on y: a without its last element is a subsequence of b
        SubsequenceDropLast(a, b);
      }
    }
  }

  /** Dropping the last element of a subsequence keeps it a subsequence. */
  lemma {:induction false} SubsequenceDropLast<T>(a: seq<T>, b: seq<T>)
    requires a != [] && IsSubsequence(a, b)
    ensures IsSubsequence(a[..|a| - 1], b)
    decreases |b|, 0
  {
    assert b != [];
    var a', b' := a[..|a| - 1], b[..|b| - 1];
    if a[|a| - 1] == b[|b| - 1] {
      SubsequenceOfLonger(a', b', b[|b| - 1]);
      assert b' + [b[|b| - 1]] == b;
    } else {
      SubsequenceDropLast(a, b');
      SubsequenceOfLonger(a', b', b[|b| - 1]);
      assert b' + [b[|b| - 1]] == b;
    }
  }

  /** What an exclusive combine produces: the original sequence is kept as a
      prefix, every element of both inputs ends up in the result, nothing else
      does, only elements of `xs` are appended, and duplicate freedom is kept. */
  lemma {:induction false} CombineExclusiveProperties<T>(s: seq<T>, xs: seq<T>)
    ensures var r := CombineExclusive(s, xs);
      && |s| <= |r|
      && r[..|s|] == s
      && Elems(r) == Elems(s) + Elems(xs)
      && (forall k :: |s| <= k < |r| ==> r[k] in xs)
      && (NoDuplicates(s) ==> NoDuplicates(r))
  {
    if xs != [] {
      var init := xs[..|xs| - 1];
      CombineExclusiveProperties(s, init);
      var p := CombineExclusive(s, init);
      var r := AppendIfAbsent(p, xs[|xs| - 1]);
      assert Elems(xs) == Elems(init) + {xs[|xs| - 1]};
      if r != p {
        assert r[..|s|] == p[..|s|];
      }
      forall k | |s| <= k < |r| ensures r[k] in xs {
        if k < |p| { assert r[k] == p[k]; assert p[k] in init; }
      }
    }
  }

  /** Combining a duplicate-free sequence into the empty one keeps it as is:
      appending pairwise distinct values to a new unique slice keeps them all,
      in call order. */
  lemma {:induction false} CombineDistinctIntoEmpty<T>(xs: seq<T>)
    requires NoDuplicates(xs)
    ensures CombineExclusive([], xs) == xs
  {
    if xs != [] {
      var init := xs[..|xs| - 1];
      CombineDistinctIntoEmpty(init);
      assert xs[|xs| - 1] !in init;
      assert init + [xs[|xs| - 1]] == xs;
    }
  }

  /** Appending the same value `n > 0` times to the empty sequence, each time
      only if absent, leaves exactly one copy: `n` calls of
      `UniqueSafeSlice.Append(x)` on a new unique slice leave it holding `[x]`. */
  lemma {:induction false} CombineRepeated<T>(x: T, n: nat)
    requires n > 0
    ensures CombineExclusive([], seq(n, _ => x)) == [x]
  {
    var xs := seq(n, _ => x);
    if n == 1 {
      assert xs[..0] == [];
    } else {
      assert xs[..n - 1] == seq(n - 1, _ => x);
      CombineRepeated(x, n - 1);
    }
  }
}
