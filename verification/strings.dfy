/**
 * The string-slice helpers of strings/strings.go: exact and substring
 * membership, append-if-absent, exclusive combination and set difference.
 * Go strings are byte sequences; here a string is a `seq<char>`, and equality
 * and contiguous matching are read on that sequence.
 */
module StringSets {
  import opened Seqs

  /** `sub` occurs in `s` starting at index `i`. */
  predicate OccursAt(s: string, sub: string, i: int)
  {
    0 <= i && i + |sub| <= |s| && s[i..i + |sub|] == sub
  }

  /** `sub` occurs in `s` as a contiguous run. */
  predicate Contains(s: string, sub: string)
  {
    exists i :: 0 <= i <= |s| && OccursAt(s, sub, i)
  }

  /** The empty string occurs in every string, the empty one included. */
  lemma EmptyOccursEverywhere(s: string)
    ensures Contains(s, "")
  {
    assert OccursAt(s, "", 0);
  }

  /** Whether some element of `list` equals `str`. */
  method StringInSlice(str: string, list: seq<string>) returns (found: bool)
    ensures found <==> str in list
  {
    for k := 0 to |list|
      invariant str !in list[..k]
    {
      if list[k] == str {
        return true;
      }
    }
    assert list[..|list|] == list;
    return false;
  }

  /** Whether `str` occurs inside some element of `list`; for the empty `str`
      that is whether `list` has an element at all. */
  method SubStringInSlice(str: string, list: seq<string>) returns (found: bool)
    ensures found <==> exists k :: 0 <= k < |list| && Contains(list[k], str)
    ensures str == "" ==> (found <==> list != [])
  {
    if list != [] {
      EmptyOccursEverywhere(list[0]);
    }
    for k := 0 to |list|
      invariant forall j :: 0 <= j < k ==> !Contains(list[j], str)
    {
      var s := list[k];
      var i := 0;
      while i < |s| - |str| + 1
        invariant 0 <= i
        invariant forall m :: 0 <= m < i ==> !OccursAt(s, str, m)
      {
        if s[i..i + |str|] == str {
          assert OccursAt(s, str, i);
          return true;
        }
        i := i + 1;
      }
    }
    return false;
  }

  /** `slice` unchanged when `s` is already in it, otherwise `slice` with `s`
      added at the end. */
  method ExclusiveAppend(slice: seq<string>, s: string) returns (r: seq<string>)
    ensures r == AppendIfAbsent(slice, s)
  {
    for k := 0 to |slice|
      invariant s !in slice[..k]
    {
      if slice[k] == s {
        return slice;
      }
    }
    assert slice[..|slice|] == slice;
    return slice + [s];
  }

  /** `slice1` followed by the elements of `slice2` not yet in the growing
      result, in their order in `slice2`. */
  method ExclusiveCombine(slice1: seq<string>, slice2: seq<string>) returns (r: seq<string>)
    ensures r == CombineExclusive(slice1, slice2)
    ensures |slice1| <= |r| && r[..|slice1|] == slice1
    ensures Elems(r) == Elems(slice1) + Elems(slice2)
    ensures forall k :: |slice1| <= k < |r| ==> r[k] in slice2
    ensures NoDuplicates(slice1) ==> NoDuplicates(r)
  {
    r := slice1;
    for j := 0 to |slice2|
      invariant r == CombineExclusive(slice1, slice2[..j])
    {
      var newElement := slice2[j];
      var present := false;
      var k := 0;
      while k < |r|
        invariant 0 <= k <= |r|
        invariant !present && newElement !in r[..k]
      {
        if r[k] == newElement {
          present := true;
          break;
        }
        k := k + 1;
      }
      assert present <==> newElement in r by {
        if !present { assert r[..k] == r; }
      }
      if !present {
        r := r + [newElement];
      }
      assert slice2[..j + 1][..j] == slice2[..j];
    }
    assert slice2[..|slice2|] == slice2;
    CombineExclusiveProperties(slice1, slice2);
  }

  /** The elements of `slice` that are not in `remove`, in their original order. */
  method Exclude(slice: seq<string>, remove: seq<string>) returns (out: seq<string>)
    ensures out == Filter(slice, Elems(remove))
    ensures Elems(out) == Elems(slice) - Elems(remove)
    ensures |out| <= |slice| && IsSubsequence(out, slice)
  {
    var toRemove: map<string, bool> := map[];
    for j := 0 to |remove|
      invariant toRemove.Keys == Elems(remove[..j])
      invariant forall str :: str in toRemove ==> toRemove[str]
    {
      assert Elems(remove[..j + 1]) == Elems(remove[..j]) + {remove[j]} by {
        ElemsConcat(remove[..j], [remove[j]]);
        assert remove[..j + 1] == remove[..j] + [remove[j]];
      }
      toRemove := toRemove[remove[j] := true];
    }
    assert remove[..|remove|] == remove;
    out := [];
    for j := 0 to |slice|
      invariant out == Filter(slice[..j], Elems(remove))
    {
      var str := slice[j];
      assert slice[..j + 1][..j] == slice[..j];
      if !(str in toRemove && toRemove[str]) {
        out := out + [str];
      }
    }
    assert slice[..|slice|] == slice;
    FilterIsSubsequence(slice, Elems(remove));
  }
}
