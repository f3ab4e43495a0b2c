/**
 * The root package's helpers in utils.go. Their loops are, line for line,
 * the ones of math/math.go (`Max`) and strings/strings.go (the others), so
 * each method here runs the corresponding model and states the behaviour of
 * the utils.go function. The one difference in meaning is `StringInSlice`,
 * which in utils.go tests for a substring (`strings.Contains`), not for an
 * equal element.
 */
module Utils {
  import opened Seqs
  import IntMath
  import StringSets

  /** `Max`: 0 for no numbers, otherwise a number that is at least every other. */
  method Max(nums: seq<int>) returns (r: int)
    ensures nums == [] ==> r == 0
    ensures nums != [] ==> r in nums && forall k :: 0 <= k < |nums| ==> nums[k] <= r
  {
    r := IntMath.Max(nums);
  }

  /** Whether `str` occurs inside some element of `list`. */
  method StringInSlice(str: string, list: seq<string>) returns (found: bool)
    ensures found <==> exists k :: 0 <= k < |list| && StringSets.Contains(list[k], str)
  {
    found := StringSets.SubStringInSlice(str, list);
  }

  /** The substring test of utils.go and the equality test of strings/strings.go
      disagree: "ab" is inside "xaby" but is not an element of ["xaby"]. */
  lemma SubstringIsNotMembership()
    ensures StringSets.Contains("xaby", "ab") && "ab" !in ["xaby"]
  {
    assert StringSets.OccursAt("xaby", "ab", 1);
  }

  /** An element equal to `str` always contains it, so exact membership implies
      the utils.go test. */
  lemma MembershipImpliesSubstring(str: string, list: seq<string>)
    requires str in list
    ensures exists k :: 0 <= k < |list| && StringSets.Contains(list[k], str)
  {
    var k :| 0 <= k < |list| && list[k] == str;
    assert StringSets.OccursAt(list[k], str, 0);
  }

  /** `slice` unchanged when `s` is already in it, otherwise `slice + [s]`. */
  method ExclusiveAppend(slice: seq<string>, s: string) returns (r: seq<string>)
    ensures s in slice ==> r == slice
    ensures s !in slice ==> r == slice + [s]
  {
    r := StringSets.ExclusiveAppend(slice, s);
  }

  /** `slice` followed by the elements of `newSlice` not yet in the growing
      result, in their order. */
  method ExclusiveCombine(slice: seq<string>, newSlice: seq<string>) returns (r: seq<string>)
    ensures r == CombineExclusive(slice, newSlice)
    ensures |slice| <= |r| && r[..|slice|] == slice
    ensures Elems(r) == Elems(slice) + Elems(newSlice)
    ensures NoDuplicates(slice) ==> NoDuplicates(r)
  {
    r := StringSets.ExclusiveCombine(slice, newSlice);
  }

  /** The elements of `slice` not in `remove`, order preserved. */
  method Exclude(slice: seq<string>, remove: seq<string>) returns (out: seq<string>)
    ensures out == Filter(slice, Elems(remove))
    ensures Elems(out) == Elems(slice) - Elems(remove)
    ensures |out| <= |slice| && IsSubsequence(out, slice)
  {
    out := StringSets.Exclude(slice, remove);
  }
}
