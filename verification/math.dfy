/**
 * The integer reductions of math/math.go: `Max`, `Min`, `Sum` and `Average`.
 * Go's `int` is 64 bits wide and wraps on overflow; here integers are
 * unbounded. Go's integer division truncates toward zero, which is written
 * out as `TruncDiv`.
 */
module IntMath {

  /** The largest element (the first one scanned wins ties, which makes no
      difference for integers). */
  function Largest(s: seq<int>): (r: int)
    requires |s| > 0
    ensures r in s
    ensures forall k :: 0 <= k < |s| ==> s[k] <= r
  {
    if |s| == 1 then s[0]
    else
      var m := Largest(s[..|s| - 1]);
      if s[|s| - 1] > m then s[|s| - 1] else m
  }

  /** The smallest element. */
  function Smallest(s: seq<int>): (r: int)
    requires |s| > 0
    ensures r in s
    ensures forall k :: 0 <= k < |s| ==> r <= s[k]
  {
    if |s| == 1 then s[0]
    else
      var m := Smallest(s[..|s| - 1]);
      if s[|s| - 1] < m then s[|s| - 1] else m
  }

  /** Over the same non-empty input the minimum never exceeds the maximum. */
  lemma SmallestAtMostLargest(s: seq<int>)
    requires |s| > 0
    ensures Smallest(s) <= Largest(s)
  {
    assert Smallest(s) in s;
  }

  /** The mathematical sum of the elements. */
  function Total(s: seq<int>): int
  {
    if s == [] then 0 else s[0] + Total(s[1..])
  }

  /** Adding one more element adds it to the sum. */
  lemma {:induction false} TotalAppend(s: seq<int>, x: int)
    ensures Total(s + [x]) == Total(s) + x
  {
    if s != [] {
      assert (s + [x])[1..] == s[1..] + [x];
      TotalAppend(s[1..], x);
    }
  }

  /** The magnitude of `x`. */
  function Abs(x: int): nat
  {
    if x < 0 then -x else x
  }

  /** Integer division truncating toward zero, as Go's `/` on `int`: the
      magnitude of the quotient is that of the dividend divided by the divisor
      and rounded down, and its sign is the dividend's. */
  function TruncDiv(a: int, b: int): (q: int)
    requires b > 0
    ensures Abs(q) == Abs(a) / b
    ensures a >= 0 ==> q >= 0
    ensures a <= 0 ==> q <= 0
  {
    DivFacts(Abs(a), b);
    if a >= 0 then a / b else -(Abs(a) / b)
  }

  /** Euclidean division of a non-negative number by a positive one. */
  lemma DivFacts(x: nat, n: int)
    requires n > 0
    ensures 0 <= x / n
    ensures n * (x / n) <= x < n * (x / n) + n
  {
  }

  /** Truncation differs from Dafny's Euclidean division on a negative
      dividend: -7 / 2 is -3 in Go and -4 in Dafny. */
  lemma TruncDivOfNegative()
    ensures TruncDiv(-7, 2) == -3 && -7 / 2 == -4
  {
  }

  // Small facts about multiplication, kept apart so that each proof that uses
  // them stays linear.

  lemma MulMono(n: nat, a: int, b: int)
    requires a <= b
    ensures n * a <= n * b
  {
  }

  lemma MulSucc(n: int, x: int)
    ensures (n + 1) * x == x + n * x
    ensures n * (x + 1) == n * x + n
  {
  }

  lemma MulNeg(n: int, x: int)
    ensures n * (-x) == -(n * x)
  {
  }

  /** The sum lies between `n` times the minimum and `n` times the maximum. */
  lemma {:induction false} TotalBounds(s: seq<int>)
    requires |s| > 0
    ensures |s| * Smallest(s) <= Total(s) <= |s| * Largest(s)
  {
    var lo, hi := Smallest(s), Largest(s);
    if |s| == 1 {
      assert s[1..] == [];
    } else {
      var t := s[1..];
      var n := |t|;
      TotalBounds(t);
      assert Smallest(t) in s && Largest(t) in s;
      MulMono(n, lo, Smallest(t));
      MulMono(n, Largest(t), hi);
      MulSucc(n, lo);
      MulSucc(n, hi);
      assert lo <= s[0] <= hi;
    }
  }

  /** If `n * lo <= a <= n * hi` then truncating `a / n` stays in `[lo, hi]`. */
  lemma QuotientBounds(a: int, n: int, lo: int, hi: int)
    requires n > 0 && n * lo <= a <= n * hi
    ensures lo <= TruncDiv(a, n) <= hi
  {
    var m := Abs(a) / n;
    DivFacts(Abs(a), n);
    MulSucc(n, m);
    if a >= 0 {
      assert TruncDiv(a, n) == m;
      if m > hi {
        MulMono(n, hi + 1, m);
        MulSucc(n, hi);
      }
      if m < lo {
        MulMono(n, m + 1, lo);
      }
    } else {
      assert TruncDiv(a, n) == -m;
      MulNeg(n, hi);
      MulNeg(n, lo);
      if m < -hi {
        MulMono(n, m + 1, -hi);
      }
      if m > -lo {
        MulMono(n, -lo + 1, m);
        MulSucc(n, -lo);
      }
    }
  }

  /** The (truncated) average of a non-empty sequence lies between its minimum
      and its maximum. */
  lemma AverageBetweenMinAndMax(s: seq<int>)
    requires |s| > 0
    ensures Smallest(s) <= TruncDiv(Total(s), |s|) <= Largest(s)
  {
    TotalBounds(s);
    QuotientBounds(Total(s), |s|, Smallest(s), Largest(s));
  }

  // ---------------------------------------------------------------------------
  // The Go functions
  // ---------------------------------------------------------------------------

  /** `Max`: 0 for no values, otherwise the largest value. */
  method Max(values: seq<int>) returns (result: int)
    ensures values == [] ==> result == 0
    ensures values != [] ==> result == Largest(values)
  {
    if |values| == 0 {
      return 0;
    }
    result := values[0];
    for i := 0 to |values|
      invariant i == 0 ==> result == values[0]
      invariant i > 0 ==> result == Largest(values[..i])
    {
      assert values[..i + 1][..i] == values[..i];
      if values[i] > result {
        result := values[i];
      }
    }
    assert values[..|values|] == values;
  }

  /** `Min`: 0 for no values, otherwise the smallest value. */
  method Min(values: seq<int>) returns (result: int)
    ensures values == [] ==> result == 0
    ensures values != [] ==> result == Smallest(values)
  {
    if |values| == 0 {
      return 0;
    }
    result := values[0];
    for i := 0 to |values|
      invariant i == 0 ==> result == values[0]
      invariant i > 0 ==> result == Smallest(values[..i])
    {
      assert values[..i + 1][..i] == values[..i];
      if values[i] < result {
        result := values[i];
      }
    }
    assert values[..|values|] == values;
  }

  /** `Sum`: the sum of the values, 0 for none. */
  method Sum(values: seq<int>) returns (result: int)
    ensures result == Total(values)
  {
    result := 0;
    for i := 0 to |values|
      invariant result == Total(values[..i])
    {
      assert values[..i + 1] == values[..i] + [values[i]];
      TotalAppend(values[..i], values[i]);
      result := result + values[i];
    }
    assert values[..|values|] == values;
  }

  /** `Average`: 0 for no values, otherwise the sum divided by the count and
      truncated toward zero. */
  method Average(values: seq<int>) returns (result: int)
    ensures values == [] ==> result == 0
    ensures values != [] ==> result == TruncDiv(Total(values), |values|)
    ensures values != [] ==> Smallest(values) <= result <= Largest(values)
  {
    if |values| == 0 {
      return 0;
    }
    var sum := 0;
    for i := 0 to |values|
      invariant sum == Total(values[..i])
    {
      assert values[..i + 1] == values[..i] + [values[i]];
      TotalAppend(values[..i], values[i]);
      sum := sum + values[i];
    }
    assert values[..|values|] == values;
    AverageBetweenMinAndMax(values);
    result := TruncDiv(sum, |values|);
  }
}
