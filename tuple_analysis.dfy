/**
 * `analyze_numbers` from the tuples guide: several results returned at once
 * as a tuple `(min, max, sum, count)`, with `(0, 0, 0, 0)` for an empty list.
 */
module TupleAnalysis {

  /** `sum(numbers)`. */
  function Sum(xs: seq<int>): int {
    if xs == [] then 0 else xs[0] + Sum(xs[1..])
  }

  /** `min(numbers)`: an element of the list that no element is below. */
  function Min(xs: seq<int>): (m: int)
    requires xs != []
    ensures m in xs
    ensures forall k :: 0 <= k < |xs| ==> m <= xs[k]
  {
    if |xs| == 1 then xs[0]
    else
      var rest := Min(xs[1..]);
      if xs[0] <= rest then xs[0] else rest
  }

  /** `max(numbers)`: an element of the list that no element is above. */
  function Max(xs: seq<int>): (m: int)
    requires xs != []
    ensures m in xs
    ensures forall k :: 0 <= k < |xs| ==> xs[k] <= m
  {
    if |xs| == 1 then xs[0]
    else
      var rest := Max(xs[1..]);
      if xs[0] >= rest then xs[0] else rest
  }

  /** `analyze_numbers(numbers)`: minimum, maximum, total and count, or all zeros for no numbers. */
  function AnalyzeNumbers(numbers: seq<int>): (r: (int, int, int, int))
    ensures numbers == [] ==> r == (0, 0, 0, 0)
    ensures numbers != [] ==> r.0 in numbers && r.1 in numbers
    ensures forall k :: 0 <= k < |numbers| ==> r.0 <= numbers[k] <= r.1
    ensures r.3 == |numbers|
  {
    if numbers == [] then (0, 0, 0, 0)
    else (Min(numbers), Max(numbers), Sum(numbers), |numbers|)
  }

  /** A total of numbers between `lo` and `hi` lies between `count * lo` and `count * hi`. */
  lemma {:induction false} SumBounds(xs: seq<int>, lo: int, hi: int)
    requires forall k :: 0 <= k < |xs| ==> lo <= xs[k] <= hi
    ensures |xs| * lo <= Sum(xs) <= |xs| * hi
  {
    if xs != [] {
      SumBounds(xs[1..], lo, hi);
      assert |xs| * lo == (|xs| - 1) * lo + lo;
      assert |xs| * hi == (|xs| - 1) * hi + hi;
    }
  }

  /**
   * The four results are consistent: the minimum is at most the maximum, and
   * the total lies between `count * min` and `count * max`, so the average the
   * guide prints lies between the minimum and the maximum.
   */
  lemma AnalysisBounds(numbers: seq<int>)
    ensures AnalyzeNumbers(numbers).0 <= AnalyzeNumbers(numbers).1
    ensures AnalyzeNumbers(numbers).3 * AnalyzeNumbers(numbers).0 <= AnalyzeNumbers(numbers).2
    ensures AnalyzeNumbers(numbers).2 <= AnalyzeNumbers(numbers).3 * AnalyzeNumbers(numbers).1
  {
    if numbers != [] {
      var r := AnalyzeNumbers(numbers);
      assert r.0 <= numbers[0] <= r.1;
      SumBounds(numbers, r.0, r.1);
    }
  }

  lemma {:induction false} SumConcat(a: seq<int>, b: seq<int>)
    ensures Sum(a + b) == Sum(a) + Sum(b)
  {
    if a == [] {
      assert a + b == b;
    } else {
      assert (a + b)[1..] == a[1..] + b;
      SumConcat(a[1..], b);
    }
  }

  /** Taking out the element at `j` takes its value off the total. */
  lemma SumRemove(b: seq<int>, j: nat)
    requires j < |b|
    ensures Sum(b) == b[j] + Sum(b[..j] + b[j + 1..])
  {
    var front, back := b[..j], b[j + 1..];
    var mid := [b[j]] + back;
    assert b == front + mid;
    assert mid[0] == b[j] && mid[1..] == back;
    SumConcat(front, mid);
    SumConcat(front, back);
  }

  /** The total does not depend on the order of the numbers. */
  lemma {:induction false} SumPermutation(a: seq<int>, b: seq<int>)
    requires multiset(a) == multiset(b)
    ensures Sum(a) == Sum(b)
    decreases |a|
  {
    if a == [] {
      assert |b| == |multiset(b)| == 0;
    } else {
      var j := Position(b, a[0]);
      var rest := b[..j] + b[j + 1..];
      assert multiset(a[1..]) == multiset(rest) by {
        MultisetRemove(a, 0);
        MultisetRemove(b, j);
        assert a[..0] + a[1..] == a[1..];
      }
      SumPermutation(a[1..], rest);
      SumRemove(b, j);
    }
  }

  /** A position of `y` in a list whose multiset holds it. */
  function Position(b: seq<int>, y: int): (j: nat)
    requires y in multiset(b)
    ensures j < |b| && b[j] == y
  {
    if b[0] == y then 0
    else
      assert multiset(b) == multiset{b[0]} + multiset(b[1..]) by {
        assert b == [b[0]] + b[1..];
      }
      1 + Position(b[1..], y)
  }

  /** Taking out the element at `j` takes one copy of it out of the multiset. */
  lemma MultisetRemove(b: seq<int>, j: nat)
    requires j < |b|
    ensures multiset(b[..j] + b[j + 1..]) == multiset(b) - multiset{b[j]}
  {
    assert b == b[..j] + [b[j]] + b[j + 1..];
    assert multiset(b) == multiset(b[..j]) + multiset{b[j]} + multiset(b[j + 1..]);
  }

  /** Lists with the same numbers, counted with multiplicity, hold the same values. */
  lemma SameMembers(a: seq<int>, b: seq<int>)
    requires multiset(a) == multiset(b)
    ensures forall y :: y in a <==> y in b
  {
    forall y ensures y in a <==> y in b {
      assert y in a <==> y in multiset(a);
      assert y in b <==> y in multiset(b);
    }
  }

  /** Lists holding the same values have the same minimum and maximum. */
  lemma SameBounds(a: seq<int>, b: seq<int>)
    requires a != [] && b != []
    requires forall y :: y in a <==> y in b
    ensures Min(a) == Min(b) && Max(a) == Max(b)
  {
    var i :| 0 <= i < |a| && a[i] == Min(b);
    var j :| 0 <= j < |b| && b[j] == Min(a);
    var k :| 0 <= k < |a| && a[k] == Max(b);
    var l :| 0 <= l < |b| && b[l] == Max(a);
  }

  /** The four results do not depend on the order of the numbers. */
  lemma AnalysisPermutation(a: seq<int>, b: seq<int>)
    requires multiset(a) == multiset(b)
    ensures AnalyzeNumbers(a) == AnalyzeNumbers(b)
  {
    assert |a| == |multiset(a)| == |multiset(b)| == |b|;
    if a != [] {
      SumPermutation(a, b);
      SameMembers(a, b);
      SameBounds(a, b);
    }
  }

  /** The guide's data `[10, 5, 8, 3, 15, 12]` gives minimum 3, maximum 15, total 53 and count 6. */
  lemma AnalysisExample()
    ensures AnalyzeNumbers([10, 5, 8, 3, 15, 12]) == (3, 15, 53, 6)
  {
    var data := [10, 5, 8, 3, 15, 12];
    assert data[3] == 3 && data[4] == 15;
    Extremes(data, 3, 15);
  }

  /** A list value that no element is below is the minimum, and one that no element is above is the maximum. */
  lemma Extremes(xs: seq<int>, lo: int, hi: int)
    requires lo in xs && hi in xs
    requires forall k :: 0 <= k < |xs| ==> lo <= xs[k] <= hi
    ensures Min(xs) == lo && Max(xs) == hi
  {
    var i :| 0 <= i < |xs| && xs[i] == lo;
    var j :| 0 <= j < |xs| && xs[j] == hi;
    var m :| 0 <= m < |xs| && xs[m] == Min(xs);
    var n :| 0 <= n < |xs| && xs[n] == Max(xs);
  }
}
