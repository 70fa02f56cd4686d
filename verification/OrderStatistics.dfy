// Sorted order, ranks and the median absolute deviation, as used by every aggregator.
//
// Python's `sorted` is modelled by `Sort`.  All facts about order statistics go through
// one counting function: the k-th smallest value is at most x exactly when more than k
// values are at most x.
module OrderStatistics {
  import opened Wrappers
  import opened Arithmetic
  import Sorting

  predicate AtMost(x: int, y: int) {
    x <= y
  }

  ghost predicate Sorted(s: seq<int>) {
    Sorting.Sorted(s, AtMost)
  }

  function Indicator(b: bool): nat {
    if b then 1 else 0
  }

  function CountAtMost(s: seq<int>, x: int): (n: nat)
    ensures n <= |s|
  {
    if s == [] then 0 else Indicator(s[0] <= x) + CountAtMost(s[1..], x)
  }

  function Sum(s: seq<int>): int {
    if s == [] then 0 else s[0] + Sum(s[1..])
  }

  function Sort(s: seq<int>): (r: seq<int>)
    ensures |r| == |s|
  {
    Sorting.Sort(s, AtMost)
  }

  lemma {:induction false} InsertSum(x: int, s: seq<int>)
    ensures Sum(Sorting.Insert(x, s, AtMost)) == x + Sum(s)
  {
    if s == [] || x <= s[0] {
      assert ([x] + s)[1..] == s;
    } else {
      InsertSum(x, s[1..]);
      var tail := Sorting.Insert(x, s[1..], AtMost);
      assert ([s[0]] + tail)[1..] == tail;
    }
  }

  lemma {:induction false} SortSum(s: seq<int>)
    ensures Sum(Sort(s)) == Sum(s)
  {
    if s == [] {
    } else {
      SortSum(s[1..]);
      InsertSum(s[0], Sort(s[1..]));
    }
  }

  // `Sort` is the sorted permutation.
  lemma {:induction false} SortSorts(s: seq<int>)
    ensures Sorted(Sort(s)) && multiset(Sort(s)) == multiset(s) && Sum(Sort(s)) == Sum(s)
  {
    Sorting.SortSorts(s, AtMost);
    Sorting.SortBag(s, AtMost);
    SortSum(s);
  }

  // The upper median: index |s| // 2 of the sorted values.
  function Median(s: seq<int>): int
    requires s != []
  {
    Sort(s)[|s| / 2]
  }

  function Deviations(s: seq<int>, center: int): (d: seq<int>)
    ensures |d| == |s|
    ensures forall i :: 0 <= i < |s| ==> d[i] == Abs(s[i] - center)
  {
    if s == [] then [] else [Abs(s[0] - center)] + Deviations(s[1..], center)
  }

  function Abs(x: int): nat {
    if x < 0 then -x else x
  }

  function MedianAbsoluteDeviation(s: seq<int>): int
    requires s != []
  {
    Median(Deviations(s, Median(s)))
  }

  function Maximum(s: seq<int>): int
    requires s != []
  {
    if |s| == 1 then s[0] else Max(s[0], Maximum(s[1..]))
  }

  lemma {:induction false} MaximumIsGreatest(s: seq<int>, x: int)
    requires s != []
    ensures Maximum(s) <= x <==> CountAtMost(s, x) == |s|
    ensures Maximum(s) in s
  {
    if |s| == 1 {
    } else {
      MaximumIsGreatest(s[1..], x);
    }
  }

  // ----- ranks -----

  lemma {:induction false} InsertCount(x: int, s: seq<int>, y: int)
    ensures CountAtMost(Sorting.Insert(x, s, AtMost), y) == Indicator(x <= y) + CountAtMost(s, y)
  {
    if s == [] || x <= s[0] {
      assert ([x] + s)[1..] == s;
    } else {
      InsertCount(x, s[1..], y);
      var tail := Sorting.Insert(x, s[1..], AtMost);
      assert ([s[0]] + tail)[1..] == tail;
    }
  }

  lemma {:induction false} SortCount(s: seq<int>, y: int)
    ensures CountAtMost(Sort(s), y) == CountAtMost(s, y)
  {
    if s == [] {
    } else {
      SortCount(s[1..], y);
      InsertCount(s[0], Sort(s[1..]), y);
    }
  }

  lemma {:induction false} CountMonotone(s: seq<int>, x: int, y: int)
    requires x <= y
    ensures CountAtMost(s, x) <= CountAtMost(s, y)
  {
    if s == [] {
    } else {
      CountMonotone(s[1..], x, y);
    }
  }

  lemma {:induction false} CountBounds(s: seq<int>, x: int)
    ensures (CountAtMost(s, x) == |s|) <==> (forall i :: 0 <= i < |s| ==> s[i] <= x)
    ensures (CountAtMost(s, x) == 0) <==> (forall i :: 0 <= i < |s| ==> x < s[i])
  {
    if s == [] {
    } else {
      CountBounds(s[1..], x);
      assert forall i :: 0 < i < |s| ==> s[i] == s[1..][i - 1];
    }
  }

  lemma {:induction false} SortedRank(t: seq<int>, k: nat, x: int)
    requires Sorted(t) && k < |t|
    ensures t[k] <= x <==> CountAtMost(t, x) > k
  {
    if k > 0 {
      SortedRank(t[1..], k - 1, x);
    } else if x < t[0] {
      CountBounds(t, x);
    }
  }

  // The k-th smallest value of a list, read as a count.
  lemma {:induction false} RankIsCount(s: seq<int>, k: nat, x: int)
    requires k < |s|
    ensures Sort(s)[k] <= x <==> CountAtMost(s, x) > k
  {
    SortSorts(s);
    SortedRank(Sort(s), k, x);
    SortCount(s, x);
  }

  lemma {:induction false} ValueAtRank(s: seq<int>, k: nat, v: int)
    requires k < |s| && CountAtMost(s, v) > k >= CountAtMost(s, v - 1)
    ensures Sort(s)[k] == v
  {
    RankIsCount(s, k, v);
    RankIsCount(s, k, v - 1);
  }

  // Sorting only looks at how many values lie below each bound.
  lemma {:induction false} SortIsCanonical(s: seq<int>, t: seq<int>)
    requires |s| == |t|
    requires forall x :: CountAtMost(s, x) == CountAtMost(t, x)
    ensures Sort(s) == Sort(t)
  {
    forall k | 0 <= k < |s| ensures Sort(s)[k] == Sort(t)[k] {
      RankIsCount(s, k, Sort(t)[k]); RankIsCount(t, k, Sort(t)[k]);
      RankIsCount(s, k, Sort(s)[k]); RankIsCount(t, k, Sort(s)[k]);
    }
  }

  // Deviations at most x are the values in [center - x, center + x].
  lemma {:induction false} DeviationCount(s: seq<int>, center: int, x: int)
    ensures CountAtMost(Deviations(s, center), x) ==
            if x < 0 then 0 else CountAtMost(s, center + x) - CountAtMost(s, center - x - 1)
  {
    if s == [] {
    } else {
      DeviationCount(s[1..], center, x);
      assert Deviations(s, center)[1..] == Deviations(s[1..], center);
    }
  }

  // A harness that sorts first and an evaluator that does not see the same dispersion.
  lemma {:induction false} DispersionIgnoresOrder(s: seq<int>)
    requires s != []
    ensures Sort(Sort(s)) == Sort(s)
    ensures Median(Sort(s)) == Median(s)
    ensures MedianAbsoluteDeviation(Sort(s)) == MedianAbsoluteDeviation(s)
  {
    forall x ensures CountAtMost(s, x) == CountAtMost(Sort(s), x) { SortCount(s, x); }
    SortIsCanonical(s, Sort(s));
    var c := Median(s);
    forall x ensures CountAtMost(Deviations(s, c), x) == CountAtMost(Deviations(Sort(s), c), x) {
      DeviationCount(s, c, x); DeviationCount(Sort(s), c, x);
      SortCount(s, c + x); SortCount(s, c - x - 1);
    }
    SortIsCanonical(Deviations(s, c), Deviations(Sort(s), c));
  }

  ghost predicate Within(s: seq<int>, low: int, high: int) {
    forall i :: 0 <= i < |s| ==> low <= s[i] <= high
  }

  // Around any center that splits the values evenly, more than half lie within half the range.
  lemma {:induction false} HalfRangeHoldsAMajority(s: seq<int>, center: int, low: int, high: int)
    requires Within(s, low, high) && low <= center <= high
    requires CountAtMost(s, center) > |s| / 2 >= CountAtMost(s, center - 1)
    requires |s| % 2 == 1
    ensures CountAtMost(Deviations(s, center), (high - low) / 2) > |s| / 2
  {
    var half := (high - low) / 2;
    DeviationCount(s, center, half);
    if center - low <= half {
      CountBounds(s, center - half - 1);
      CountMonotone(s, center, center + half);
    } else {
      CountBounds(s, center + half);
      CountMonotone(s, center - half - 1, center - 1);
    }
  }

  lemma {:induction false} RankWithin(s: seq<int>, k: nat, low: int, high: int)
    requires k < |s| && Within(s, low, high)
    ensures low <= Sort(s)[k] <= high
  {
    RankIsCount(s, k, high); CountBounds(s, high);
    RankIsCount(s, k, low - 1); CountBounds(s, low - 1);
  }

  lemma {:induction false} RankSplits(s: seq<int>, k: nat)
    requires k < |s|
    ensures CountAtMost(s, Sort(s)[k]) > k >= CountAtMost(s, Sort(s)[k] - 1)
  {
    var c := Sort(s)[k];
    RankIsCount(s, k, c); RankIsCount(s, k, c - 1);
  }

  lemma {:induction false} MedianWithin(s: seq<int>, low: int, high: int)
    requires s != [] && Within(s, low, high)
    ensures low <= Median(s) <= high
    ensures CountAtMost(s, Median(s)) > |s| / 2 >= CountAtMost(s, Median(s) - 1)
  {
    RankWithin(s, |s| / 2, low, high);
    RankSplits(s, |s| / 2);
  }

  // For an odd number of values twice the median absolute deviation never exceeds the range.
  lemma {:induction false} OddDispersionWithinRange(s: seq<int>, low: int, high: int)
    requires |s| % 2 == 1 && Within(s, low, high)
    ensures 0 <= 2 * MedianAbsoluteDeviation(s) <= high - low
  {
    MedianWithin(s, low, high);
    var c := Median(s);
    var d := Deviations(s, c);
    HalfRangeHoldsAMajority(s, c, low, high);
    RankIsCount(d, |s| / 2, (high - low) / 2);
    RankIsCount(d, |s| / 2, -1);
    DeviationCount(s, c, -1);
  }

  lemma {:induction false} CountConcat(s: seq<int>, t: seq<int>, x: int)
    ensures CountAtMost(s + t, x) == CountAtMost(s, x) + CountAtMost(t, x)
  {
    if s == [] {
      assert s + t == t;
    } else {
      CountConcat(s[1..], t, x);
      assert (s + t)[1..] == s[1..] + t;
    }
  }

  // Half the values low and half high.
  function Split(half: nat, low: int, high: int): (s: seq<int>)
    ensures |s| == 2 * half
    ensures low <= high ==> Within(s, low, high)
  {
    Repeat(low, half) + Repeat(high, half)
  }

  lemma {:induction false} SplitCount(half: nat, low: int, high: int, x: int)
    ensures CountAtMost(Split(half, low, high), x) ==
            (if low <= x then half else 0) + (if high <= x then half else 0)
  {
    var a, b := Repeat(low, half), Repeat(high, half);
    CountConcat(a, b, x); CountBounds(a, x); CountBounds(b, x);
  }

  lemma {:induction false} SplitMedian(half: nat, low: int, high: int)
    requires half > 0 && low < high
    ensures Median(Split(half, low, high)) == high
  {
    SplitCount(half, low, high, high); SplitCount(half, low, high, high - 1);
    ValueAtRank(Split(half, low, high), half, high);
  }

  lemma {:induction false} DispersionFromCounts(s: seq<int>, r: int)
    requires s != [] && r > 0
    requires CountAtMost(s, Median(s) + r) - CountAtMost(s, Median(s) - r - 1) > |s| / 2
    requires CountAtMost(s, Median(s) + r - 1) - CountAtMost(s, Median(s) - r) <= |s| / 2
    ensures MedianAbsoluteDeviation(s) == r
  {
    var c := Median(s);
    DeviationCount(s, c, r); DeviationCount(s, c, r - 1);
    ValueAtRank(Deviations(s, c), |s| / 2, r);
  }

  // For every even number of values the bound fails: the dispersion can reach the whole range.
  lemma {:induction false} EvenDispersionReachesRange(half: nat, low: int, high: int)
    requires half > 0 && low < high
    ensures MedianAbsoluteDeviation(Split(half, low, high)) == high - low
  {
    var s, r := Split(half, low, high), high - low;
    SplitMedian(half, low, high);
    SplitCount(half, low, high, high + r); SplitCount(half, low, high, high + r - 1);
    SplitCount(half, low, high, low - 1); SplitCount(half, low, high, low);
    DispersionFromCounts(s, r);
  }

  // The bound holds for all inputs of a given size exactly when that size is odd.
  lemma {:induction false} DispersionBoundIffOdd(n: nat)
    requires n > 0
    ensures n % 2 == 1 <==>
            forall s: seq<int>, low: int, high: int :: |s| == n && Within(s, low, high)
              ==> 2 * MedianAbsoluteDeviation(s) <= high - low
  {
    if n % 2 == 1 {
      forall s: seq<int>, low: int, high: int | |s| == n && Within(s, low, high)
        ensures 2 * MedianAbsoluteDeviation(s) <= high - low
      {
        OddDispersionWithinRange(s, low, high);
      }
    } else {
      EvenDispersionReachesRange(n / 2, 0, 1);
      assert Within(Split(n / 2, 0, 1), 0, 1);
    }
  }

  // ----- exact readings of the aggregates -----

  // An odd list's median reaches m exactly when a majority of the values do.
  lemma {:induction false} MedianReachesIffMajority(s: seq<int>, m: int)
    requires |s| % 2 == 1
    ensures m <= Median(s) <==> 2 * (|s| - CountAtMost(s, m - 1)) > |s|
    ensures Median(s) <= m <==> 2 * CountAtMost(s, m) > |s|
  {
    RankIsCount(s, |s| / 2, m - 1);
    RankIsCount(s, |s| / 2, m);
  }

  lemma {:induction false} SumWithinBounds(s: seq<int>, low: int, high: int)
    requires Within(s, low, high)
    ensures low * |s| <= Sum(s) <= high * |s|
  {
    if s == [] {
    } else {
      SumWithinBounds(s[1..], low, high);
      assert forall c: int {:trigger c * |s|} :: c * |s| == c + c * |s[1..]|;
    }
  }

  // The dispersion is at most r exactly when more than half of the values, counting from the upper
  // middle, lie within r of the median.
  lemma {:induction false} DispersionMeaning(s: seq<int>, r: int)
    requires s != []
    ensures MedianAbsoluteDeviation(s) <= r <==>
            r >= 0 && CountAtMost(s, Median(s) + r) - CountAtMost(s, Median(s) - r - 1) > |s| / 2
  {
    RankIsCount(Deviations(s, Median(s)), |s| / 2, r);
    DeviationCount(s, Median(s), r);
  }

  lemma {:induction false} SumAdds(s: seq<int>, t: seq<int>)
    ensures Sum(s + t) == Sum(s) + Sum(t)
    ensures forall x :: Sum([x]) == x
  {
    if s == [] {
      assert s + t == t;
    } else {
      SumAdds(s[1..], t);
      assert (s + t)[1..] == s[1..] + t;
    }
    forall x ensures Sum([x]) == x { assert [x][1..] == []; }
  }

  function PlacesAtMost(s: seq<int>, x: int): set<nat> {
    set i | 0 <= i < |s| && s[i] <= x
  }

  // The counts are numbers of places.
  lemma {:induction false} CountIsNumber(s: seq<int>, x: int)
    ensures CountAtMost(s, x) == |PlacesAtMost(s, x)|
  {
    if s == [] {
      assert PlacesAtMost(s, x) == {};
    } else {
      var init, last := s[..|s| - 1], |s| - 1;
      CountIsNumber(init, x);
      CountConcat(init, [s[last]], x);
      assert CountAtMost([s[last]], x) == if s[last] <= x then 1 else 0;
      assert init + [s[last]] == s;
      PlacesNext(s, x);
    }
  }

  lemma {:induction false} PlacesNext(s: seq<int>, x: int)
    requires s != []
    ensures var last := |s| - 1;
            |PlacesAtMost(s, x)| == |PlacesAtMost(s[..last], x)| + if s[last] <= x then 1 else 0
  {
    var last := |s| - 1;
    assert PlacesAtMost(s, x) == PlacesAtMost(s[..last], x) + if s[last] <= x then {last} else {};
  }
}
