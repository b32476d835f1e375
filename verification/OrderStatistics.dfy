/** The upper median, the median absolute deviation, and how much contamination they withstand. */
module OrderStatistics {
  import opened Common

  ghost predicate Sorted(s: seq<u64>) { forall i, j :: 0 <= i < j < |s| ==> s[i] <= s[j] }

  function InsertSorted(v: u64, s: seq<u64>): (r: seq<u64>)
    ensures |r| == |s| + 1
  {
    if s == [] || v <= s[0] then [v] + s else [s[0]] + InsertSorted(v, s[1..])
  }

  function Sort(s: seq<u64>): (r: seq<u64>)
    ensures |r| == |s|
  {
    if s == [] then [] else InsertSorted(s[0], Sort(s[1..]))
  }

  function UpperMedian(s: seq<u64>): u64
    requires s != []
  {
    Sort(s)[|s| / 2]
  }

  function AbsDiff(a: u64, b: u64): u64 { if a < b then b - a else a - b }

  function Deviations(s: seq<u64>, center: u64): (r: seq<u64>)
    ensures |r| == |s|
  {
    if s == [] then [] else [AbsDiff(s[0], center)] + Deviations(s[1..], center)
  }

  function MedianAbsoluteDeviation(s: seq<u64>): u64
    requires s != []
  {
    UpperMedian(Deviations(s, UpperMedian(s)))
  }

  // ---------------------------------------------------------------- counting

  function CountBelow(s: seq<u64>, x: int): (n: nat)
    ensures n <= |s|
  {
    if s == [] then 0 else (if s[0] < x then 1 else 0) + CountBelow(s[1..], x)
  }

  function Outliers(s: seq<u64>, lo: int, hi: int): (n: nat)
    ensures n <= |s|
  {
    if s == [] then 0 else (if lo <= s[0] <= hi then 0 else 1) + Outliers(s[1..], lo, hi)
  }

  lemma {:induction false} InsertSortedSorts(v: u64, s: seq<u64>)
    requires Sorted(s)
    ensures Sorted(InsertSorted(v, s))
    ensures forall k :: 0 <= k < |s| + 1 ==> InsertSorted(v, s)[k] == v || InsertSorted(v, s)[k] in s
  {
    if s != [] && v > s[0] {
      InsertSortedSorts(v, s[1..]);
      var rest := InsertSorted(v, s[1..]);
      forall k | 0 <= k < |rest|
        ensures s[0] <= rest[k]
      {
        assert rest[k] == v || rest[k] in s[1..];
      }
    }
  }

  lemma {:induction false} InsertSortedCounts(v: u64, s: seq<u64>, x: int)
    ensures CountBelow(InsertSorted(v, s), x) == (if v < x then 1 else 0) + CountBelow(s, x)
  {
    if s == [] || v <= s[0] {
      assert ([v] + s)[1..] == s;
    } else {
      InsertSortedCounts(v, s[1..], x);
      assert ([s[0]] + InsertSorted(v, s[1..]))[1..] == InsertSorted(v, s[1..]);
    }
  }

  lemma {:induction false} SortSorts(s: seq<u64>)
    ensures Sorted(Sort(s))
  {
    if s != [] {
      SortSorts(s[1..]);
      InsertSortedSorts(s[0], Sort(s[1..]));
    }
  }

  lemma {:induction false} SortCounts(s: seq<u64>, x: int)
    ensures CountBelow(Sort(s), x) == CountBelow(s, x)
  {
    if s != [] {
      SortCounts(s[1..], x);
      InsertSortedCounts(s[0], Sort(s[1..]), x);
    }
  }

  lemma {:induction false} NoneBelow(s: seq<u64>, x: int)
    requires forall k :: 0 <= k < |s| ==> s[k] >= x
    ensures CountBelow(s, x) == 0
  {
    if s != [] {
      NoneBelow(s[1..], x);
    }
  }

  lemma {:induction false} RankInSorted(t: seq<u64>, k: nat)
    requires Sorted(t) && k < |t|
    ensures CountBelow(t, t[k]) <= k < CountBelow(t, t[k] as int + 1)
  {
    if k == 0 {
      NoneBelow(t, t[0]);
    } else {
      RankInSorted(t[1..], k - 1);
    }
  }

  /** `m` is an upper median: at most half lie below it, more than half lie at or below it. */
  ghost predicate IsUpperMedian(s: seq<u64>, m: int) {
    CountBelow(s, m) <= |s| / 2 < CountBelow(s, m + 1)
  }

  lemma {:induction false} CountsGrow(s: seq<u64>, x: int, y: int)
    requires x <= y
    ensures CountBelow(s, x) <= CountBelow(s, y)
  {
    if s != [] {
      CountsGrow(s[1..], x, y);
    }
  }

  /** The sorted-index computation yields the upper median, and no other value is one. */
  lemma UpperMedianIsTheMedian(s: seq<u64>, m: int)
    requires s != []
    ensures IsUpperMedian(s, m) <==> m == UpperMedian(s)
  {
    var u: int := UpperMedian(s);
    SortSorts(s);
    SortCounts(s, u);
    SortCounts(s, u + 1);
    RankInSorted(Sort(s), |s| / 2);
    if m < u {
      CountsGrow(s, m + 1, u);
    } else if u < m {
      CountsGrow(s, u + 1, m);
    }
  }

  lemma {:induction false} OutliersCount(s: seq<u64>, lo: int, hi: int)
    requires lo <= hi + 1
    ensures Outliers(s, lo, hi) == CountBelow(s, lo) + |s| - CountBelow(s, hi + 1)
  {
    if s != [] {
      OutliersCount(s[1..], lo, hi);
    }
  }

  /** While fewer than half of the values lie outside a range, the upper median lies inside it. */
  lemma MedianWithstands(s: seq<u64>, lo: int, hi: int)
    requires s != [] && lo <= hi && 2 * Outliers(s, lo, hi) < |s|
    ensures lo <= UpperMedian(s) <= hi
  {
    var m: int := UpperMedian(s);
    UpperMedianIsTheMedian(s, m);
    OutliersCount(s, lo, hi);
    CountsGrow(s, m + 1, Max(m + 1, lo));
    CountsGrow(s, Min(m, hi + 1), m);
    CountsGrow(s, lo, hi + 1);
  }

  lemma {:induction false} DeviationOutliers(s: seq<u64>, lo: int, hi: int, center: u64)
    requires lo <= center <= hi
    ensures Outliers(Deviations(s, center), 0, hi - lo) <= Outliers(s, lo, hi)
  {
    if s != [] {
      DeviationOutliers(s[1..], lo, hi, center);
      assert Deviations(s, center)[1..] == Deviations(s[1..], center);
    }
  }

  /** Under the same contamination the median absolute deviation is at most the width of the range. */
  lemma DeviationWithstands(s: seq<u64>, lo: int, hi: int)
    requires s != [] && lo <= hi && 2 * Outliers(s, lo, hi) < |s|
    ensures MedianAbsoluteDeviation(s) <= hi - lo
  {
    MedianWithstands(s, lo, hi);
    DeviationOutliers(s, lo, hi, UpperMedian(s));
    MedianWithstands(Deviations(s, UpperMedian(s)), 0, hi - lo);
  }
}
