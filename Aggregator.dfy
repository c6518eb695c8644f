/**
 * The statistics the background worker computes over one window of
 * durations (LogEventLatency.logEventtime, calculateAverage, getMedian):
 * maximum, minimum, average and median.
 */
module Aggregator {
  import opened Basics
  import opened Text

  // ---------------------------------------------------------------- max, min

  /** Collections.max on a non-empty list. */
  function MaxOf(s: seq<int>): (m: int)
    requires s != []
    ensures m in s
    ensures forall i :: 0 <= i < |s| ==> s[i] <= m
  {
    if |s| == 1 then s[0]
    else
      var rest := MaxOf(s[1..]);
      if s[0] >= rest then s[0] else rest
  }

  /** Collections.min on a non-empty list. */
  function MinOf(s: seq<int>): (m: int)
    requires s != []
    ensures m in s
    ensures forall i :: 0 <= i < |s| ==> m <= s[i]
  {
    if |s| == 1 then s[0]
    else
      var rest := MinOf(s[1..]);
      if s[0] <= rest then s[0] else rest
  }

  // ---------------------------------------------------------------- average

  /** Sum of the durations, accumulated from the front as calculateAverage does. */
  function Sum(s: seq<int>): int
  {
    if s == [] then 0 else Sum(s[..|s| - 1]) + s[|s| - 1]
  }

  /** The average calculateAverage promises: sum / size, and 0 for an empty list. */
  function Mean(s: seq<int>): real
  {
    if s == [] then 0.0 else Sum(s) as real / |s| as real
  }

  /** calculateAverage: a running sum over the list, divided by its size when it is non-empty. */
  method CalculateAverage(list: seq<int>) returns (avg: real)
    ensures avg == Mean(list)
  {
    var sum := 0.0;
    if list != [] {
      for i := 0 to |list|
        invariant sum == Sum(list[..i]) as real
      {
        assert list[..i + 1][..i] == list[..i];
        sum := sum + list[i] as real;
      }
      assert list[..|list|] == list;
      return sum / |list| as real;
    }
    return sum;
  }

  lemma {:induction false} SumBounds(s: seq<int>, lo: int, hi: int)
    requires forall i :: 0 <= i < |s| ==> lo <= s[i] <= hi
    ensures |s| * lo <= Sum(s) <= |s| * hi
  {
    if s != [] {
      SumBounds(s[..|s| - 1], lo, hi);
    }
  }

  /** The average of a non-empty list lies between its minimum and its maximum. */
  lemma MeanBounds(s: seq<int>)
    requires s != []
    ensures MinOf(s) as real <= Mean(s) <= MaxOf(s) as real
  {
    var lo, hi, n, total := MinOf(s), MaxOf(s), |s|, Sum(s);
    SumBounds(s, lo, hi);
    QuotientBounds(total, n, lo, hi);
  }

  /** Division by a positive count keeps a total's per-element bounds. */
  lemma QuotientBounds(total: int, n: int, lo: int, hi: int)
    requires n > 0 && n * lo <= total <= n * hi
    ensures lo as real <= total as real / n as real <= hi as real
  {
    var below, above := n * lo, n * hi;
    assert below as real == n as real * lo as real;
    assert above as real == n as real * hi as real;
    var q := total as real / n as real;
    assert q * n as real == total as real;
  }

  // ---------------------------------------------------------------- sorting

  ghost predicate Sorted(s: seq<int>)
  {
    forall i, j :: 0 <= i < j < |s| ==> s[i] <= s[j]
  }

  /** Places x into an ascending list, before the first element it does not exceed. */
  function Insert(x: int, s: seq<int>): seq<int>
  {
    if s == [] then [x]
    else if x <= s[0] then [x] + s
    else [s[0]] + Insert(x, s[1..])
  }

  /** The ascending rearrangement Collections.sort produces, as a function. */
  function SortSeq(s: seq<int>): seq<int>
  {
    if s == [] then [] else Insert(s[0], SortSeq(s[1..]))
  }

  lemma {:induction false} InsertLowerBound(x: int, s: seq<int>, lo: int)
    requires lo <= x && forall i :: 0 <= i < |s| ==> lo <= s[i]
    ensures forall i :: 0 <= i < |Insert(x, s)| ==> lo <= Insert(x, s)[i]
  {
    if s != [] && x > s[0] {
      InsertLowerBound(x, s[1..], lo);
    }
  }

  lemma {:induction false} InsertMultiset(x: int, s: seq<int>)
    ensures multiset(Insert(x, s)) == multiset(s) + multiset{x}
  {
    if s != [] && x > s[0] {
      InsertMultiset(x, s[1..]);
      assert s == [s[0]] + s[1..];
    }
  }

  /** A lower bound of an ascending list can be put in front of it. */
  lemma ConsSorted(head: int, tail: seq<int>)
    requires Sorted(tail)
    requires forall i :: 0 <= i < |tail| ==> head <= tail[i]
    ensures Sorted([head] + tail)
  {
    var r := [head] + tail;
    forall i, j | 0 <= i < j < |r|
      ensures r[i] <= r[j]
    {
      assert r[j] == tail[j - 1];
      if i > 0 {
        assert r[i] == tail[i - 1];
      }
    }
  }

  lemma {:induction false} InsertKeepsOrder(x: int, s: seq<int>)
    requires Sorted(s)
    ensures Sorted(Insert(x, s))
    ensures multiset(Insert(x, s)) == multiset(s) + multiset{x}
  {
    InsertMultiset(x, s);
    if s == [] {
    } else if x <= s[0] {
      assert forall i :: 0 <= i < |s| ==> x <= s[i];
      ConsSorted(x, s);
    } else {
      InsertKeepsOrder(x, s[1..]);
      InsertLowerBound(x, s[1..], s[0]);
      ConsSorted(s[0], Insert(x, s[1..]));
    }
  }

  /** SortSeq yields an ascending rearrangement of its input. */
  lemma {:induction false} SortSeqSorts(s: seq<int>)
    ensures Sorted(SortSeq(s))
    ensures multiset(SortSeq(s)) == multiset(s)
  {
    if s != [] {
      SortSeqSorts(s[1..]);
      InsertKeepsOrder(s[0], SortSeq(s[1..]));
      assert s == [s[0]] + s[1..];
    }
  }

  /** Two ascending lists with the same elements are the same list. */
  lemma {:induction false} SortedUnique(a: seq<int>, b: seq<int>)
    requires Sorted(a) && Sorted(b)
    requires multiset(a) == multiset(b)
    ensures a == b
  {
    if a != [] {
      assert |b| == |multiset(b)| == |multiset(a)| == |a|;
      assert a[0] in multiset(b);
      assert b[0] in multiset(a);
      assert a[0] == b[0];
      assert a == [a[0]] + a[1..];
      assert b == [b[0]] + b[1..];
      assert multiset(a[1..]) == multiset(a) - multiset{a[0]};
      assert multiset(b[1..]) == multiset(b) - multiset{b[0]};
      SortedUnique(a[1..], b[1..]);
    } else {
      assert |b| == |multiset(b)| == 0;
    }
  }

  /** Exchanges two neighbouring elements. */
  method SwapDown(a: array<int>, j: int)
    requires 0 < j < a.Length
    modifies a
    ensures a[j - 1] == old(a[j]) && a[j] == old(a[j - 1])
    ensures forall k :: 0 <= k < a.Length && k != j - 1 && k != j ==> a[k] == old(a[k])
    ensures multiset(a[..]) == multiset(old(a[..]))
  {
    a[j - 1], a[j] := a[j], a[j - 1];
  }

  /** Collections.sort: sorts the list in place (an insertion sort here). */
  method SortInPlace(a: array<int>)
    modifies a
    ensures Sorted(a[..])
    ensures multiset(a[..]) == multiset(old(a[..]))
  {
    if a.Length == 0 {
      return;
    }
    var i := 1;
    while i < a.Length
      invariant 1 <= i <= a.Length
      invariant Sorted(a[..i])
      invariant multiset(a[..]) == multiset(old(a[..]))
    {
      var j := i;
      while j > 0 && a[j - 1] > a[j]
        invariant 0 <= j <= i
        invariant forall p, q :: 0 <= p < q <= i && q != j ==> a[p] <= a[q]
        invariant 0 < j < i ==> a[j - 1] <= a[j + 1]
        invariant multiset(a[..]) == multiset(old(a[..]))
      {
        SwapDown(a, j);
        j := j - 1;
      }
      i := i + 1;
    }
  }

  // ---------------------------------------------------------------- median

  /** Java's long division by two, which truncates toward zero. */
  function TruncHalf(x: int): (r: int)
    ensures x >= 0 ==> 2 * r <= x <= 2 * r + 1
    ensures x < 0 ==> 2 * r - 1 <= x <= 2 * r
  {
    if x >= 0 then x / 2 else -((-x) / 2)
  }

  /**
   * getMedian on a list it has already sorted: the middle element for an odd
   * size, the truncated average of the two middle elements for an even size;
   * an empty list fails at get(0).
   */
  function MedianOfSorted(t: seq<int>): Result<int>
  {
    if |t| == 0 then Err(IndexOutOfBounds)
    else if |t| % 2 == 0 then Ok(TruncHalf(t[|t| / 2] + t[|t| / 2 - 1]))
    else Ok(t[|t| / 2])
  }

  /** The median getMedian reports for a list, whatever its order. */
  function Median(s: seq<int>): Result<int>
  {
    MedianOfSorted(SortSeq(s))
  }

  /** getMedian: sorts its list in place, then reads the middle. */
  method GetMedian(list: array<int>) returns (middle: Result<int>)
    modifies list
    ensures Sorted(list[..]) && multiset(list[..]) == multiset(old(list[..]))
    ensures list[..] == SortSeq(old(list[..]))
    ensures middle == Median(old(list[..]))
  {
    ghost var before := list[..];
    SortInPlace(list);
    ghost var sorted := list[..];
    SortSeqSorts(before);
    SortedUnique(sorted, SortSeq(before));
    var n := list.Length;
    if n == 0 {
      return Err(IndexOutOfBounds);
    }
    if n % 2 == 0 {
      middle := Ok(TruncHalf(list[n / 2] + list[n / 2 - 1]));
    } else {
      middle := Ok(list[n / 2]);
    }
    assert middle == MedianOfSorted(sorted);
  }

  /** The truncated mean of two ordered values lies between them. */
  lemma TruncHalfBetween(a: int, b: int)
    requires a <= b
    ensures a <= TruncHalf(a + b) <= b
  {
  }

  /** An element of one list is an element of any rearrangement of it. */
  lemma MemberOfRearrangement(v: int, s: seq<int>, t: seq<int>)
    requires multiset(s) == multiset(t) && v in s
    ensures exists k :: 0 <= k < |t| && t[k] == v
  {
    assert v in multiset(s);
    assert v in t;
  }

  /** The first and last elements of the sorted list are the minimum and the maximum. */
  lemma SortedEnds(s: seq<int>)
    requires s != []
    ensures |SortSeq(s)| == |s|
    ensures SortSeq(s)[0] == MinOf(s) && SortSeq(s)[|s| - 1] == MaxOf(s)
  {
    var t := SortSeq(s);
    SortSeqSorts(s);
    assert |t| == |multiset(t)| == |multiset(s)| == |s|;
    SortedFirstIsMin(s, t);
    SortedLastIsMax(s, t);
  }

  lemma SortedFirstIsMin(s: seq<int>, t: seq<int>)
    requires s != [] && |t| == |s| && Sorted(t) && multiset(s) == multiset(t)
    ensures t[0] == MinOf(s)
  {
    var lo := MinOf(s);
    MemberOfRearrangement(t[0], t, s);
    MemberOfRearrangement(lo, s, t);
    var a :| 0 <= a < |s| && s[a] == t[0];
    var i :| 0 <= i < |t| && t[i] == lo;
    assert t[0] <= t[i];
  }

  lemma SortedLastIsMax(s: seq<int>, t: seq<int>)
    requires s != [] && |t| == |s| && Sorted(t) && multiset(s) == multiset(t)
    ensures t[|t| - 1] == MaxOf(s)
  {
    var hi := MaxOf(s);
    MemberOfRearrangement(t[|t| - 1], t, s);
    MemberOfRearrangement(hi, s, t);
    var b :| 0 <= b < |s| && s[b] == t[|t| - 1];
    var j :| 0 <= j < |t| && t[j] == hi;
    assert t[j] <= t[|t| - 1];
  }

  /** The median of a non-empty list lies between its minimum and its maximum. */
  lemma MedianBounds(s: seq<int>)
    requires s != []
    ensures Median(s).Ok?
    ensures MinOf(s) <= Median(s).value <= MaxOf(s)
  {
    var t := SortSeq(s);
    SortedEnds(s);
    SortSeqSorts(s);
    var n := |t|;
    if n % 2 == 0 {
      TruncHalfBetween(t[n / 2 - 1], t[n / 2]);
    }
  }

  /** The median does not depend on the order of the list it is computed from. */
  lemma MedianIgnoresOrder(s: seq<int>, s': seq<int>)
    requires multiset(s) == multiset(s')
    ensures Median(s) == Median(s')
  {
    SortSeqSorts(s);
    SortSeqSorts(s');
    SortedUnique(SortSeq(s), SortSeq(s'));
  }

  /**
   * getMedian's even-size tie-break: the two middle elements of the sorted
   * list averaged with Java's truncating division, toward zero for negative sums.
   */
  lemma EvenMedianExamples()
    ensures Median([4, 1, 3, 2]) == Ok(2)
    ensures Median([0, -3]) == Ok(-1)
  {
    var s := [4, 1, 3, 2];
    assert s[1..] == [1, 3, 2] && s[1..][1..] == [3, 2] && s[1..][1..][1..] == [2];
    assert SortSeq([2]) == [2];
    assert SortSeq([3, 2]) == [2, 3];
    assert SortSeq([1, 3, 2]) == [1, 2, 3];
    assert SortSeq(s) == [1, 2, 3, 4];
    var t := [0, -3];
    assert t[1..] == [-3];
    assert SortSeq([-3]) == [-3];
    assert SortSeq(t) == [-3, 0];
  }

  // ---------------------------------------------------------------- summary

  /** One report row's values: window start and end, then max, min, avg, median. */
  datatype Summary = Summary(start: int, end: int, max: int, min: int, avg: real, median: int)

  /**
   * How timestamps and doubles are rendered as text (Timestamp.toString and
   * Double.toString); they are inputs to this model.
   */
  datatype Formats = Formats(stamp: int -> string, decimal: real -> string)

  /** What logEventtime computes for a window; an empty list fails at Collections.max. */
  function Summarize(durations: seq<int>, start: int, end: int): Result<Summary>
  {
    if durations == [] then Err(NoSuchElement)
    else Ok(Summary(start, end, MaxOf(durations), MinOf(durations), Mean(durations),
                    Median(durations).value))
  }

  /** The six text fields of a report row, in the order logEventtime puts them. */
  function Fields(s: Summary, fmt: Formats): (r: seq<string>)
  {
    [fmt.stamp(s.start), fmt.stamp(s.end), LongToString(s.max), LongToString(s.min),
     fmt.decimal(s.avg), LongToString(s.median)]
  }

  /** Every summary of a non-empty window is ordered: min <= median <= max, min <= avg <= max. */
  lemma SummaryBounds(durations: seq<int>, start: int, end: int)
    requires durations != []
    ensures Summarize(durations, start, end).Ok?
    ensures var s := Summarize(durations, start, end).value;
      s.min <= s.median <= s.max && s.min as real <= s.avg <= s.max as real
  {
    MedianBounds(durations);
    MeanBounds(durations);
  }

  /**
   * logEventtime: max and min of the list (failing on an empty one), its
   * average, then its median, which leaves the list sorted; the results
   * rendered as the six fields of a report row.
   */
  method LogEventTime(list: array<int>, eventStart: int, eventEnd: int, fmt: Formats)
    returns (r: Result<seq<string>>)
    modifies list
    ensures list[..] == SortSeq(old(list[..]))
    ensures match Summarize(old(list[..]), eventStart, eventEnd)
      case Ok(s) => r == Ok(Fields(s, fmt))
      case Err(e) => r == Err(e)
  {
    if list.Length == 0 {
      return Err(NoSuchElement);
    }
    var max := MaxOf(list[..]);
    var min := MinOf(list[..]);
    var avg := CalculateAverage(list[..]);
    var middle := GetMedian(list);
    MedianBounds(old(list[..]));
    var summary := Summary(eventStart, eventEnd, max, min, avg, middle.value);
    r := Ok(Fields(summary, fmt));
  }
}
