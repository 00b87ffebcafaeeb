/** The median of the last block times, and why it never goes back along an accepted chain.
    (src/main.h, CBlockIndex::GetMedianTimePast; src/main.cpp, CBlock::AcceptBlock) */
module MedianTime {

  const MEDIAN_TIME_SPAN := 99

  // ---------- sorting ----------

  predicate Sorted(s: seq<int>) {
    forall i, j :: 0 <= i < j < |s| ==> s[i] <= s[j]
  }

  function Insert(x: int, s: seq<int>): seq<int> {
    if |s| == 0 || x <= s[0] then [x] + s else [s[0]] + Insert(x, s[1..])
  }

  /** The sorted rearrangement of s. */
  function Sort(s: seq<int>): seq<int> {
    if |s| == 0 then [] else Insert(s[0], Sort(s[1..]))
  }

  /** How many elements are below m. */
  function Below(s: seq<int>, m: int): nat {
    if |s| == 0 then 0 else (if s[0] < m then 1 else 0) + Below(s[1..], m)
  }

  lemma {:induction false} InsertFacts(x: int, s: seq<int>, m: int)
    requires Sorted(s)
    ensures Sorted(Insert(x, s)) && |Insert(x, s)| == |s| + 1
    ensures Below(Insert(x, s), m) == Below(s, m) + (if x < m then 1 else 0)
    ensures forall y :: y in Insert(x, s) <==> y == x || y in s
  {
    if |s| == 0 || x <= s[0] {
      assert ([x] + s)[1..] == s;
    } else {
      var rest := Insert(x, s[1..]);
      InsertFacts(x, s[1..], m);
      assert ([s[0]] + rest)[1..] == rest;
      assert forall y :: y in s <==> y == s[0] || y in s[1..];
      forall j | 0 <= j < |rest| ensures s[0] <= rest[j] {
        assert rest[j] in rest;
      }
    }
  }

  /** Sorting orders and rearranges: it keeps the length and, for every bound, the number of
      elements below it. */
  lemma {:induction false} SortFacts(s: seq<int>, m: int)
    ensures Sorted(Sort(s)) && |Sort(s)| == |s| && Below(Sort(s), m) == Below(s, m)
    ensures forall y :: y in Sort(s) <==> y in s
  {
    if |s| > 0 {
      SortFacts(s[1..], m);
      InsertFacts(s[0], Sort(s[1..]), m);
      assert forall y :: y in s <==> y == s[0] || y in s[1..];
    }
  }

  /** In a sorted sequence the element at k is at least m exactly if at most k are below m. */
  lemma {:induction false} RankInSorted(s: seq<int>, k: nat, m: int)
    requires Sorted(s) && k < |s|
    ensures s[k] >= m <==> Below(s, m) <= k
  {
    if s[0] >= m {
      NoneBelow(s, m);
    } else if k == 0 {
      assert Below(s, m) >= 1;
    } else {
      RankInSorted(s[1..], k - 1, m);
    }
  }

  lemma {:induction false} NoneBelow(s: seq<int>, m: int)
    requires forall i :: 0 <= i < |s| ==> s[i] >= m
    ensures Below(s, m) == 0
  {
    if |s| > 0 {
      NoneBelow(s[1..], m);
    }
  }

  lemma {:induction false} BelowConcat(a: seq<int>, b: seq<int>, m: int)
    ensures Below(a + b, m) == Below(a, m) + Below(b, m)
  {
    if |a| == 0 {
      assert a + b == b;
    } else {
      BelowConcat(a[1..], b, m);
      assert (a + b)[1..] == a[1..] + b;
    }
  }

  // ---------- the median ----------

  /** The times the median is taken over: the last 99, or all if there are fewer. */
  function Window(times: seq<int>): seq<int> {
    if |times| <= MEDIAN_TIME_SPAN then times else times[|times| - MEDIAN_TIME_SPAN..]
  }

  function Median(times: seq<int>): int
    requires |times| > 0
  {
    SortFacts(Window(times), 0);
    Sort(Window(times))[|Window(times)| / 2]
  }

  /** The median is a time of the window, at least m exactly if at most half of the window is
      below m. */
  lemma MedianIsMiddle(times: seq<int>, m: int)
    requires |times| > 0
    ensures Median(times) in Window(times)
    ensures Median(times) >= m <==> Below(Window(times), m) <= |Window(times)| / 2
  {
    var w := Window(times);
    SortFacts(w, m);
    RankInSorted(Sort(w), |w| / 2, m);
    assert Sort(w)[|w| / 2] in Sort(w);
  }

  /** Walks back over at most 99 blocks, filling the array from its end. */
  method GetMedianTimePast(times: seq<int>) returns (m: int)
    requires |times| > 0
    ensures m == Median(times)
  {
    hide Sort;
    var pmedian := new int[MEDIAN_TIME_SPAN];
    var pbegin, i := MEDIAN_TIME_SPAN, 0;
    var pindex := |times| - 1;
    while i < MEDIAN_TIME_SPAN && pindex >= 0
      invariant 0 <= i <= MEDIAN_TIME_SPAN && pbegin == MEDIAN_TIME_SPAN - i && pindex == |times| - 1 - i && pindex >= -1
      invariant forall j :: pbegin <= j < MEDIAN_TIME_SPAN ==> pmedian[j] == times[|times| - MEDIAN_TIME_SPAN + j]
    {
      pbegin := pbegin - 1;
      pmedian[pbegin] := times[pindex];
      i, pindex := i + 1, pindex - 1;
    }
    assert pmedian[pbegin..] == Window(times);
    var sorted := Sort(pmedian[pbegin..]);
    SortFacts(Window(times), 0);
    m := sorted[|sorted| / 2];
  }

  /** A block later than the median of its chain does not lower the median. */
  lemma LaterBlockKeepsMedian(times: seq<int>, t: int)
    requires |times| > 0 && t > Median(times)
    ensures Median(times + [t]) >= Median(times)
  {
    hide Median, Below, Sort;
    var m := Median(times);
    var w, next := Window(times), Window(times + [t]);
    MedianIsMiddle(times, m);
    MedianIsMiddle(times + [t], m);
    NoneBelow([t], m);
    if |times| < MEDIAN_TIME_SPAN {
      assert next == w + [t];
      BelowConcat(w, [t], m);
    } else {
      // the oldest time leaves the window
      assert w == w[..1] + w[1..];
      assert next == w[1..] + [t];
      BelowConcat(w[..1], w[1..], m);
      BelowConcat(w[1..], [t], m);
    }
  }

  /** Every block after the first passed the timestamp check against its parent. */
  ghost predicate Accepted(times: seq<int>) {
    forall k :: 0 < k < |times| ==> times[k] > Median(times[..k])
  }

  /** Along an accepted chain the median never decreases. */
  lemma {:induction false} MedianNeverDecreases(times: seq<int>, i: nat, j: nat)
    requires Accepted(times) && 0 < i <= j <= |times|
    ensures Median(times[..i]) <= Median(times[..j])
    decreases j
  {
    hide Median;
    if i < j {
      MedianNeverDecreases(times, i, j - 1);
      LaterBlockKeepsMedian(times[..j - 1], times[j - 1]);
      assert times[..j - 1] + [times[j - 1]] == times[..j];
    }
  }

  /** So every block is later than the median at each of its ancestors. */
  lemma LaterThanEveryMedian(times: seq<int>, i: nat, j: nat)
    requires Accepted(times) && 0 < i <= j < |times|
    ensures times[j] > Median(times[..i])
  {
    hide Median;
    MedianNeverDecreases(times, i, j);
  }
}
