/**
 * The signal arithmetic of packages/factory/signals/score.ts over `real`:
 * the median of a series, the growth of its latest point over the median of
 * the earlier ones, and the clamped, weighted scores built from them.
 * IEEE rounding is not modelled; `Math.round` is `JsText.Round`.
 */
module Score {
  import opened JsText
  import opened Seqs

  function Neg(x: real): real { -x }

  /** Sorted by `(x, y) => x - y`, smallest first. */
  predicate Ascending(s: seq<real>) {
    forall i, j :: 0 <= i < j < |s| ==> s[i] <= s[j]
  }

  /** `[...arr].sort((x, y) => x - y)`: a sorted copy; the argument itself is a value and stays as it was. */
  function SortedCopy(arr: seq<real>): (a: seq<real>)
    ensures |a| == |arr| && multiset(a) == multiset(arr)
    ensures Ascending(a)
  {
    var a := SortDesc(arr, Neg);
    assert forall i, j :: 0 <= i < j < |a| ==> Neg(a[i]) >= Neg(a[j]);
    a
  }

  /** `median(arr)`: 0 for no values, else the middle value of the sorted copy or the mean of the two middle ones. */
  function Median(arr: seq<real>): real {
    if |arr| == 0 then 0.0 else Middle(SortedCopy(arr))
  }

  /** The middle value of a list of odd length, the mean of the two middle values of one of even length. */
  function Middle(a: seq<real>): real
    requires a != []
  {
    var m := |a| / 2;
    if |a| % 2 == 1 then a[m] else (a[m - 1] + a[m]) / 2.0
  }

  lemma AscendingHead(s: seq<real>, x: real)
    requires Ascending(s) && x in multiset(s)
    ensures s[0] <= x
  {
    var k :| 0 <= k < |s| && s[k] == x;
    if k > 0 {
      assert s[0] <= s[k];
    }
  }

  lemma AscendingTail(s: seq<real>)
    requires Ascending(s) && s != []
    ensures Ascending(s[1..])
  {
    forall i, j | 0 <= i < j < |s| - 1 ensures s[1..][i] <= s[1..][j] {
      assert s[1..][i] == s[i + 1] && s[1..][j] == s[j + 1];
    }
  }

  lemma MultisetTail<T>(s: seq<T>, t: seq<T>)
    requires s != [] && t != [] && s[0] == t[0]
    requires multiset(s) == multiset(t)
    ensures multiset(s[1..]) == multiset(t[1..])
  {
    MultisetCons(s);
    MultisetCons(t);
    MultisetCancel(multiset(s[1..]), multiset(t[1..]), s[0]);
  }

  lemma MultisetCons<T>(s: seq<T>)
    requires s != []
    ensures multiset(s) == multiset{s[0]} + multiset(s[1..])
  {
    assert s == [s[0]] + s[1..];
  }

  lemma MultisetCancel<T>(a: multiset<T>, b: multiset<T>, x: T)
    requires multiset{x} + a == multiset{x} + b
    ensures a == b
  {
    assert a == (multiset{x} + a) - multiset{x};
    assert b == (multiset{x} + b) - multiset{x};
  }

  /** Two ascending lists with the same elements are the same list. */
  lemma {:induction false} AscendingUnique(s: seq<real>, t: seq<real>)
    requires Ascending(s) && Ascending(t)
    requires multiset(s) == multiset(t)
    ensures s == t
    decreases |s|
  {
    assert |s| == |multiset(s)| == |t|;
    if s != [] {
      AscendingHead(s, t[0]);
      AscendingHead(t, s[0]);
      MultisetTail(s, t);
      AscendingTail(s);
      AscendingTail(t);
      AscendingUnique(s[1..], t[1..]);
      assert s == [s[0]] + s[1..] && t == [t[0]] + t[1..];
    }
  }

  /** Sorting a sorted list changes nothing, so the median of a sorted list is its middle value or the mean of its two middle values. */
  lemma MedianOfSorted(a: seq<real>)
    requires a != [] && Ascending(a)
    ensures Median(a) == Middle(a)
  {
    AscendingUnique(SortedCopy(a), a);
  }

  /** The median does not depend on the order of the values. */
  lemma MedianPermutation(a: seq<real>, b: seq<real>)
    requires multiset(a) == multiset(b)
    ensures Median(a) == Median(b)
  {
    assert |a| == |multiset(a)| == |b|;
    AscendingUnique(SortedCopy(a), SortedCopy(b));
  }

  /** The median of some values lies between two of them, so between their minimum and maximum. */
  lemma MedianBounds(arr: seq<real>)
    requires arr != []
    ensures exists i :: 0 <= i < |arr| && arr[i] <= Median(arr)
    ensures exists j :: 0 <= j < |arr| && Median(arr) <= arr[j]
  {
    var a := SortedCopy(arr);
    var m := |a| / 2;
    var lo := if |a| % 2 == 1 then m else m - 1;
    assert a[lo] <= Median(arr) <= a[m];
    assert a[lo] in multiset(arr) && a[m] in multiset(arr);
    var i :| 0 <= i < |arr| && arr[i] == a[lo];
    var j :| 0 <= j < |arr| && arr[j] == a[m];
  }

  /** The median of one value is that value. */
  lemma MedianSingle(x: real)
    ensures Median([x]) == x
  {
    assert SortedCopy([x]) == [x];
  }

  /** An even example: the mean of the two middle values. */
  lemma MedianEven()
    ensures Median([5.0, 1.0]) == 3.0
  {
    var s := [1.0, 5.0];
    assert multiset([5.0, 1.0]) == multiset(s);
    AscendingUnique(SortedCopy([5.0, 1.0]), s);
  }

  /** `Math.max(1, prev)`. */
  function AtLeastOne(x: real): (r: real)
    ensures r >= 1.0 && r >= x && (r == 1.0 || r == x)
  {
    if x > 1.0 then x else 1.0
  }

  /**
   * `scoreGrowth(series)`: with fewer than two points, the first one (or 0);
   * else the latest point itself when the median of the earlier points is not
   * positive, and otherwise the percentage growth of the latest point over
   * that median, the divisor being at least 1.
   */
  function ScoreGrowth(series: seq<real>): real {
    if |series| < 2 then (if |series| == 1 then series[0] else 0.0)
    else
      GrowthOver(Median(series[..|series| - 1]), series[|series| - 1])
  }

  /** The growth of `latest` over the median `prev` of the points before it. */
  function GrowthOver(prev: real, latest: real): real {
    if prev <= 0.0 then latest else (latest - prev) / AtLeastOne(prev) * 100.0
  }

  /**
   * The three cases of `scoreGrowth`: a short series gives its only point or
   * 0, a non-positive earlier median gives the latest point, and otherwise the
   * percentage change over the median, divided by at least 1.
   */
  lemma GrowthCases(series: seq<real>)
    ensures series == [] ==> ScoreGrowth(series) == 0.0
    ensures |series| == 1 ==> ScoreGrowth(series) == series[0]
    ensures |series| >= 2 && Median(series[..|series| - 1]) <= 0.0 ==> ScoreGrowth(series) == series[|series| - 1]
    ensures |series| >= 2 && Median(series[..|series| - 1]) > 0.0 ==>
      var prev := Median(series[..|series| - 1]);
      ScoreGrowth(series) == (series[|series| - 1] - prev) / (if prev > 1.0 then prev else 1.0) * 100.0
  {
  }

  /** Appending a latest point to earlier points `p` gives the growth over their median. */
  lemma GrowthAppend(p: seq<real>, latest: real)
    requires p != []
    ensures ScoreGrowth(p + [latest]) == GrowthOver(Median(p), latest)
  {
    assert (p + [latest])[..|p|] == p;
  }

  /** A percentage of a positive divisor has the sign of the difference it is taken of. */
  lemma PercentSign(x: real, d: real)
    requires d > 0.0
    ensures (x / d * 100.0 > 0.0 <==> x > 0.0) && (x / d * 100.0 == 0.0 <==> x == 0.0)
  {
    var q := x / d;
    assert q * d == x;
    if x > 0.0 {
      assert q > 0.0;
    } else if x < 0.0 {
      assert q < 0.0;
    }
  }

  /** Growth is positive, zero or negative as the latest point is above, at or below a positive median of the earlier ones. */
  lemma GrowthSign(series: seq<real>)
    requires |series| >= 2 && Median(series[..|series| - 1]) > 0.0
    ensures var prev, latest := Median(series[..|series| - 1]), series[|series| - 1];
      (ScoreGrowth(series) > 0.0 <==> latest > prev)
      && (ScoreGrowth(series) == 0.0 <==> latest == prev)
      && (ScoreGrowth(series) < 0.0 <==> latest < prev)
  {
    var prev, latest := Median(series[..|series| - 1]), series[|series| - 1];
    PercentSign(latest - prev, AtLeastOne(prev));
  }

  /** Growth reads the earlier points only through their median, so their order does not matter. */
  lemma GrowthIgnoresOrder(p: seq<real>, q: seq<real>, latest: real)
    requires multiset(p) == multiset(q)
    ensures ScoreGrowth(p + [latest]) == ScoreGrowth(q + [latest])
  {
    assert |p| == |multiset(p)| == |q|;
    if p != [] {
      GrowthAppend(p, latest);
      GrowthAppend(q, latest);
      MedianPermutation(p, q);
    }
  }

  /** A series that never moves has growth 0, unless its value is not positive, in which case growth is that value. */
  lemma GrowthFlat(x: real)
    ensures ScoreGrowth([x, x]) == if x > 0.0 then 0.0 else x
  {
    assert [x, x][..1] == [x];
    MedianSingle(x);
  }

  /** `Math.max(0, Math.min(100, x))`. */
  function Clamp(x: real): (r: real)
    ensures 0.0 <= r <= 100.0
    ensures 0.0 <= x <= 100.0 ==> r == x
    ensures x < 0.0 ==> r == 0.0
    ensures x > 100.0 ==> r == 100.0
  {
    if x < 0.0 then 0.0 else if x > 100.0 then 100.0 else x
  }

  /** `noveltyScore(term, history)`: the growth of the term's series, or of no series, clamped to [0, 100]. */
  function NoveltyScore(term: string, history: map<string, seq<real>>): (r: real)
    ensures 0.0 <= r <= 100.0
    ensures term !in history ==> r == 0.0
    ensures term in history ==> r == Clamp(ScoreGrowth(history[term]))
  {
    Clamp(ScoreGrowth(if term in history then history[term] else []))
  }

  /** A term whose latest count is no higher than the earlier median has no novelty. */
  lemma NoNoveltyWithoutGrowth(term: string, history: map<string, seq<real>>)
    requires term in history && |history[term]| >= 2
    requires var s := history[term]; Median(s[..|s| - 1]) > 0.0 && s[|s| - 1] <= Median(s[..|s| - 1])
    ensures NoveltyScore(term, history) == 0.0
  {
    GrowthSign(history[term]);
  }

  /** `overlapScore(evidenceCount)`: ten points per piece of evidence, capped at 30 (an absent or zero count gives 0). */
  function OverlapScore(evidenceCount: int): (r: int)
    ensures r <= 30
    ensures r == 30 <==> evidenceCount >= 3
    ensures evidenceCount < 3 ==> r == 10 * evidenceCount
    ensures evidenceCount >= 0 ==> r >= 0
  {
    if 10 * evidenceCount < 30 then 10 * evidenceCount else 30
  }

  /** More evidence never lowers the overlap score. */
  lemma OverlapMonotone(a: int, b: int)
    requires a <= b
    ensures OverlapScore(a) <= OverlapScore(b)
  {
  }

  /** `finalScore(base, novelty, overlap)`: the weighted sum 0.6, 0.25, 0.15, rounded half up. */
  function FinalScore(base: real, novelty: real, overlap: real): (r: int)
    ensures var x := 0.6 * base + 0.25 * novelty + 0.15 * overlap; x - 0.5 < r as real <= x + 0.5
  {
    Round(0.6 * base + 0.25 * novelty + 0.15 * overlap)
  }

  lemma RoundMonotone(x: real, y: real)
    requires x <= y
    ensures Round(x) <= Round(y)
  {
  }

  /** The final score never decreases when one of its three inputs grows. */
  lemma FinalMonotone(b: real, n: real, o: real, b': real, n': real, o': real)
    requires b <= b' && n <= n' && o <= o'
    ensures FinalScore(b, n, o) <= FinalScore(b', n', o')
  {
    RoundMonotone(0.6 * b + 0.25 * n + 0.15 * o, 0.6 * b' + 0.25 * n' + 0.15 * o');
  }

  /** With a base in [0, 100], a novelty from `NoveltyScore` and an overlap from `OverlapScore`, the final score is within [0, 90]. */
  lemma FinalBounds(base: real, term: string, history: map<string, seq<real>>, evidenceCount: nat)
    requires 0.0 <= base <= 100.0
    ensures 0 <= FinalScore(base, NoveltyScore(term, history), OverlapScore(evidenceCount) as real) <= 90
  {
    var n := NoveltyScore(term, history);
    var o := OverlapScore(evidenceCount) as real;
    FinalMonotone(0.0, 0.0, 0.0, base, n, o);
    FinalMonotone(base, n, o, 100.0, 100.0, 30.0);
    assert Round(0.0) == 0;
    assert Round(89.5) == 90;
  }
}
