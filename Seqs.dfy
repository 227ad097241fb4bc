/**
 * Sequence notions shared by the filters and rankings: order-preserving
 * subsequences, JavaScript's `slice`, occurrence counts and the stable
 * descending sort that `Array.prototype.sort((a, b) => key(b) - key(a))` performs.
 */
module Seqs {

  /** `xs` is `ys` with some elements left out, the rest kept in their order. */
  predicate Subseq<T(==)>(xs: seq<T>, ys: seq<T>)
    decreases |ys|
  {
    if ys == [] then xs == []
    else (xs != [] && xs[|xs| - 1] == ys[|ys| - 1] && Subseq(xs[..|xs| - 1], ys[..|ys| - 1]))
         || Subseq(xs, ys[..|ys| - 1])
  }

  lemma {:induction false} SubseqEmpty<T>(ys: seq<T>)
    ensures Subseq([], ys)
    decreases |ys|
  {
    if ys != [] { SubseqEmpty(ys[..|ys| - 1]); }
  }

  lemma SubseqSkip<T>(xs: seq<T>, ys: seq<T>, y: T)
    requires Subseq(xs, ys)
    ensures Subseq(xs, ys + [y])
  {
    assert (ys + [y])[..|ys|] == ys;
  }

  lemma SubseqKeep<T>(xs: seq<T>, ys: seq<T>, y: T)
    requires Subseq(xs, ys)
    ensures Subseq(xs + [y], ys + [y])
  {
    assert (ys + [y])[..|ys|] == ys;
    assert (xs + [y])[..|xs|] == xs;
  }

  /** Every element of a subsequence is an element of the sequence. */
  lemma {:induction false} SubseqIn<T>(xs: seq<T>, ys: seq<T>, x: T)
    requires Subseq(xs, ys) && x in xs
    ensures x in ys
    decreases |ys|
  {
    if ys != [] {
      var iy := ys[..|ys| - 1];
      if xs != [] && xs[|xs| - 1] == ys[|ys| - 1] && Subseq(xs[..|xs| - 1], iy) {
        if x != xs[|xs| - 1] {
          assert xs == xs[..|xs| - 1] + [xs[|xs| - 1]];
          SubseqIn(xs[..|xs| - 1], iy, x);
        }
      } else {
        SubseqIn(xs, iy, x);
      }
    }
  }

  /** No two elements of `s` share a key. */
  predicate DistinctBy<T, K(==)>(s: seq<T>, key: T -> K) {
    forall i, j :: 0 <= i < j < |s| ==> key(s[i]) != key(s[j])
  }

  predicate Distinct<T(==)>(s: seq<T>) {
    forall i, j :: 0 <= i < j < |s| ==> s[i] != s[j]
  }

  /** The elements of `s`, each once, in the order of their first occurrence: what a `Set` filled from `s` iterates. */
  function Firsts<T(==,!new)>(s: seq<T>): (r: seq<T>)
    ensures Distinct(r)
    ensures forall x :: x in r <==> x in s
  {
    if s == [] then []
    else
      var p := Firsts(s[..|s| - 1]);
      assert s == s[..|s| - 1] + [s[|s| - 1]];
      if s[|s| - 1] in p then p else p + [s[|s| - 1]]
  }

  lemma FirstsSnoc<T(!new)>(s: seq<T>, y: T)
    ensures Firsts(s + [y]) == if y in Firsts(s) then Firsts(s) else Firsts(s) + [y]
  {
    assert (s + [y])[..|s|] == s;
  }

  lemma FirstsLast<T(!new)>(s: seq<T>)
    requires s != []
    ensures var p := Firsts(s[..|s| - 1]); var y := s[|s| - 1];
      Firsts(s) == if y in p then p else p + [y]
  {
  }

  // ---- the first element per key ----

  /** The keys of the elements of `s`. */
  function KeySet<T, K(==)>(s: seq<T>, key: T -> K): set<K> {
    set i | 0 <= i < |s| :: key(s[i])
  }

  /** The first element of `s` for each key, in input order: a loop that skips an element whose key it has seen and remembers the key of each one it keeps. */
  function FirstsBy<T, K(==)>(s: seq<T>, key: T -> K): seq<T> {
    if s == [] then []
    else
      var prev := FirstsBy(s[..|s| - 1], key);
      if key(s[|s| - 1]) in KeySet(prev, key) then prev else prev + [s[|s| - 1]]
  }

  lemma KeySetSnoc<T, K>(s: seq<T>, y: T, key: T -> K)
    ensures KeySet(s + [y], key) == KeySet(s, key) + {key(y)}
  {
    var t := s + [y];
    assert key(t[|s|]) == key(y);
    forall k | k in KeySet(s, key) ensures k in KeySet(t, key) {
      var i :| 0 <= i < |s| && key(s[i]) == k;
      assert t[i] == s[i];
    }
  }

  lemma FirstsBySnoc<T, K>(s: seq<T>, y: T, key: T -> K)
    ensures FirstsBy(s + [y], key) == if key(y) in KeySet(FirstsBy(s, key), key) then FirstsBy(s, key) else FirstsBy(s, key) + [y]
  {
    assert (s + [y])[..|s|] == s;
  }

  /** The kept elements are the input with some left out, the rest unchanged and in order. */
  lemma {:induction false} FirstsBySubseq<T, K>(s: seq<T>, key: T -> K)
    ensures Subseq(FirstsBy(s, key), s)
    decreases |s|
  {
    if s == [] {
      SubseqEmpty(s);
    } else {
      var init, y := s[..|s| - 1], s[|s| - 1];
      FirstsBySubseq(init, key);
      assert s == init + [y];
      if key(y) in KeySet(FirstsBy(init, key), key) {
        SubseqSkip(FirstsBy(init, key), init, y);
      } else {
        SubseqKeep(FirstsBy(init, key), init, y);
      }
    }
  }

  /** No two kept elements share a key. */
  lemma {:induction false} FirstsByDistinct<T, K>(s: seq<T>, key: T -> K)
    ensures DistinctBy(FirstsBy(s, key), key)
    decreases |s|
  {
    if s != [] {
      var prev := FirstsBy(s[..|s| - 1], key);
      var y := s[|s| - 1];
      FirstsByDistinct(s[..|s| - 1], key);
      if key(y) !in KeySet(prev, key) {
        var out := prev + [y];
        forall i, j | 0 <= i < j < |out| ensures key(out[i]) != key(out[j]) {
          assert out[i] == prev[i];
          if j < |prev| {
            assert out[j] == prev[j];
          }
        }
      }
    }
  }

  /** Every key of the input is the key of a kept element. */
  lemma {:induction false} FirstsByKeys<T, K>(s: seq<T>, key: T -> K)
    ensures KeySet(FirstsBy(s, key), key) == KeySet(s, key)
    decreases |s|
  {
    if s != [] {
      var init, y := s[..|s| - 1], s[|s| - 1];
      FirstsByKeys(init, key);
      assert s == init + [y];
      KeySetSnoc(init, y, key);
      if key(y) !in KeySet(FirstsBy(init, key), key) {
        KeySetSnoc(FirstsBy(init, key), y, key);
      }
    }
  }

  /** An element whose key does not occur before it is the one kept for that key. */
  lemma {:induction false} FirstsByKeepsFirst<T, K>(s: seq<T>, key: T -> K, i: nat)
    requires i < |s|
    requires forall j :: 0 <= j < i ==> key(s[j]) != key(s[i])
    ensures s[i] in FirstsBy(s, key)
    decreases |s|
  {
    var init := s[..|s| - 1];
    if i == |s| - 1 {
      FirstsByKeys(init, key);
      forall j | 0 <= j < |init| ensures key(init[j]) != key(s[i]) {
        assert init[j] == s[j];
      }
    } else {
      forall j | 0 <= j < i ensures key(init[j]) != key(init[i]) {
        assert init[j] == s[j];
      }
      FirstsByKeepsFirst(init, key, i);
    }
  }

  /** An input whose keys are already distinct is kept whole. */
  lemma {:induction false} FirstsByOfDistinct<T, K>(s: seq<T>, key: T -> K)
    requires DistinctBy(s, key)
    ensures FirstsBy(s, key) == s
    decreases |s|
  {
    if s != [] {
      var init, y := s[..|s| - 1], s[|s| - 1];
      assert DistinctBy(init, key) by {
        forall i, j | 0 <= i < j < |init| ensures key(init[i]) != key(init[j]) {
          assert init[i] == s[i] && init[j] == s[j];
        }
      }
      FirstsByOfDistinct(init, key);
      assert s == init + [y];
    }
  }

  /** Filtering twice keeps what filtering once kept. */
  lemma FirstsByIdempotent<T, K>(s: seq<T>, key: T -> K)
    ensures FirstsBy(FirstsBy(s, key), key) == FirstsBy(s, key)
  {
    FirstsByDistinct(s, key);
    FirstsByOfDistinct(FirstsBy(s, key), key);
  }

  /** `s.slice(0, end)`: a negative `end` counts from the back of `s`. */
  function SliceTo<T>(s: seq<T>, end: int): (r: seq<T>)
    ensures |r| <= |s| && r == s[..|r|]
    ensures end >= 0 ==> |r| == if end < |s| then end else |s|
  {
    if end >= 0 then (if end < |s| then s[..end] else s)
    else if |s| + end > 0 then s[..|s| + end] else []
  }

  lemma InSnoc<T>(s: seq<T>, x: T)
    requires s != []
    ensures x in s <==> x in s[..|s| - 1] || x == s[|s| - 1]
  {
    assert s == s[..|s| - 1] + [s[|s| - 1]];
  }

  lemma SliceToDistinct<T>(s: seq<T>, end: int)
    requires Distinct(s)
    ensures Distinct(SliceTo(s, end))
  {
    var r := SliceTo(s, end);
    assert forall a :: 0 <= a < |r| ==> r[a] == s[a];
  }

  /** `s.slice(start)`: a negative `start` counts from the back of `s`. */
  function SliceFrom<T>(s: seq<T>, start: int): (r: seq<T>)
    ensures |r| <= |s| && r == s[|s| - |r|..]
    ensures start < 0 ==> |r| == if -start < |s| then -start else |s|
  {
    if start >= 0 then (if start < |s| then s[start..] else [])
    else if |s| + start > 0 then s[|s| + start..] else s
  }

  /** How often `x` occurs in `s`. */
  function Count<T(==)>(s: seq<T>, x: T): nat {
    if s == [] then 0 else Count(s[..|s| - 1], x) + (if s[|s| - 1] == x then 1 else 0)
  }

  lemma CountSnoc<T>(s: seq<T>, y: T, x: T)
    ensures Count(s + [y], x) == Count(s, x) + if y == x then 1 else 0
  {
    assert (s + [y])[..|s|] == s;
  }

  lemma {:induction false} CountIn<T>(s: seq<T>, x: T)
    ensures Count(s, x) > 0 <==> x in s
    decreases |s|
  {
    if s != [] {
      CountIn(s[..|s| - 1], x);
      assert s == s[..|s| - 1] + [s[|s| - 1]];
    }
  }

  lemma {:induction false} CountAppend<T>(a: seq<T>, b: seq<T>, x: T)
    ensures Count(a + b, x) == Count(a, x) + Count(b, x)
    decreases |b|
  {
    if b == [] {
      assert a + b == a;
    } else {
      assert (a + b)[..|a + b| - 1] == a + b[..|b| - 1];
      CountAppend(a, b[..|b| - 1], x);
    }
  }

  lemma {:induction false} CountAbsent<T>(s: seq<T>, x: T)
    requires x !in s
    ensures Count(s, x) == 0
    decreases |s|
  {
    if s != [] { CountAbsent(s[..|s| - 1], x); }
  }

  // ---- stable sort by a numeric key, largest first ----

  predicate SortedDesc<T>(s: seq<T>, key: T -> real) {
    forall i, j :: 0 <= i < j < |s| ==> key(s[i]) >= key(s[j])
  }

  /** Puts `x` after every element whose key is at least its own, before the rest. */
  function Insert<T>(x: T, s: seq<T>, key: T -> real): (r: seq<T>)
    ensures |r| == |s| + 1
    ensures multiset(r) == multiset(s) + multiset{x}
  {
    if s == [] then [x]
    else if key(s[0]) >= key(x) then
      assert s == [s[0]] + s[1..];
      [s[0]] + Insert(x, s[1..], key)
    else
      [x] + s
  }

  lemma InsertElement<T>(x: T, s: seq<T>, key: T -> real, y: T)
    requires y in Insert(x, s, key)
    ensures y == x || y in s
  {
    assert y in multiset(Insert(x, s, key));
  }

  lemma ConsSorted<T>(h: T, t: seq<T>, key: T -> real)
    requires SortedDesc(t, key)
    requires forall k :: 0 <= k < |t| ==> key(h) >= key(t[k])
    ensures SortedDesc([h] + t, key)
  {
    var r := [h] + t;
    forall i, j | 0 <= i < j < |r| ensures key(r[i]) >= key(r[j]) {
      assert r[j] == t[j - 1];
      if i > 0 {
        assert r[i] == t[i - 1];
      }
    }
  }

  lemma {:induction false} InsertSorted<T>(x: T, s: seq<T>, key: T -> real)
    requires SortedDesc(s, key)
    ensures SortedDesc(Insert(x, s, key), key)
    decreases |s|
  {
    if s == [] {
    } else if key(s[0]) >= key(x) {
      var t := Insert(x, s[1..], key);
      InsertSorted(x, s[1..], key);
      forall k | 0 <= k < |t| ensures key(s[0]) >= key(t[k]) {
        InsertElement(x, s[1..], key, t[k]);
      }
      ConsSorted(s[0], t, key);
    } else {
      ConsSorted(x, s, key);
    }
  }

  /**
   * The stable sort by `key`, largest first: ties keep their input order,
   * as in `Array.prototype.sort`, which is stable.
   */
  function SortDesc<T>(s: seq<T>, key: T -> real): (r: seq<T>)
    ensures |r| == |s|
    ensures multiset(r) == multiset(s)
    ensures SortedDesc(r, key)
  {
    if s == [] then []
    else
      assert s == s[..|s| - 1] + [s[|s| - 1]];
      var prefix := SortDesc(s[..|s| - 1], key);
      InsertSorted(s[|s| - 1], prefix, key);
      Insert(s[|s| - 1], prefix, key)
  }

  /** Sorting keeps any key that told the elements apart telling them apart. */
  lemma {:induction false} InsertDistinctBy<T, K>(x: T, s: seq<T>, key: T -> real, id: T -> K)
    requires DistinctBy(s, id)
    requires forall k :: 0 <= k < |s| ==> id(s[k]) != id(x)
    ensures DistinctBy(Insert(x, s, key), id)
    decreases |s|
  {
    if s != [] && key(s[0]) >= key(x) {
      var t := Insert(x, s[1..], key);
      InsertDistinctBy(x, s[1..], key, id);
      var r := [s[0]] + t;
      forall i, j | 0 <= i < j < |r| ensures id(r[i]) != id(r[j]) {
        if i == 0 {
          InsertElement(x, s[1..], key, t[j - 1]);
          if t[j - 1] != x {
            var k :| 0 <= k < |s[1..]| && s[1..][k] == t[j - 1];
            assert s[k + 1] == t[j - 1];
          }
        } else {
          assert r[i] == t[i - 1] && r[j] == t[j - 1];
        }
      }
    }
  }

  /** Sorting keeps every element. */
  lemma SortDescMember<T>(s: seq<T>, key: T -> real, x: T)
    requires x in SortDesc(s, key)
    ensures x in s
  {
    assert x in multiset(SortDesc(s, key));
  }

  lemma {:induction false} SortDescDistinctBy<T, K>(s: seq<T>, key: T -> real, id: T -> K)
    requires DistinctBy(s, id)
    ensures DistinctBy(SortDesc(s, key), id)
    decreases |s|
  {
    if s != [] {
      var init := s[..|s| - 1];
      SortDescDistinctBy(init, key, id);
      var p := SortDesc(init, key);
      forall k | 0 <= k < |p| ensures id(p[k]) != id(s[|s| - 1]) {
        assert p[k] in multiset(init);
        var a :| 0 <= a < |init| && init[a] == p[k];
      }
      InsertDistinctBy(s[|s| - 1], p, key, id);
    }
  }

  /** An element that the first `n` of the sorted list miss ranks no higher than any of them, and (for `n >= 0`) there are `n` of them. */
  lemma SortedCutOff<T>(s: seq<T>, key: T -> real, n: int, x: T)
    requires x in s
    requires x !in SliceTo(SortDesc(s, key), n)
    ensures n >= 0 ==> |SliceTo(SortDesc(s, key), n)| == n
    ensures forall y :: y in SliceTo(SortDesc(s, key), n) ==> key(y) >= key(x)
  {
    var sorted := SortDesc(s, key);
    var r := SliceTo(sorted, n);
    assert x in multiset(s);
    assert x in sorted;
    var j :| 0 <= j < |sorted| && sorted[j] == x;
    assert forall k :: 0 <= k < |r| ==> r[k] == sorted[k];
    assert j >= |r|;
    forall y | y in r ensures key(y) >= key(x) {
      var k :| 0 <= k < |r| && r[k] == y;
      assert sorted[k] == y;
    }
  }
}
