/**
 * A JavaScript `Map`: a list of entries whose keys are distinct, iterated in
 * insertion order. `set` on a present key keeps its place; `set` on a new key
 * appends; `delete` removes the entry.
 */
module OrderedMap {
  import opened Wrappers

  type Entries<K(==,!new), V> = seq<(K, V)>

  function Keys<K(==,!new), V>(m: Entries<K, V>): (ks: seq<K>)
    ensures |ks| == |m|
    ensures forall i :: 0 <= i < |m| ==> ks[i] == m[i].0
  {
    if m == [] then [] else Keys(m[..|m| - 1]) + [m[|m| - 1].0]
  }

  predicate Valid<K(==,!new), V>(m: Entries<K, V>) {
    forall i, j :: 0 <= i < j < |m| ==> m[i].0 != m[j].0
  }

  function Get<K(==,!new), V>(m: Entries<K, V>, k: K): (r: Option<V>)
    ensures r.Some? <==> k in Keys(m)
  {
    if m == [] then None
    else if m[|m| - 1].0 == k then Some(m[|m| - 1].1)
    else Get(m[..|m| - 1], k)
  }

  lemma {:induction false} GetAt<K(!new), V>(m: Entries<K, V>, i: nat)
    requires Valid(m) && i < |m|
    ensures Get(m, m[i].0) == Some(m[i].1)
    decreases |m|
  {
    if i < |m| - 1 {
      GetAt(m[..|m| - 1], i);
    }
  }

  lemma AppendFacts<K(!new), V>(m: Entries<K, V>, e: (K, V))
    ensures Keys(m + [e]) == Keys(m) + [e.0]
    ensures forall k :: Get(m + [e], k) == if e.0 == k then Some(e.1) else Get(m, k)
    ensures Valid(m) && e.0 !in Keys(m) ==> Valid(m + [e])
  {
    assert (m + [e])[..|m|] == m;
  }

  /** `map.set(k, v)`. */
  function Put<K(==,!new), V>(m: Entries<K, V>, k: K, v: V): (r: Entries<K, V>)
    ensures Valid(m) ==> Valid(r)
    ensures Get(r, k) == Some(v)
    ensures forall k' :: k' != k ==> Get(r, k') == Get(m, k')
    ensures Keys(r) == if k in Keys(m) then Keys(m) else Keys(m) + [k]
    decreases |m|
  {
    if k !in Keys(m) then
      PutNew(m, k, v);
      m + [(k, v)]
    else
      var init, last := m[..|m| - 1], m[|m| - 1];
      assert m == init + [last];
      if last.0 == k then
        PutLast(init, last, v);
        init + [(k, v)]
      else
        var p := Put(init, k, v);
        PutBefore(init, last, k, v, p);
        p + [last]
  }

  /** What `Put(m, k, v)` promises of `r`. */
  ghost predicate PutSpec<K(!new), V>(m: Entries<K, V>, k: K, v: V, r: Entries<K, V>) {
    (Valid(m) ==> Valid(r))
    && Get(r, k) == Some(v)
    && (forall k' :: k' != k ==> Get(r, k') == Get(m, k'))
    && Keys(r) == if k in Keys(m) then Keys(m) else Keys(m) + [k]
  }

  /** Setting a new key appends it. */
  lemma PutNew<K(!new), V>(m: Entries<K, V>, k: K, v: V)
    requires k !in Keys(m)
    ensures PutSpec(m, k, v, m + [(k, v)])
  {
    AppendFacts(m, (k, v));
  }

  /** Setting the last key replaces its value in place. */
  lemma PutLast<K(!new), V>(init: Entries<K, V>, last: (K, V), v: V)
    ensures PutSpec(init + [last], last.0, v, init + [(last.0, v)])
  {
    AppendFacts(init, last);
    AppendFacts(init, (last.0, v));
  }

  /** Setting an earlier key leaves the last entry where it is. */
  lemma PutBefore<K(!new), V>(init: Entries<K, V>, last: (K, V), k: K, v: V, p: Entries<K, V>)
    requires last.0 != k && k in Keys(init) && PutSpec(init, k, v, p)
    ensures PutSpec(init + [last], k, v, p + [last])
  {
    AppendFacts(init, last);
    AppendFacts(p, last);
  }

  /** `map.delete(k)`. */
  function Remove<K(==,!new), V>(m: Entries<K, V>, k: K): (r: Entries<K, V>)
    requires Valid(m)
    ensures Valid(r)
    ensures Get(r, k) == None
    ensures forall k' :: k' != k ==> Get(r, k') == Get(m, k')
    ensures forall i :: 0 <= i < |r| ==> r[i] in m
    decreases |m|
  {
    if m == [] then []
    else if m[|m| - 1].0 == k then
      var r := m[..|m| - 1];
      assert forall i :: 0 <= i < |r| ==> r[i].0 != k;
      assert k !in Keys(r);
      r
    else
      var r0 := Remove(m[..|m| - 1], k);
      var r := r0 + [m[|m| - 1]];
      assert forall i :: 0 <= i < |r0| ==> r0[i] in m[..|m| - 1];
      r
  }

  /** `for (const k of ks) map.delete(k)`. */
  function RemoveAll<K(==,!new), V>(m: Entries<K, V>, ks: seq<K>): (r: Entries<K, V>)
    requires Valid(m)
    ensures Valid(r)
    ensures forall k :: Get(r, k) == if k in ks then None else Get(m, k)
    ensures forall i :: 0 <= i < |r| ==> r[i] in m
    decreases |ks|
  {
    if ks == [] then m
    else
      var p := RemoveAll(m, ks[..|ks| - 1]);
      assert ks == ks[..|ks| - 1] + [ks[|ks| - 1]];
      Remove(p, ks[|ks| - 1])
  }
}
