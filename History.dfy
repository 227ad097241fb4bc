/**
 * The per-term value series of packages/factory/signals/history.ts, kept in
 * one JSON document of the data directory; each series holds at most the
 * last seven values.
 */
module History {
  import opened Wrappers
  import opened Seqs
  import opened Files

  const HistoryFile: string := "history.json"

  type Series = map<string, seq<real>>

  /** `readHistory()`: a missing or corrupt document reads as the empty record. */
  function ReadHistory(docs: map<string, Doc<Series>>): (h: Series)
    ensures HistoryFile !in docs || docs[HistoryFile].body.None? ==> h == map[]
    ensures HistoryFile in docs && docs[HistoryFile].body.Some? ==> h == docs[HistoryFile].body.value
  {
    ReadJson(docs, HistoryFile).GetOr(map[])
  }

  /** `[...arr.slice(-6), value]`: the last six old values, then the new one. */
  function Appended(arr: seq<real>, value: real): (r: seq<real>)
    ensures |r| - 1 == if |arr| < 6 then |arr| else 6
    ensures r[|r| - 1] == value
    ensures r[..|r| - 1] == arr[|arr| - (|r| - 1)..]
  {
    SliceFrom(arr, -6) + [value]
  }

  /** The record `updateHistory(term, value)` writes. */
  function Updated(h: Series, term: string, value: real): Series {
    h[term := Appended(if term in h then h[term] else [], value)]
  }

  /** `updateHistory(term, value)`; `now` is the time of the write. */
  method UpdateHistory(store: Store<Series>, term: string, value: real, now: int)
    modifies store
    ensures store.docs == old(store.docs)[HistoryFile := Doc(now, Some(Updated(ReadHistory(old(store.docs)), term, value)))]
  {
    var h := ReadHistory(store.docs);
    var arr := if term in h then h[term] else [];
    h := h[term := SliceFrom(arr, -6) + [value]];
    store.docs := store.docs[HistoryFile := Doc(now, Some(h))];
  }

  /** After an update the term's series ends with the new value, keeps at most seven values, and other terms are untouched. */
  lemma UpdateEffect(h: Series, term: string, value: real, other: string)
    ensures var u := Updated(h, term, value);
      term in u && 1 <= |u[term]| <= 7 && u[term][|u[term]| - 1] == value
      && (other != term ==> (other in u <==> other in h) && (other in h ==> u[other] == h[other]))
  {
  }

  /** The values before the new one are the last min(6, n) old ones, in order. */
  lemma UpdateKeepsTail(h: Series, term: string, value: real)
    requires term in h
    ensures var s := Updated(h, term, value)[term];
      var n := if |h[term]| < 6 then |h[term]| else 6;
      s == h[term][|h[term]| - n..] + [value]
  {
    var s := Updated(h, term, value)[term];
    assert s == s[..|s| - 1] + [value];
  }

  /** Repeated updates keep a series at seven values: the oldest falls off. */
  lemma UpdateFull(h: Series, term: string, value: real)
    requires term in h && |h[term]| == 7
    ensures Updated(h, term, value)[term] == h[term][1..] + [value]
  {
    UpdateKeepsTail(h, term, value);
  }
}
