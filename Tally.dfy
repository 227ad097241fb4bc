/**
 * The `counts` map that both candidate extractors (packages/factory/extractors/emoji.ts
 * and packages/factory/extractors/acronyms.ts) fill: for every token, how often it was
 * seen and the set of row URLs it was seen with.
 */
module Tally {
  import opened Wrappers
  import opened Seqs
  import opened OrderedMap
  import opened Types

  /** `{ hits, urls }`; the `Set` of URLs is the list of its members in insertion order. */
  datatype Counter = Counter(hits: nat, urls: seq<string>)

  type Counts = Entries<string, Counter>

  /** `counts.get(t) ?? { hits: 0, urls: new Set() }`. */
  function CounterOf(m: Counts, t: string): Counter {
    Get(m, t).GetOr(Counter(0, []))
  }

  /** One more sighting of a token: `cur.hits += 1`, and `cur.urls.add(url)` when the row has a URL. */
  function Bump(c: Counter, url: string): Counter {
    Counter(c.hits + 1, if url != "" && url !in c.urls then c.urls + [url] else c.urls)
  }

  /** `counts.set(t, cur)` after bumping `cur`; no other counter changes. */
  function Observe(m: Counts, t: string, url: string): (r: Counts)
    ensures Valid(m) ==> Valid(r)
    ensures CounterOf(r, t) == Bump(CounterOf(m, t), url)
    ensures forall t' :: t' != t ==> CounterOf(r, t') == CounterOf(m, t')
    ensures Keys(r) == if t in Keys(m) then Keys(m) else Keys(m) + [t]
  {
    Put(m, t, Bump(CounterOf(m, t), url))
  }

  /** The map after counting the tokens `obs`, each paired with the URL of its row. */
  function TallyOf(obs: seq<(string, string)>): Counts {
    if obs == [] then []
    else Observe(TallyOf(obs[..|obs| - 1]), obs[|obs| - 1].0, obs[|obs| - 1].1)
  }

  /** The tokens of a row that are counted (`skip` holds the stoplisted ones), paired with the row's URL. */
  function RowObs(url: string, toks: seq<string>, skip: set<string>): seq<(string, string)> {
    if toks == [] then []
    else
      RowObs(url, toks[..|toks| - 1], skip)
      + (if toks[|toks| - 1] in skip then [] else [(toks[|toks| - 1], url)])
  }

  /** Everything counted over the rows, in reading order; `tokens` gives the matches of a row's text. */
  function Observations(rows: seq<ReservoirRow>, tokens: string -> seq<string>, skip: set<string>): seq<(string, string)> {
    if rows == [] then []
    else
      var r := rows[|rows| - 1];
      Observations(rows[..|rows| - 1], tokens, skip) + RowObs(r.url, tokens(r.text), skip)
  }

  // ---- an independent account of each counter ----

  function Tokens(obs: seq<(string, string)>): seq<string> {
    seq(|obs|, i requires 0 <= i < |obs| => obs[i].0)
  }

  /** The non-empty URLs seen with token `t`, repeats included. */
  function UrlsFor(obs: seq<(string, string)>, t: string): (us: seq<string>)
    ensures forall i :: 0 <= i < |us| ==> us[i] != ""
  {
    if obs == [] then []
    else
      var o := obs[|obs| - 1];
      UrlsFor(obs[..|obs| - 1], t) + (if o.0 == t && o.1 != "" then [o.1] else [])
  }

  /** No token has two entries. */
  lemma {:induction false} TallyValid(obs: seq<(string, string)>)
    ensures Valid(TallyOf(obs))
    decreases |obs|
  {
    if obs != [] {
      TallyValid(obs[..|obs| - 1]);
    }
  }

  lemma TallyStep(obs: seq<(string, string)>, t: string)
    requires obs != []
    ensures var o := obs[|obs| - 1];
      var c := CounterOf(TallyOf(obs[..|obs| - 1]), t);
      CounterOf(TallyOf(obs), t) == if o.0 == t then Bump(c, o.1) else c
  {
  }

  lemma TokensSnoc(obs: seq<(string, string)>)
    requires obs != []
    ensures Tokens(obs) == Tokens(obs[..|obs| - 1]) + [obs[|obs| - 1].0]
  {
  }

  /** The counting step, on counters alone. */
  lemma CounterStep(c0: Counter, c1: Counter, ts: seq<string>, us: seq<string>, o: (string, string), t: string)
    requires c0 == Counter(Count(ts, t), Firsts(us))
    requires c1 == if o.0 == t then Bump(c0, o.1) else c0
    ensures c1 == Counter(Count(ts + [o.0], t), Firsts(us + if o.0 == t && o.1 != "" then [o.1] else []))
  {
    CountSnoc(ts, o.0, t);
    if o.0 == t && o.1 != "" {
      FirstsSnoc(us, o.1);
    } else {
      assert us + [] == us;
    }
  }

  /**
   * Each counter holds the number of times its token was seen and the distinct
   * non-empty URLs it was seen with, in the order they were first seen.
   */
  lemma {:induction false} TallyCounter(obs: seq<(string, string)>, t: string)
    ensures CounterOf(TallyOf(obs), t) == Counter(Count(Tokens(obs), t), Firsts(UrlsFor(obs, t)))
    decreases |obs|
  {
    if obs != [] {
      var init, o := obs[..|obs| - 1], obs[|obs| - 1];
      TallyCounter(init, t);
      TallyStep(obs, t);
      TokensSnoc(obs);
      CounterStep(CounterOf(TallyOf(init), t), CounterOf(TallyOf(obs), t), Tokens(init), UrlsFor(init, t), o, t);
    }
  }

  lemma KeysStep(obs: seq<(string, string)>)
    requires obs != []
    ensures var ks := Keys(TallyOf(obs[..|obs| - 1])); var t := obs[|obs| - 1].0;
      Keys(TallyOf(obs)) == if t in ks then ks else ks + [t]
  {
  }

  /** The keys of the map are the tokens seen, in the order of their first occurrence. */
  lemma {:induction false} TallyKeys(obs: seq<(string, string)>)
    ensures Keys(TallyOf(obs)) == Firsts(Tokens(obs))
    decreases |obs|
  {
    if obs != [] {
      var init, o := obs[..|obs| - 1], obs[|obs| - 1];
      TallyKeys(init);
      KeysStep(obs);
      TokensSnoc(obs);
      FirstsSnoc(Tokens(init), o.0);
    }
  }

  lemma TokensAppend(a: seq<(string, string)>, b: seq<(string, string)>)
    ensures Tokens(a + b) == Tokens(a) + Tokens(b)
  {
  }

  /** How often a row has `t` counted: as often as it matches, unless `t` is skipped. */
  lemma {:induction false} RowObsCount(url: string, toks: seq<string>, skip: set<string>, t: string)
    ensures Count(Tokens(RowObs(url, toks, skip)), t) == if t in skip then 0 else Count(toks, t)
    decreases |toks|
  {
    if toks != [] {
      var n := |toks| - 1;
      var init, y := toks[..n], toks[n];
      RowObsCount(url, init, skip, t);
      var p := RowObs(url, init, skip);
      RowObsSnoc(url, toks, n, skip);
      assert toks[..n + 1] == toks;
      if y in skip {
        assert p + [] == p;
      } else {
        TokensSnoc(p + [(y, url)]);
        assert (p + [(y, url)])[..|p|] == p;
        CountSnoc(Tokens(p), y, t);
      }
      assert toks == init + [y];
      CountSnoc(init, y, t);
    }
  }

  /** A token is counted only from a row's matches, and never when it is skipped. */
  lemma {:induction false} ObservedToken(rows: seq<ReservoirRow>, tokens: string -> seq<string>, skip: set<string>, t: string)
    requires t in Tokens(Observations(rows, tokens, skip))
    ensures t !in skip && exists i :: 0 <= i < |rows| && t in tokens(rows[i].text)
    decreases |rows|
  {
    var init := rows[..|rows| - 1];
    var r := rows[|rows| - 1];
    TokensAppend(Observations(init, tokens, skip), RowObs(r.url, tokens(r.text), skip));
    if t in Tokens(Observations(init, tokens, skip)) {
      ObservedToken(init, tokens, skip, t);
      var i :| 0 <= i < |init| && t in tokens(init[i].text);
      assert rows[i] == init[i];
    } else {
      RowObsCount(r.url, tokens(r.text), skip, t);
      CountIn(Tokens(RowObs(r.url, tokens(r.text), skip)), t);
      CountIn(tokens(r.text), t);
    }
  }

  lemma TallySnoc(obs: seq<(string, string)>, o: (string, string))
    ensures TallyOf(obs + [o]) == Observe(TallyOf(obs), o.0, o.1)
  {
    assert (obs + [o])[..|obs|] == obs;
  }

  lemma ObserveNext(counts: Counts, obs: seq<(string, string)>, next: seq<(string, string)>, t: string, url: string)
    requires counts == TallyOf(obs) && next == obs + [(t, url)]
    ensures Observe(counts, t, url) == TallyOf(next)
  {
    TallySnoc(obs, (t, url));
  }

  lemma RowObsSnoc(url: string, toks: seq<string>, k: nat, skip: set<string>)
    requires k < |toks|
    ensures RowObs(url, toks[..k + 1], skip)
      == RowObs(url, toks[..k], skip) + if toks[k] in skip then [] else [(toks[k], url)]
  {
    assert toks[..k + 1][..k] == toks[..k];
  }

  /** One turn of the inner loop keeps the map equal to the tally of what was read so far. */
  lemma RowSkip(url: string, found: seq<string>, k: nat, skip: set<string>)
    requires k < |found| && found[k] in skip
    ensures RowObs(url, found[..k + 1], skip) == RowObs(url, found[..k], skip)
  {
    RowObsSnoc(url, found, k, skip);
    var p := RowObs(url, found[..k], skip);
    assert p + [] == p;
  }

  lemma RowKeep(before: seq<(string, string)>, url: string, found: seq<string>, k: nat, skip: set<string>)
    requires k < |found| && found[k] !in skip
    ensures before + RowObs(url, found[..k + 1], skip) == (before + RowObs(url, found[..k], skip)) + [(found[k], url)]
  {
    RowObsSnoc(url, found, k, skip);
  }

  /** Each entry of the tally holds the counter of its token, and that token was seen. */
  lemma TallyEntry(obs: seq<(string, string)>, j: nat)
    requires j < |TallyOf(obs)|
    ensures var e := TallyOf(obs)[j];
      e.1 == Counter(Count(Tokens(obs), e.0), Firsts(UrlsFor(obs, e.0))) && Count(Tokens(obs), e.0) > 0
  {
    var m := TallyOf(obs);
    TallyValid(obs);
    GetAt(m, j);
    TallyCounter(obs, m[j].0);
    TallyKeys(obs);
    assert m[j].0 == Keys(m)[j];
    CountIn(Tokens(obs), m[j].0);
  }

  /** A token that was seen has an entry. */
  lemma SeenHasEntry(obs: seq<(string, string)>, t: string)
    requires Count(Tokens(obs), t) > 0
    ensures exists j :: 0 <= j < |TallyOf(obs)| && TallyOf(obs)[j].0 == t
  {
    CountIn(Tokens(obs), t);
    TallyKeys(obs);
    assert t in Keys(TallyOf(obs));
  }

  /** The number of counted matches of `t` over the rows, row by row. */
  function SumCounts(rows: seq<ReservoirRow>, tokens: string -> seq<string>, skip: set<string>, t: string): nat {
    if rows == [] then 0
    else
      SumCounts(rows[..|rows| - 1], tokens, skip, t)
      + if t in skip then 0 else Count(tokens(rows[|rows| - 1].text), t)
  }

  /** Every match of every row is counted, repeats within a row included; skipped tokens never are. */
  lemma {:induction false} HitsPerRow(rows: seq<ReservoirRow>, tokens: string -> seq<string>, skip: set<string>, t: string)
    ensures Count(Tokens(Observations(rows, tokens, skip)), t) == SumCounts(rows, tokens, skip, t)
    decreases |rows|
  {
    if rows != [] {
      var init, r := rows[..|rows| - 1], rows[|rows| - 1];
      HitsPerRow(init, tokens, skip, t);
      TokensAppend(Observations(init, tokens, skip), RowObs(r.url, tokens(r.text), skip));
      CountAppend(Tokens(Observations(init, tokens, skip)), Tokens(RowObs(r.url, tokens(r.text), skip)), t);
      RowObsCount(r.url, tokens(r.text), skip, t);
    }
  }

  lemma {:induction false} UrlsForAppend(a: seq<(string, string)>, b: seq<(string, string)>, t: string)
    ensures UrlsFor(a + b, t) == UrlsFor(a, t) + UrlsFor(b, t)
    decreases |b|
  {
    if b == [] {
      assert a + b == a;
    } else {
      assert (a + b)[..|a + b| - 1] == a + b[..|b| - 1];
      UrlsForAppend(a, b[..|b| - 1], t);
    }
  }

  lemma {:induction false} RowUrls(url: string, toks: seq<string>, skip: set<string>, t: string, u: string)
    requires u in UrlsFor(RowObs(url, toks, skip), t)
    ensures u == url && t in toks && t !in skip
    decreases |toks|
  {
    var n := |toks| - 1;
    var p := RowObs(url, toks[..n], skip);
    RowObsSnoc(url, toks, n, skip);
    assert toks[..n + 1] == toks;
    var last := if toks[n] in skip then [] else [(toks[n], url)];
    UrlsForAppend(p, last, t);
    if u in UrlsFor(p, t) {
      RowUrls(url, toks[..n], skip, t, u);
    }
  }

  /** Evidence comes only from rows that have a URL and in which the token was counted. */
  lemma {:induction false} EvidenceFromRows(rows: seq<ReservoirRow>, tokens: string -> seq<string>, skip: set<string>, t: string, u: string)
    requires u in UrlsFor(Observations(rows, tokens, skip), t)
    ensures u != "" && exists i :: 0 <= i < |rows| && rows[i].url == u && t in tokens(rows[i].text)
    decreases |rows|
  {
    var init, r := rows[..|rows| - 1], rows[|rows| - 1];
    UrlsForAppend(Observations(init, tokens, skip), RowObs(r.url, tokens(r.text), skip), t);
    if u in UrlsFor(Observations(init, tokens, skip), t) {
      EvidenceFromRows(init, tokens, skip, t, u);
      var i :| 0 <= i < |init| && init[i].url == u && t in tokens(init[i].text);
      assert rows[i] == init[i];
    } else {
      RowUrls(r.url, tokens(r.text), skip, t, u);
    }
  }

  /** The inner loop over one row's matches. */
  method CountRow(counts: Counts, ghost before: seq<(string, string)>, url: string, found: seq<string>, skip: set<string>)
    returns (after: Counts)
    requires counts == TallyOf(before)
    ensures after == TallyOf(before + RowObs(url, found, skip))
  {
    after := counts;
    assert before + RowObs(url, found[..0], skip) == before;
    for k := 0 to |found|
      invariant after == TallyOf(before + RowObs(url, found[..k], skip))
    {
      if found[k] in skip {
        RowSkip(url, found, k, skip);
        continue;
      }
      RowKeep(before, url, found, k, skip);
      ObserveNext(after, before + RowObs(url, found[..k], skip), before + RowObs(url, found[..k + 1], skip), found[k], url);
      after := Observe(after, found[k], url);
    }
    assert found[..|found|] == found;
  }

  /** `for (const it of reservoir) for (const t of tokens(it.text)) { if (skip.has(t)) continue; … }`. */
  method CountTokens(rows: seq<ReservoirRow>, tokens: string -> seq<string>, skip: set<string>) returns (counts: Counts)
    ensures counts == TallyOf(Observations(rows, tokens, skip))
  {
    counts := [];
    for i := 0 to |rows|
      invariant counts == TallyOf(Observations(rows[..i], tokens, skip))
    {
      var it := rows[i];
      counts := CountRow(counts, Observations(rows[..i], tokens, skip), it.url, tokens(it.text), skip);
      assert rows[..i + 1][..i] == rows[..i];
    }
    assert rows[..|rows|] == rows;
  }
}
