/**
 * The acronyms niche plugin (packages/plugins/acronyms/index.ts): its own
 * `extractAcronyms`, and `discover`, which keeps up to three sample rows per
 * acronym, ranks the acronyms by their number of samples and turns every
 * sample of the picked ones into a source item.
 */
module AcronymsPlugin {
  import opened Wrappers
  import opened JsText
  import opened Seqs
  import opened OrderedMap
  import opened Types
  import AcronymExtractor

  /** The plugin's `STOPLIST`: the extractor's nineteen words (its second "DOB" adds nothing to a `Set`). */
  const Stoplist: set<string> := AcronymExtractor.Stoplist

  const Niche: string := "acronyms"

  /** `scoreHint()`: the same weight for every item. */
  const ScoreHint: real := 0.1

  /** The most samples kept per acronym. */
  const MaxSamples: nat := 3

  // ---- extractAcronyms ----

  /** The matches that are not stoplisted, in order, repeats included. */
  function Unlisted(toks: seq<string>): (r: seq<string>)
    ensures forall i :: 0 <= i < |r| ==> r[i] !in Stoplist
  {
    if toks == [] then []
    else Unlisted(toks[..|toks| - 1]) + if toks[|toks| - 1] in Stoplist then [] else [toks[|toks| - 1]]
  }

  /** What `extractAcronyms(text)` returns: the `Set` of non-stoplisted matches, in first-match order. */
  function ExtractAcronymsOf(text: string): seq<string> {
    Firsts(Unlisted(AcronymExtractor.AcronymTokens(text)))
  }

  lemma UnlistedSnoc(toks: seq<string>, i: nat)
    requires i < |toks|
    ensures Unlisted(toks[..i + 1]) == Unlisted(toks[..i]) + if toks[i] in Stoplist then [] else [toks[i]]
  {
    assert toks[..i + 1][..i] == toks[..i];
  }

  lemma {:induction false} UnlistedHas(toks: seq<string>, x: string)
    ensures x in Unlisted(toks) <==> x in toks && x !in Stoplist
    decreases |toks|
  {
    if toks != [] {
      UnlistedHas(toks[..|toks| - 1], x);
      assert toks == toks[..|toks| - 1] + [toks[|toks| - 1]];
    }
  }

  /** `extractAcronyms`: the `while (re.exec(text))` loop adding every non-stoplisted match to a `Set`. */
  method ExtractAcronyms(text: string) returns (out: seq<string>)
    ensures out == ExtractAcronymsOf(text)
  {
    var toks := AcronymExtractor.AcronymTokens(text);
    out := [];
    for i := 0 to |toks|
      invariant out == Firsts(Unlisted(toks[..i]))
    {
      var tok := toks[i];
      UnlistedSnoc(toks, i);
      if tok in Stoplist {
        assert Unlisted(toks[..i + 1]) == Unlisted(toks[..i]) + [] == Unlisted(toks[..i]);
        continue;
      }
      FirstsSnoc(Unlisted(toks[..i]), tok);
      if tok !in out {
        out := out + [tok];
      }
    }
    assert toks[..|toks|] == toks;
  }

  /** Each non-stoplisted match once: the result has no repeats and holds exactly the matches outside the stoplist. */
  lemma ExtractFacts(text: string, x: string)
    ensures Distinct(ExtractAcronymsOf(text))
    ensures x in ExtractAcronymsOf(text) <==> x in AcronymExtractor.AcronymTokens(text) && x !in Stoplist
    ensures x in ExtractAcronymsOf(text) ==> AcronymExtractor.IsAcronym(x)
  {
    var toks := AcronymExtractor.AcronymTokens(text);
    UnlistedHas(toks, x);
    if x in toks {
      var k :| 0 <= k < |toks| && toks[k] == x;
    }
  }

  // ---- discover: the samples kept per acronym ----

  datatype Sample = Sample(text: string, url: string, lang: Option<string>)

  /** A value of the `terms` map: the acronym and its samples. */
  datatype TermEntry = TermEntry(term: string, samples: seq<Sample>)

  type Terms = Entries<string, TermEntry>

  function SampleOf(r: ReservoirRow): Sample {
    Sample(r.text, r.url, r.lang)
  }

  /** `terms.get(t) || { term: t, samples: [] }`. */
  function EntryOf(m: Terms, t: string): TermEntry {
    Get(m, t).GetOr(TermEntry(t, []))
  }

  /** `if (e.samples.length < 3) e.samples.push(s)`. */
  function Push(e: TermEntry, s: Sample): TermEntry {
    if |e.samples| < MaxSamples then TermEntry(e.term, e.samples + [s]) else e
  }

  /** One turn of the inner loop: the entry of `t`, with `s` pushed when it has room, set back under `t`. */
  function AddSample(m: Terms, t: string, s: Sample): Terms {
    Put(m, t, Push(EntryOf(m, t), s))
  }

  /** The entry of `t` gets the sample when it has room; no other entry changes; a new term is appended. */
  lemma AddSampleFacts(m: Terms, t: string, s: Sample)
    ensures Valid(m) ==> Valid(AddSample(m, t, s))
    ensures EntryOf(AddSample(m, t, s), t) == Push(EntryOf(m, t), s)
    ensures forall t' :: t' != t ==> EntryOf(AddSample(m, t, s), t') == EntryOf(m, t')
    ensures Keys(AddSample(m, t, s)) == if t in Keys(m) then Keys(m) else Keys(m) + [t]
  {
  }

  /** The inner loop over the acronyms `toks` of one row, whose sample is `s`. */
  function AddRow(m: Terms, toks: seq<string>, s: Sample): Terms {
    if toks == [] then m
    else AddSample(AddRow(m, toks[..|toks| - 1], s), toks[|toks| - 1], s)
  }

  /** The `terms` map once every row has been read. */
  function TermsOf(rows: seq<ReservoirRow>): Terms {
    if rows == [] then []
    else
      var r := rows[|rows| - 1];
      AddRow(TermsOf(rows[..|rows| - 1]), ExtractAcronymsOf(r.text), SampleOf(r))
  }

  /** The samples of the rows whose text yields `t`, in reservoir order: an account of a term's samples without the map. */
  function SamplesWith(rows: seq<ReservoirRow>, t: string): seq<Sample> {
    if rows == [] then []
    else
      var r := rows[|rows| - 1];
      SamplesWith(rows[..|rows| - 1], t) + if t in ExtractAcronymsOf(r.text) then [SampleOf(r)] else []
  }

  method FillRow(terms: Terms, toks: seq<string>, s: Sample) returns (after: Terms)
    ensures after == AddRow(terms, toks, s)
  {
    after := terms;
    assert toks[..0] == [];
    for k := 0 to |toks|
      invariant after == AddRow(terms, toks[..k], s)
    {
      var t := toks[k];
      var e := EntryOf(after, t);
      if |e.samples| < 3 {
        e := TermEntry(e.term, e.samples + [s]);
      }
      assert toks[..k + 1][..k] == toks[..k];
      after := Put(after, t, e);
    }
    assert toks[..|toks|] == toks;
  }

  /** The loops of `discover` that fill `terms`. */
  method FillTerms(rows: seq<ReservoirRow>) returns (terms: Terms)
    ensures terms == TermsOf(rows)
  {
    terms := [];
    for i := 0 to |rows|
      invariant terms == TermsOf(rows[..i])
    {
      var r := rows[i];
      var toks := ExtractAcronyms(r.text);
      TermsSnoc(rows, i);
      terms := FillRow(terms, toks, SampleOf(r));
    }
    assert rows[..|rows|] == rows;
  }

  lemma TermsSnoc(rows: seq<ReservoirRow>, i: nat)
    requires i < |rows|
    ensures TermsOf(rows[..i + 1]) == AddRow(TermsOf(rows[..i]), ExtractAcronymsOf(rows[i].text), SampleOf(rows[i]))
  {
    assert rows[..i + 1][..i] == rows[..i];
  }

  // ---- what the map holds ----

  lemma {:induction false} AddRowValid(m: Terms, toks: seq<string>, s: Sample)
    requires Valid(m)
    ensures Valid(AddRow(m, toks, s))
    decreases |toks|
  {
    if toks != [] {
      AddRowValid(m, toks[..|toks| - 1], s);
      AddSampleFacts(AddRow(m, toks[..|toks| - 1], s), toks[|toks| - 1], s);
    }
  }

  lemma {:induction false} TermsValid(rows: seq<ReservoirRow>)
    ensures Valid(TermsOf(rows))
    decreases |rows|
  {
    if rows != [] {
      TermsValid(rows[..|rows| - 1]);
      var r := rows[|rows| - 1];
      AddRowValid(TermsOf(rows[..|rows| - 1]), ExtractAcronymsOf(r.text), SampleOf(r));
    }
  }

  lemma DistinctInit(toks: seq<string>)
    requires toks != [] && Distinct(toks)
    ensures Distinct(toks[..|toks| - 1]) && toks[|toks| - 1] !in toks[..|toks| - 1]
  {
  }

  lemma AddRowSnoc(m: Terms, toks: seq<string>, s: Sample)
    requires toks != []
    ensures AddRow(m, toks, s) == AddSample(AddRow(m, toks[..|toks| - 1], s), toks[|toks| - 1], s)
  {
  }

  lemma EntryStep(m: Terms, toks: seq<string>, s: Sample, t: string)
    requires toks != []
    ensures var mid, last := AddRow(m, toks[..|toks| - 1], s), toks[|toks| - 1];
      EntryOf(AddRow(m, toks, s), t) == if t == last then Push(EntryOf(mid, t), s) else EntryOf(mid, t)
  {
    AddRowSnoc(m, toks, s);
    AddSampleFacts(AddRow(m, toks[..|toks| - 1], s), toks[|toks| - 1], s);
  }

  lemma KeysStep(m: Terms, toks: seq<string>, s: Sample, t: string)
    requires toks != []
    ensures t in Keys(AddRow(m, toks, s)) <==> t in Keys(AddRow(m, toks[..|toks| - 1], s)) || t == toks[|toks| - 1]
  {
    var mid, last := AddRow(m, toks[..|toks| - 1], s), toks[|toks| - 1];
    AddRowSnoc(m, toks, s);
    AddSampleFacts(mid, last, s);
    var ks := Keys(mid);
    assert t in ks + [last] <==> t in ks || t == last;
  }

  /** A row whose acronyms are distinct offers each of them its sample once. */
  lemma {:induction false} AddRowEntry(m: Terms, toks: seq<string>, s: Sample, t: string)
    requires Distinct(toks)
    ensures EntryOf(AddRow(m, toks, s), t) == if t in toks then Push(EntryOf(m, t), s) else EntryOf(m, t)
    decreases |toks|
  {
    if toks != [] {
      DistinctInit(toks);
      AddRowEntry(m, toks[..|toks| - 1], s, t);
      EntryStep(m, toks, s, t);
      InSnoc(toks, t);
    }
  }

  lemma {:induction false} AddRowKeys(m: Terms, toks: seq<string>, s: Sample, t: string)
    ensures t in Keys(AddRow(m, toks, s)) <==> t in Keys(m) || t in toks
    decreases |toks|
  {
    if toks != [] {
      AddRowKeys(m, toks[..|toks| - 1], s, t);
      KeysStep(m, toks, s, t);
      InSnoc(toks, t);
    }
  }

  /** Pushing onto the first three samples keeps the first three. */
  lemma PushSlice(t: string, xs: seq<Sample>, s: Sample)
    ensures Push(TermEntry(t, SliceTo(xs, 3)), s) == TermEntry(t, SliceTo(xs + [s], 3))
  {
    if |xs| < 3 {
      assert SliceTo(xs, 3) == xs;
    } else {
      assert (xs + [s])[..3] == xs[..3];
    }
  }

  lemma SamplesStep(rows: seq<ReservoirRow>, t: string, e0: TermEntry, e1: TermEntry)
    requires rows != []
    requires e0 == TermEntry(t, SliceTo(SamplesWith(rows[..|rows| - 1], t), 3))
    requires var r := rows[|rows| - 1]; e1 == if t in ExtractAcronymsOf(r.text) then Push(e0, SampleOf(r)) else e0
    ensures e1 == TermEntry(t, SliceTo(SamplesWith(rows, t), 3))
  {
    var r := rows[|rows| - 1];
    var xs := SamplesWith(rows[..|rows| - 1], t);
    if t in ExtractAcronymsOf(r.text) {
      PushSlice(t, xs, SampleOf(r));
    } else {
      assert SamplesWith(rows, t) == xs + [] == xs;
    }
  }

  /** The entry of `t` holds the first three samples of the rows that yield `t`, in reservoir order. */
  lemma {:induction false} TermsSamples(rows: seq<ReservoirRow>, t: string)
    ensures EntryOf(TermsOf(rows), t) == TermEntry(t, SliceTo(SamplesWith(rows, t), MaxSamples))
    decreases |rows|
  {
    if rows != [] {
      var init, r := rows[..|rows| - 1], rows[|rows| - 1];
      TermsSamples(init, t);
      ExtractFacts(r.text, t);
      AddRowEntry(TermsOf(init), ExtractAcronymsOf(r.text), SampleOf(r), t);
      SamplesStep(rows, t, EntryOf(TermsOf(init), t), EntryOf(TermsOf(rows), t));
    }
  }

  /** The map has an entry for exactly the acronyms some row yields. */
  lemma {:induction false} TermsKeys(rows: seq<ReservoirRow>, t: string)
    ensures t in Keys(TermsOf(rows)) <==> SamplesWith(rows, t) != []
    decreases |rows|
  {
    if rows != [] {
      var init, r := rows[..|rows| - 1], rows[|rows| - 1];
      TermsKeys(init, t);
      AddRowKeys(TermsOf(init), ExtractAcronymsOf(r.text), SampleOf(r), t);
    }
  }

  /** Every entry is the acronym under which it is stored, with its first three samples. */
  lemma TermsEntryAt(rows: seq<ReservoirRow>, i: nat)
    requires i < |TermsOf(rows)|
    ensures var e := TermsOf(rows)[i];
      e.1 == TermEntry(e.0, SliceTo(SamplesWith(rows, e.0), MaxSamples))
      && SamplesWith(rows, e.0) != []
  {
    var m := TermsOf(rows);
    TermsValid(rows);
    GetAt(m, i);
    TermsSamples(rows, m[i].0);
    TermsKeys(rows, m[i].0);
  }

  /** A sample of `t` is the sample of a row whose text yields `t`. */
  lemma {:induction false} SamplesFromRows(rows: seq<ReservoirRow>, t: string, s: Sample)
    requires s in SamplesWith(rows, t)
    ensures exists k :: 0 <= k < |rows| && s == SampleOf(rows[k]) && t in ExtractAcronymsOf(rows[k].text)
    decreases |rows|
  {
    var init, r := rows[..|rows| - 1], rows[|rows| - 1];
    if s in SamplesWith(init, t) {
      SamplesFromRows(init, t, s);
      var k :| 0 <= k < |init| && s == SampleOf(init[k]) && t in ExtractAcronymsOf(init[k].text);
      assert rows[k] == init[k];
    } else {
      assert s == SampleOf(r) && t in ExtractAcronymsOf(r.text);
    }
  }

  // ---- discover: ranking and the items ----

  function SampleCount(e: TermEntry): real {
    |e.samples| as real
  }

  function TermOf(e: TermEntry): string {
    e.term
  }

  /** `[...terms.values()]`. */
  function Values(m: Terms): seq<TermEntry> {
    seq(|m|, i requires 0 <= i < |m| => m[i].1)
  }

  /** `ranked`: the entries by number of samples, most first; ties keep the map's order. */
  function Ranked(m: Terms): seq<TermEntry> {
    SortDesc(Values(m), SampleCount)
  }

  /** `limit ? ranked.slice(0, limit) : ranked`. */
  function Picked(ranked: seq<TermEntry>, limit: int): (p: seq<TermEntry>)
    ensures limit > 0 ==> |p| <= limit
    ensures limit == 0 ==> p == ranked
    ensures |p| <= |ranked| && p == ranked[..|p|]
  {
    if limit != 0 then SliceTo(ranked, limit) else ranked
  }

  /** `v.samples.map(s => ({ term: v.term, sample: s }))`. */
  function EntryPairs(e: TermEntry): seq<(string, Sample)> {
    seq(|e.samples|, j requires 0 <= j < |e.samples| => (e.term, e.samples[j]))
  }

  /** The `flatMap` over the picked entries. */
  function Pairs(picked: seq<TermEntry>): seq<(string, Sample)> {
    if picked == [] then [] else Pairs(picked[..|picked| - 1]) + EntryPairs(picked[|picked| - 1])
  }

  /** The total number of samples of some entries. */
  function TotalSamples(es: seq<TermEntry>): nat {
    if es == [] then 0 else TotalSamples(es[..|es| - 1]) + |es[|es| - 1].samples|
  }

  /** `(p.sample.lang as any) || "en"`: a missing or empty language is "en". */
  function LangOr(lang: Option<string>): (l: string)
    ensures l == "en" || (lang.Some? && l == lang.value)
    ensures lang.Some? && lang.value != "" ==> l == lang.value
  {
    if lang.Some? && lang.value != "" then lang.value else "en"
  }

  /**
   * The item id: `acr:`, the acronym, the item's index and the first twelve
   * characters of the base64 encoding of the URL, which `encode` stands for.
   */
  function ItemId(term: string, i: nat, url: string, encode: string -> string): string {
    "acr:" + term + ":" + Decimal(i) + ":" + encode(url)
  }

  function ItemOf(p: (string, Sample), i: nat, now: int, encode: string -> string): SourceItem {
    SourceItem(ItemId(p.0, i, p.1.url, encode), Niche, p.0, LangOr(p.1.lang), p.1.text, p.1.url, 0, 0, 0, now, None)
  }

  function Items(pairs: seq<(string, Sample)>, now: int, encode: string -> string): seq<SourceItem> {
    seq(|pairs|, i requires 0 <= i < |pairs| => ItemOf(pairs[i], i, now, encode))
  }

  /** What `discover({ limit })` returns for the reservoir `rows`, at time `now`. */
  function DiscoverOf(rows: seq<ReservoirRow>, limit: int, now: int, encode: string -> string): seq<SourceItem> {
    Items(Pairs(Picked(Ranked(TermsOf(rows)), limit)), now, encode)
  }

  /** `discover`, given the reservoir that `buildReservoir(600)` returned; `live` does not matter. */
  method Discover(rows: seq<ReservoirRow>, limit: int, now: int, encode: string -> string) returns (items: seq<SourceItem>)
    ensures items == DiscoverOf(rows, limit, now, encode)
  {
    var terms := FillTerms(rows);
    var ranked := SortDesc(Values(terms), SampleCount);
    var picked := if limit != 0 then SliceTo(ranked, limit) else ranked;
    items := Items(Pairs(picked), now, encode);
  }

  // ---- what discover returns ----

  lemma ValuesFacts(rows: seq<ReservoirRow>)
    ensures var vs := Values(TermsOf(rows));
      DistinctBy(vs, TermOf)
      && forall e :: e in vs ==>
           e == TermEntry(e.term, SliceTo(SamplesWith(rows, e.term), MaxSamples)) && SamplesWith(rows, e.term) != []
  {
    var m := TermsOf(rows);
    var vs := Values(m);
    forall i | 0 <= i < |vs|
      ensures vs[i] == TermEntry(vs[i].term, SliceTo(SamplesWith(rows, vs[i].term), MaxSamples))
      ensures SamplesWith(rows, vs[i].term) != [] && vs[i].term == m[i].0
    {
      TermsEntryAt(rows, i);
    }
    TermsValid(rows);
  }

  /**
   * The ranking lists each acronym once, by non-increasing number of
   * samples; each entry holds the first three samples of the rows that
   * yield its acronym (so between one and three of them).
   */
  lemma RankingFacts(rows: seq<ReservoirRow>)
    ensures var r := Ranked(TermsOf(rows));
      SortedDesc(r, SampleCount) && DistinctBy(r, TermOf)
      && forall e :: e in r ==>
           e.samples == SliceTo(SamplesWith(rows, e.term), MaxSamples) && 1 <= |e.samples| <= MaxSamples
  {
    var vs := Values(TermsOf(rows));
    ValuesFacts(rows);
    SortDescDistinctBy(vs, SampleCount, TermOf);
    forall e | e in Ranked(TermsOf(rows))
      ensures e.samples == SliceTo(SamplesWith(rows, e.term), MaxSamples) && 1 <= |e.samples| <= MaxSamples
    {
      assert e in multiset(Ranked(TermsOf(rows)));
      assert e in vs;
    }
  }

  lemma RankedEntry(rows: seq<ReservoirRow>, e: TermEntry)
    requires e in Ranked(TermsOf(rows))
    ensures e.samples == SliceTo(SamplesWith(rows, e.term), MaxSamples) && SamplesWith(rows, e.term) != []
  {
    var m := TermsOf(rows);
    assert e in multiset(Ranked(m));
    var i :| 0 <= i < |Values(m)| && Values(m)[i] == e;
    TermsEntryAt(rows, i);
  }

  /** Every acronym that some row yields is ranked. */
  lemma RankingComplete(rows: seq<ReservoirRow>, t: string)
    requires SamplesWith(rows, t) != []
    ensures exists e :: e in Ranked(TermsOf(rows)) && e.term == t
  {
    var m := TermsOf(rows);
    TermsKeys(rows, t);
    var i :| 0 <= i < |m| && m[i].0 == t;
    TermsEntryAt(rows, i);
    var e := Values(m)[i];
    assert e in multiset(Values(m));
    assert e in Ranked(m);
  }

  lemma {:induction false} PairsLength(p: seq<TermEntry>)
    ensures |Pairs(p)| == TotalSamples(p)
    decreases |p|
  {
    if p != [] { PairsLength(p[..|p| - 1]); }
  }

  lemma {:induction false} PairsFrom(p: seq<TermEntry>, k: nat)
    requires k < |Pairs(p)|
    ensures exists e, j :: e in p && 0 <= j < |e.samples| && Pairs(p)[k] == (e.term, e.samples[j])
    decreases |p|
  {
    var init, last := p[..|p| - 1], p[|p| - 1];
    if k < |Pairs(init)| {
      PairsFrom(init, k);
      var e, j :| e in init && 0 <= j < |e.samples| && Pairs(init)[k] == (e.term, e.samples[j]);
      assert e in p;
    } else {
      var j := k - |Pairs(init)|;
      assert Pairs(p)[k] == EntryPairs(last)[j];
    }
  }

  lemma {:induction false} PairsHas(p: seq<TermEntry>, e: TermEntry, j: nat)
    requires e in p && j < |e.samples|
    ensures (e.term, e.samples[j]) in Pairs(p)
    decreases |p|
  {
    var init, last := p[..|p| - 1], p[|p| - 1];
    if e == last {
      assert EntryPairs(last)[j] == (e.term, e.samples[j]);
    } else {
      assert p == init + [last];
      PairsHas(init, e, j);
    }
  }

  /** With `limit == 0` every acronym that some row yields gets an item. */
  lemma UnlimitedComplete(rows: seq<ReservoirRow>, now: int, encode: string -> string, t: string)
    requires SamplesWith(rows, t) != []
    ensures exists i :: 0 <= i < |DiscoverOf(rows, 0, now, encode)| && DiscoverOf(rows, 0, now, encode)[i].term == t
  {
    var ranked := Ranked(TermsOf(rows));
    RankingComplete(rows, t);
    var e :| e in ranked && e.term == t;
    RankedEntry(rows, e);
    PairsHas(ranked, e, 0);
    var pairs := Pairs(ranked);
    var i :| 0 <= i < |pairs| && pairs[i] == (t, e.samples[0]);
    assert DiscoverOf(rows, 0, now, encode)[i].term == t;
  }

  lemma {:induction false} TotalBound(es: seq<TermEntry>)
    requires forall e :: e in es ==> |e.samples| <= MaxSamples
    ensures TotalSamples(es) <= MaxSamples * |es|
    decreases |es|
  {
    if es != [] {
      assert es[|es| - 1] in es;
      TotalBound(es[..|es| - 1]);
    }
  }

  /**
   * There is one item per sample of the picked acronyms, so at most three
   * per acronym; with `limit > 0` at most `limit` acronyms are picked, with
   * `limit == 0` all of them.
   */
  lemma ItemCount(rows: seq<ReservoirRow>, limit: int, now: int, encode: string -> string)
    ensures var picked := Picked(Ranked(TermsOf(rows)), limit);
      |DiscoverOf(rows, limit, now, encode)| == TotalSamples(picked) <= MaxSamples * |picked|
      && (limit > 0 ==> |picked| <= limit)
      && (limit == 0 ==> picked == Ranked(TermsOf(rows)))
  {
    var ranked := Ranked(TermsOf(rows));
    var picked := Picked(ranked, limit);
    RankingFacts(rows);
    PairsLength(picked);
    forall e | e in picked ensures |e.samples| <= MaxSamples {
      var k :| 0 <= k < |picked| && picked[k] == e;
      assert ranked[k] == e;
    }
    TotalBound(picked);
  }

  lemma PickedIn(ranked: seq<TermEntry>, limit: int, e: TermEntry)
    requires e in Picked(ranked, limit)
    ensures e in ranked
  {
    var p := Picked(ranked, limit);
    var n :| 0 <= n < |p| && p[n] == e;
    assert ranked[n] == e;
  }

  lemma RankedSample(rows: seq<ReservoirRow>, e: TermEntry, j: nat)
    requires e in Ranked(TermsOf(rows)) && j < |e.samples|
    ensures exists k :: 0 <= k < |rows| && e.samples[j] == SampleOf(rows[k]) && e.term in ExtractAcronymsOf(rows[k].text)
  {
    RankedEntry(rows, e);
    KeptSampleFromRows(rows, e.term, e.samples, j);
  }

  lemma KeptSampleFromRows(rows: seq<ReservoirRow>, t: string, kept: seq<Sample>, j: nat)
    requires kept == SliceTo(SamplesWith(rows, t), MaxSamples) && j < |kept|
    ensures exists k :: 0 <= k < |rows| && kept[j] == SampleOf(rows[k]) && t in ExtractAcronymsOf(rows[k].text)
  {
    assert kept[j] in SamplesWith(rows, t);
    SamplesFromRows(rows, t, kept[j]);
  }

  /** A sample of a picked acronym is the sample of a row that yields it. */
  lemma PickedSample(rows: seq<ReservoirRow>, limit: int, e: TermEntry, j: nat)
    requires e in Picked(Ranked(TermsOf(rows)), limit) && j < |e.samples|
    ensures exists k :: 0 <= k < |rows| && e.samples[j] == SampleOf(rows[k]) && e.term in ExtractAcronymsOf(rows[k].text)
  {
    PickedIn(Ranked(TermsOf(rows)), limit, e);
    RankedSample(rows, e, j);
  }

  /**
   * Each item is a sample of a picked acronym: its text, URL and language
   * (defaulting to "en") are those of a reservoir row whose text yields the
   * acronym, its counters are 0 and it was first seen `now`.
   */
  lemma ItemFacts(rows: seq<ReservoirRow>, limit: int, now: int, encode: string -> string, i: nat)
    requires i < |DiscoverOf(rows, limit, now, encode)|
    ensures var it := DiscoverOf(rows, limit, now, encode)[i];
      it.niche == Niche && it.likes == 0 && it.shares == 0 && it.comments == 0
      && it.firstSeenAt == now && it.mediaUrl.None?
      && it.id == ItemId(it.term, i, it.sourceUrl, encode)
      && (exists e :: e in Picked(Ranked(TermsOf(rows)), limit) && e.term == it.term)
      && exists k :: 0 <= k < |rows| && it.term in ExtractAcronymsOf(rows[k].text)
           && it.text == rows[k].text && it.sourceUrl == rows[k].url && it.lang == LangOr(rows[k].lang)
  {
    var picked := Picked(Ranked(TermsOf(rows)), limit);
    var pairs := Pairs(picked);
    assert DiscoverOf(rows, limit, now, encode)[i] == ItemOf(pairs[i], i, now, encode);
    PairsFrom(picked, i);
    var e, j :| e in picked && 0 <= j < |e.samples| && pairs[i] == (e.term, e.samples[j]);
    PickedSample(rows, limit, e, j);
  }

  // ---- the ids are distinct ----

  lemma SplitAtSeparator(a: string, b: string, a2: string, b2: string, c: char)
    requires c !in a && c !in a2
    requires a + [c] + b == a2 + [c] + b2
    ensures a == a2 && b == b2
  {
    var s := a + [c] + b;
    assert s == a2 + [c] + b2;
    assert forall k :: 0 <= k < |a| ==> s[k] != c;
    assert forall k :: 0 <= k < |a2| ==> s[k] != c;
    assert s[|a|] == c && s[|a2|] == c;
    assert |a| == |a2|;
    assert a == s[..|a|] && a2 == s[..|a2|];
    assert b == s[|a| + 1..] && b2 == s[|a2| + 1..];
  }

  /** Two items with the same id have the same index, as long as the acronyms hold no ':'. */
  lemma IdInjective(t1: string, i1: nat, u1: string, t2: string, i2: nat, u2: string, encode: string -> string)
    requires ':' !in t1 && ':' !in t2
    requires ItemId(t1, i1, u1, encode) == ItemId(t2, i2, u2, encode)
    ensures i1 == i2 && t1 == t2
  {
    var d1, d2 := Decimal(i1), Decimal(i2);
    RadixDigits(i1);
    RadixDigits(i2);
    assert ':' !in d1 && ':' !in d2;
    var id1, id2 := ItemId(t1, i1, u1, encode), ItemId(t2, i2, u2, encode);
    assert id1 == "acr:" + (t1 + [':'] + (d1 + [':'] + encode(u1)));
    assert id2 == "acr:" + (t2 + [':'] + (d2 + [':'] + encode(u2)));
    assert id1[4..] == t1 + [':'] + (d1 + [':'] + encode(u1));
    assert id2[4..] == t2 + [':'] + (d2 + [':'] + encode(u2));
    SplitAtSeparator(t1, d1 + [':'] + encode(u1), t2, d2 + [':'] + encode(u2), ':');
    SplitAtSeparator(d1, encode(u1), d2, encode(u2), ':');
    RadixInjective(i1, i2, 10);
  }

  /** No two items of one call share an id: the index makes each one unique. */
  lemma IdsDistinct(rows: seq<ReservoirRow>, limit: int, now: int, encode: string -> string, i: nat, j: nat)
    requires i < j < |DiscoverOf(rows, limit, now, encode)|
    ensures DiscoverOf(rows, limit, now, encode)[i].id != DiscoverOf(rows, limit, now, encode)[j].id
  {
    var items := DiscoverOf(rows, limit, now, encode);
    ItemFacts(rows, limit, now, encode, i);
    ItemFacts(rows, limit, now, encode, j);
    var ki :| 0 <= ki < |rows| && items[i].term in ExtractAcronymsOf(rows[ki].text);
    var kj :| 0 <= kj < |rows| && items[j].term in ExtractAcronymsOf(rows[kj].text);
    ExtractFacts(rows[ki].text, items[i].term);
    ExtractFacts(rows[kj].text, items[j].term);
    if items[i].id == items[j].id {
      IdInjective(items[i].term, i, items[i].sourceUrl, items[j].term, j, items[j].sourceUrl, encode);
    }
  }

  // ---- slugFor ----

  /** `slugFor(item)`: `what-does-`, the lower-cased acronym, `-mean`. */
  function SlugFor(item: SourceItem): (slug: string)
    ensures |slug| == |item.term| + 15
    ensures slug[..10] == "what-does-" && slug[|slug| - 5..] == "-mean"
    ensures slug[10..|slug| - 5] == LowerAscii(item.term)
  {
    "what-does-" + LowerAscii(item.term) + "-mean"
  }

  /** Distinct acronyms get distinct slugs. */
  lemma SlugInjective(a: SourceItem, b: SourceItem)
    requires AcronymExtractor.IsAcronym(a.term) && AcronymExtractor.IsAcronym(b.term)
    requires SlugFor(a) == SlugFor(b)
    ensures a.term == b.term
  {
    var la, lb := LowerAscii(a.term), LowerAscii(b.term);
    assert la == lb;
    forall k | 0 <= k < |a.term| ensures a.term[k] == b.term[k] {
      assert la[k] == LowerChar(a.term[k]) && lb[k] == LowerChar(b.term[k]);
    }
  }
}
