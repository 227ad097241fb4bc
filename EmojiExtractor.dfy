/**
 * `extractEmojiCandidates` (packages/factory/extractors/emoji.ts): counts the
 * emoji of every reservoir row, drops the denylisted ones, scores the rest
 * (evergreen emoji are damped by a factor 0.8) and returns the `topN` best.
 *
 * `matchEmoji` stands for `text.match(EMOJI_REGEX) || []`, whose Unicode
 * property classes are not modelled; `evergreen` is the `EVERGREEN` table and
 * `denylist` the value of `EMOJI_DENYLIST` ("" when unset).
 */
module EmojiExtractor {
  import opened Wrappers
  import opened JsText
  import opened Seqs
  import opened OrderedMap
  import opened Types
  import opened Tally

  datatype EmojiCandidate = EmojiCandidate(term: string, emoji: string, score: int, evidence: seq<string>)

  const DefaultTopN: int := 20

  /** `(it.text.match(EMOJI_REGEX) || []).slice(0, 6)`: only the first six matches of a row count. */
  function FirstSix(matchEmoji: string -> seq<string>): string -> seq<string> {
    text => SliceTo(matchEmoji(text), 6)
  }

  function EmojiObservations(rows: seq<ReservoirRow>, matchEmoji: string -> seq<string>): seq<(string, string)> {
    Observations(rows, FirstSix(matchEmoji), {})
  }

  /** `Math.round(hits * (EVERGREEN.has(emoji) ? 0.8 : 1))`. */
  function EmojiScore(emoji: string, hits: nat, evergreen: set<string>): (s: int)
    ensures 0 <= s <= hits
    ensures emoji !in evergreen ==> s == hits
    ensures emoji in evergreen ==> hits as real * 0.8 - 0.5 < s as real <= hits as real * 0.8 + 0.5
  {
    if emoji in evergreen then Round(hits as real * 0.8) else hits
  }

  function ToCandidate(e: (string, Counter), evergreen: set<string>): EmojiCandidate {
    EmojiCandidate(e.0 + " emoji meaning", e.0, EmojiScore(e.0, e.1.hits, evergreen), SliceTo(e.1.urls, 3))
  }

  function ScoreKey(c: EmojiCandidate): real {
    c.score as real
  }

  /** `[...counts.entries()].map(…)`, in the map's order. */
  function Candidates(counts: Counts, evergreen: set<string>): seq<EmojiCandidate> {
    seq(|counts|, i requires 0 <= i < |counts| => ToCandidate(counts[i], evergreen))
  }

  /** `.sort((a, b) => b.score - a.score).slice(0, topN)`. */
  function Ranked(counts: Counts, evergreen: set<string>, topN: int): seq<EmojiCandidate> {
    SliceTo(SortDesc(Candidates(counts, evergreen), ScoreKey), topN)
  }

  /** The map once the denylisted emoji are deleted. */
  function Allowed(rows: seq<ReservoirRow>, matchEmoji: string -> seq<string>, denylist: string): (m: Counts)
    ensures Valid(m)
  {
    var obs := EmojiObservations(rows, matchEmoji);
    TallyValid(obs);
    RemoveAll(TallyOf(obs), ListSetting(denylist))
  }

  /** What `extractEmojiCandidates(reservoir, topN)` returns. */
  function EmojiCandidatesOf(rows: seq<ReservoirRow>, topN: int, matchEmoji: string -> seq<string>, evergreen: set<string>, denylist: string): seq<EmojiCandidate> {
    Ranked(Allowed(rows, matchEmoji, denylist), evergreen, topN)
  }

  lemma AllowedOf(rows: seq<ReservoirRow>, matchEmoji: string -> seq<string>, denylist: string, full: Counts)
    requires full == TallyOf(Observations(rows, FirstSix(matchEmoji), {}))
    ensures Valid(full) && Allowed(rows, matchEmoji, denylist) == RemoveAll(full, ListSetting(denylist))
  {
    TallyValid(EmojiObservations(rows, matchEmoji));
  }

  lemma RemoveNext(counts: Counts, full: Counts, deny: seq<string>, i: nat)
    requires Valid(full) && i < |deny| && counts == RemoveAll(full, deny[..i])
    ensures Valid(counts) && Remove(counts, deny[i]) == RemoveAll(full, deny[..i + 1])
  {
    assert deny[..i + 1][..i] == deny[..i];
  }

  method ExtractEmojiCandidates(rows: seq<ReservoirRow>, topN: int, matchEmoji: string -> seq<string>, evergreen: set<string>, denylist: string)
    returns (r: seq<EmojiCandidate>)
    ensures r == EmojiCandidatesOf(rows, topN, matchEmoji, evergreen, denylist)
  {
    var counts := CountTokens(rows, FirstSix(matchEmoji), {});
    ghost var full := counts;
    AllowedOf(rows, matchEmoji, denylist, full);
    var deny := ListSetting(denylist);
    for i := 0 to |deny|
      invariant counts == RemoveAll(full, deny[..i])
    {
      RemoveNext(counts, full, deny, i);
      counts := Remove(counts, deny[i]);
    }
    assert deny[..|deny|] == deny;
    r := Ranked(counts, evergreen, topN);
  }

  // ---- what the result holds ----

  /** A candidate of the ranking comes from one entry of the map. */
  lemma RankedEntry(counts: Counts, evergreen: set<string>, topN: int, c: EmojiCandidate)
    requires c in Ranked(counts, evergreen, topN)
    ensures exists i :: 0 <= i < |counts| && c == ToCandidate(counts[i], evergreen)
  {
    var cs := Candidates(counts, evergreen);
    var sorted := SortDesc(cs, ScoreKey);
    assert c in sorted;
    assert c in multiset(sorted);
    assert c in cs;
  }

  /** An entry that survives the denylist holds the tally of its emoji. */
  lemma AllowedEntry(rows: seq<ReservoirRow>, matchEmoji: string -> seq<string>, denylist: string, i: nat)
    requires i < |Allowed(rows, matchEmoji, denylist)|
    ensures var e := Allowed(rows, matchEmoji, denylist)[i];
      var obs := EmojiObservations(rows, matchEmoji);
      e.0 !in ListSetting(denylist) && e.1 == Counter(Count(Tokens(obs), e.0), Firsts(UrlsFor(obs, e.0)))
      && Count(Tokens(obs), e.0) > 0
  {
    var obs := EmojiObservations(rows, matchEmoji);
    var m := Allowed(rows, matchEmoji, denylist);
    var full := TallyOf(obs);
    var j :| 0 <= j < |full| && full[j] == m[i];
    TallyEntry(obs, j);
    GetAt(m, i);
  }

  /**
   * Every candidate is a non-denylisted emoji seen `hits > 0` times (the first
   * six matches of each row, repeats included); its term is the emoji followed
   * by " emoji meaning", its score is `hits`, or `Math.round(hits * 0.8)` for an
   * evergreen emoji, and its evidence is the first three distinct non-empty URLs
   * of the rows it was seen in.
   */
  lemma CandidateFacts(rows: seq<ReservoirRow>, topN: int, matchEmoji: string -> seq<string>, evergreen: set<string>, denylist: string, c: EmojiCandidate)
    requires c in EmojiCandidatesOf(rows, topN, matchEmoji, evergreen, denylist)
    ensures var hits := SumCounts(rows, FirstSix(matchEmoji), {}, c.emoji);
      && c.emoji !in ListSetting(denylist)
      && c.term == c.emoji + " emoji meaning"
      && hits > 0
      && c.score == EmojiScore(c.emoji, hits, evergreen) && c.score <= hits
      && c.evidence == SliceTo(Firsts(UrlsFor(EmojiObservations(rows, matchEmoji), c.emoji)), 3)
      && |c.evidence| <= 3 && Distinct(c.evidence)
  {
    var m := Allowed(rows, matchEmoji, denylist);
    RankedEntry(m, evergreen, topN, c);
    var i :| 0 <= i < |m| && c == ToCandidate(m[i], evergreen);
    AllowedEntry(rows, matchEmoji, denylist, i);
    HitsPerRow(rows, FirstSix(matchEmoji), {}, c.emoji);
    var obs := EmojiObservations(rows, matchEmoji);
    CandidateOfCounter(m[i], evergreen, Count(Tokens(obs), m[i].0), Firsts(UrlsFor(obs, m[i].0)));
  }

  lemma CandidateOfCounter(e: (string, Counter), evergreen: set<string>, hits: nat, urls: seq<string>)
    requires e.1 == Counter(hits, urls) && Distinct(urls)
    ensures var c := ToCandidate(e, evergreen);
      c.emoji == e.0 && c.term == e.0 + " emoji meaning" && c.score == EmojiScore(e.0, hits, evergreen)
      && c.evidence == SliceTo(urls, 3) && |c.evidence| <= 3 && Distinct(c.evidence)
  {
  }

  /** Each evidence URL belongs to a row in which the emoji was counted. */
  lemma EvidenceFacts(rows: seq<ReservoirRow>, topN: int, matchEmoji: string -> seq<string>, evergreen: set<string>, denylist: string, c: EmojiCandidate, u: string)
    requires c in EmojiCandidatesOf(rows, topN, matchEmoji, evergreen, denylist)
    requires u in c.evidence
    ensures u != "" && exists i :: 0 <= i < |rows| && rows[i].url == u && c.emoji in SliceTo(matchEmoji(rows[i].text), 6)
  {
    CandidateFacts(rows, topN, matchEmoji, evergreen, denylist, c);
    var obs := EmojiObservations(rows, matchEmoji);
    assert u in Firsts(UrlsFor(obs, c.emoji));
    EvidenceFromRows(rows, FirstSix(matchEmoji), {}, c.emoji, u);
  }

  function EmojiOf(c: EmojiCandidate): string {
    c.emoji
  }

  lemma CandidatesDistinct(m: Counts, evergreen: set<string>)
    requires Valid(m)
    ensures DistinctBy(Candidates(m, evergreen), EmojiOf)
  {
  }

  /** The result is sorted by non-increasing score, has at most `topN` entries, and lists each emoji once. */
  lemma RankingFacts(rows: seq<ReservoirRow>, topN: int, matchEmoji: string -> seq<string>, evergreen: set<string>, denylist: string)
    ensures var r := EmojiCandidatesOf(rows, topN, matchEmoji, evergreen, denylist);
      SortedDesc(r, ScoreKey) && (topN >= 0 ==> |r| <= topN)
      && forall i, j :: 0 <= i < j < |r| ==> r[i].emoji != r[j].emoji
  {
    var m := Allowed(rows, matchEmoji, denylist);
    var sorted := SortDesc(Candidates(m, evergreen), ScoreKey);
    CandidatesDistinct(m, evergreen);
    SortDescDistinctBy(Candidates(m, evergreen), ScoreKey, EmojiOf);
    var r := EmojiCandidatesOf(rows, topN, matchEmoji, evergreen, denylist);
    assert r == sorted[..|r|];
    forall i, j | 0 <= i < j < |r| ensures r[i].emoji != r[j].emoji {
      assert EmojiOf(sorted[i]) != EmojiOf(sorted[j]);
    }
  }

  /** An allowed emoji that was seen has an entry in the map, holding its hits. */
  lemma AllowedHas(rows: seq<ReservoirRow>, matchEmoji: string -> seq<string>, denylist: string, e: string)
    requires e !in ListSetting(denylist)
    requires SumCounts(rows, FirstSix(matchEmoji), {}, e) > 0
    ensures exists i :: 0 <= i < |Allowed(rows, matchEmoji, denylist)| && Allowed(rows, matchEmoji, denylist)[i].0 == e
  {
    var obs := EmojiObservations(rows, matchEmoji);
    var m := Allowed(rows, matchEmoji, denylist);
    HitsPerRow(rows, FirstSix(matchEmoji), {}, e);
    CountIn(Tokens(obs), e);
    TallyKeys(obs);
    assert Get(m, e).Some?;
    assert e in Keys(m);
  }

  /**
   * Nothing better is cut off: an allowed emoji that was seen but is not in the
   * result scores no higher than any candidate returned, and the result is full.
   */
  lemma TopNComplete(rows: seq<ReservoirRow>, topN: int, matchEmoji: string -> seq<string>, evergreen: set<string>, denylist: string, e: string)
    requires e !in ListSetting(denylist)
    requires SumCounts(rows, FirstSix(matchEmoji), {}, e) > 0
    requires forall c :: c in EmojiCandidatesOf(rows, topN, matchEmoji, evergreen, denylist) ==> c.emoji != e
    ensures var r := EmojiCandidatesOf(rows, topN, matchEmoji, evergreen, denylist);
      (topN >= 0 ==> |r| == topN) && forall c :: c in r ==> c.score >= EmojiScore(e, SumCounts(rows, FirstSix(matchEmoji), {}, e), evergreen)
  {
    var m := Allowed(rows, matchEmoji, denylist);
    var r := EmojiCandidatesOf(rows, topN, matchEmoji, evergreen, denylist);
    AllowedHas(rows, matchEmoji, denylist, e);
    var i :| 0 <= i < |m| && m[i].0 == e;
    AllowedEntry(rows, matchEmoji, denylist, i);
    HitsPerRow(rows, FirstSix(matchEmoji), {}, e);
    var cs := Candidates(m, evergreen);
    var ce := cs[i];
    assert ce.emoji == e && ce.score == EmojiScore(e, SumCounts(rows, FirstSix(matchEmoji), {}, e), evergreen);
    SortedCutOff(cs, ScoreKey, topN, ce);
  }
}
