/**
 * `extractAcronymCandidates` (packages/factory/extractors/acronyms.ts): counts
 * the matches of `/\b[A-Z]{2,5}\b/g` in every reservoir row, skipping the
 * stoplist, and returns the `topN` most frequent with up to three evidence URLs.
 */
module AcronymExtractor {
  import opened Wrappers
  import opened JsText
  import opened Seqs
  import opened OrderedMap
  import opened Types
  import opened Tally

  const Stoplist: set<string> := {
    "USA", "HTTP", "CPU", "GPU", "API", "WWW", "COVID", "NASA", "FBI", "CIA",
    "UK", "EU", "NBA", "FIFA", "UFC", "SSN", "DOB", "ETA", "DIY"
  }

  const DefaultTopN: int := 20

  datatype AcronymCandidate = AcronymCandidate(term: string, score: int, evidence: seq<string>)

  /** Two to five ASCII capitals. */
  predicate IsAcronym(w: string) {
    2 <= |w| <= 5 && forall k :: 0 <= k < |w| ==> IsUpper(w[k])
  }

  function KeepAcronyms(ws: seq<string>): (r: seq<string>)
    ensures forall i :: 0 <= i < |r| ==> IsAcronym(r[i])
  {
    if ws == [] then []
    else KeepAcronyms(ws[..|ws| - 1]) + if IsAcronym(ws[|ws| - 1]) then [ws[|ws| - 1]] else []
  }

  /**
   * The successive matches of `/\b[A-Z]{2,5}\b/g`. A match starts where a `\w`
   * run starts (the `\b` before it) and ends where that run ends (the `\b`
   * after it, since a capital is a `\w` character), so the matches are the
   * whole `\w` runs that consist of two to five capitals.
   */
  function AcronymTokens(text: string): seq<string> {
    KeepAcronyms(Words(text))
  }

  /** A word counts as often as it occurs when it is an acronym, and never otherwise. */
  lemma {:induction false} KeepAcronymsCount(ws: seq<string>, w: string)
    ensures Count(KeepAcronyms(ws), w) == if IsAcronym(w) then Count(ws, w) else 0
    decreases |ws|
  {
    if ws != [] {
      var init, y := ws[..|ws| - 1], ws[|ws| - 1];
      KeepAcronymsCount(init, w);
      assert ws == init + [y];
      CountSnoc(init, y, w);
      if IsAcronym(y) {
        CountSnoc(KeepAcronyms(init), y, w);
      } else {
        assert KeepAcronyms(ws) == KeepAcronyms(init) + [] == KeepAcronyms(init);
        assert IsAcronym(w) ==> y != w;
      }
    }
  }

  /** The match count of `w` is its count among the `\w` runs when `w` is an acronym, else 0. */
  lemma TokenCount(text: string, w: string)
    ensures Count(AcronymTokens(text), w) == if IsAcronym(w) then Count(Words(text), w) else 0
  {
    KeepAcronymsCount(Words(text), w);
  }

  function AcronymObservations(rows: seq<ReservoirRow>): seq<(string, string)> {
    Observations(rows, AcronymTokens, Stoplist)
  }

  function ToCandidate(e: (string, Counter)): AcronymCandidate {
    AcronymCandidate(e.0, e.1.hits, SliceTo(e.1.urls, 3))
  }

  function ScoreKey(c: AcronymCandidate): real {
    c.score as real
  }

  function TermOf(c: AcronymCandidate): string {
    c.term
  }

  function Candidates(counts: Counts): seq<AcronymCandidate> {
    seq(|counts|, i requires 0 <= i < |counts| => ToCandidate(counts[i]))
  }

  /** What `extractAcronymCandidates(reservoir, topN)` returns. */
  function AcronymCandidatesOf(rows: seq<ReservoirRow>, topN: int): seq<AcronymCandidate> {
    SliceTo(SortDesc(Candidates(TallyOf(AcronymObservations(rows))), ScoreKey), topN)
  }

  method ExtractAcronymCandidates(rows: seq<ReservoirRow>, topN: int) returns (r: seq<AcronymCandidate>)
    ensures r == AcronymCandidatesOf(rows, topN)
  {
    var counts := CountTokens(rows, AcronymTokens, Stoplist);
    r := SliceTo(SortDesc(Candidates(counts), ScoreKey), topN);
  }

  // ---- what the result holds ----

  lemma RankedEntry(counts: Counts, topN: int, c: AcronymCandidate)
    requires c in SliceTo(SortDesc(Candidates(counts), ScoreKey), topN)
    ensures exists i :: 0 <= i < |counts| && c == ToCandidate(counts[i])
  {
    var cs := Candidates(counts);
    var sorted := SortDesc(cs, ScoreKey);
    assert c in sorted;
    assert c in multiset(sorted);
    assert c in cs;
  }

  /**
   * Every candidate is a non-stoplisted acronym; its score is its number of
   * matches over all rows, repeats within a row included; its evidence is the
   * first three distinct non-empty URLs of the rows it was matched in.
   */
  lemma CandidateFacts(rows: seq<ReservoirRow>, topN: int, c: AcronymCandidate)
    requires c in AcronymCandidatesOf(rows, topN)
    ensures c.term !in Stoplist && IsAcronym(c.term)
    ensures c.score == SumCounts(rows, AcronymTokens, Stoplist, c.term) > 0
    ensures c.evidence == SliceTo(Firsts(UrlsFor(AcronymObservations(rows), c.term)), 3)
    ensures |c.evidence| <= 3 && Distinct(c.evidence)
  {
    var obs := AcronymObservations(rows);
    var m := TallyOf(obs);
    RankedEntry(m, topN, c);
    var i :| 0 <= i < |m| && c == ToCandidate(m[i]);
    CandidateOfEntry(obs, i);
    HitsPerRow(rows, AcronymTokens, Stoplist, c.term);
    CountIn(Tokens(obs), c.term);
    ObservedToken(rows, AcronymTokens, Stoplist, c.term);
    var k :| 0 <= k < |rows| && c.term in AcronymTokens(rows[k].text);
    TokenIsAcronym(rows[k].text, c.term);
  }

  /** The candidate made of the `i`-th counter. */
  lemma CandidateOfEntry(obs: seq<(string, string)>, i: nat)
    requires i < |TallyOf(obs)|
    ensures var e := TallyOf(obs)[i]; var c := ToCandidate(e);
      c.term == e.0 && c.score == Count(Tokens(obs), e.0) > 0
      && c.evidence == SliceTo(Firsts(UrlsFor(obs, e.0)), 3)
      && |c.evidence| <= 3 && Distinct(c.evidence)
  {
    TallyEntry(obs, i);
    SliceToDistinct(Firsts(UrlsFor(obs, TallyOf(obs)[i].0)), 3);
  }

  lemma TokenIsAcronym(text: string, t: string)
    requires t in AcronymTokens(text)
    ensures IsAcronym(t)
  {
    var ts := AcronymTokens(text);
    var j :| 0 <= j < |ts| && ts[j] == t;
  }

  /** Each evidence URL belongs to a row in which the term was matched. */
  lemma EvidenceFacts(rows: seq<ReservoirRow>, topN: int, c: AcronymCandidate, u: string)
    requires c in AcronymCandidatesOf(rows, topN)
    requires u in c.evidence
    ensures u != "" && exists i :: 0 <= i < |rows| && rows[i].url == u && c.term in AcronymTokens(rows[i].text)
  {
    CandidateFacts(rows, topN, c);
    assert u in Firsts(UrlsFor(AcronymObservations(rows), c.term));
    EvidenceFromRows(rows, AcronymTokens, Stoplist, c.term, u);
  }

  lemma CandidatesDistinct(m: Counts)
    requires Valid(m)
    ensures DistinctBy(Candidates(m), TermOf)
  {
  }

  /** The result is sorted by non-increasing score, has at most `topN` entries, and lists each term once. */
  lemma RankingFacts(rows: seq<ReservoirRow>, topN: int)
    ensures var r := AcronymCandidatesOf(rows, topN);
      SortedDesc(r, ScoreKey) && (topN >= 0 ==> |r| <= topN)
      && forall i, j :: 0 <= i < j < |r| ==> r[i].term != r[j].term
  {
    var m := TallyOf(AcronymObservations(rows));
    TallyValid(AcronymObservations(rows));
    var sorted := SortDesc(Candidates(m), ScoreKey);
    CandidatesDistinct(m);
    SortDescDistinctBy(Candidates(m), ScoreKey, TermOf);
    var r := AcronymCandidatesOf(rows, topN);
    assert r == sorted[..|r|];
    forall i, j | 0 <= i < j < |r| ensures r[i].term != r[j].term {
      assert TermOf(sorted[i]) != TermOf(sorted[j]);
    }
  }

  /** A matched, non-stoplisted term left out of the result scores no higher than any term returned. */
  lemma TopNComplete(rows: seq<ReservoirRow>, topN: int, t: string)
    requires t !in Stoplist
    requires SumCounts(rows, AcronymTokens, Stoplist, t) > 0
    requires forall c :: c in AcronymCandidatesOf(rows, topN) ==> c.term != t
    ensures var r := AcronymCandidatesOf(rows, topN);
      (topN >= 0 ==> |r| == topN) && forall c :: c in r ==> c.score >= SumCounts(rows, AcronymTokens, Stoplist, t)
  {
    var obs := AcronymObservations(rows);
    var m := TallyOf(obs);
    HitsPerRow(rows, AcronymTokens, Stoplist, t);
    SeenHasEntry(obs, t);
    var j :| 0 <= j < |m| && m[j].0 == t;
    TallyEntry(obs, j);
    var cs := Candidates(m);
    assert cs[j].term == t;
    SortedCutOff(cs, ScoreKey, topN, cs[j]);
  }

  // ---- the `\b[A-Z]{2,5}\b` boundaries on examples ----

  /** A run of six capitals is not matched, nor is any part of it. */
  lemma SixCapitalsIgnored()
    ensures AcronymTokens("ABCDEF") == []
  {
    var s := "ABCDEF";
    WordsFront(s, 6);
    assert s[6..] == [];
    assert s[..6] == s;
  }

  /** Capitals glued to a digit or an underscore are not matched. */
  lemma GluedIgnored()
    ensures AcronymTokens("HQ2") == [] && AcronymTokens("_HQ") == []
  {
    WordsFront("HQ2", 3);
    assert "HQ2"[3..] == [] && "HQ2"[..3] == "HQ2";
    WordsFront("_HQ", 3);
    assert "_HQ"[3..] == [] && "_HQ"[..3] == "_HQ";
  }

  /** Punctuation is a boundary. */
  lemma PunctuationBounds()
    ensures AcronymTokens("(HQ),") == ["HQ"]
  {
    var s := "(HQ),";
    assert Words(s) == Words(s[1..]);
    WordsFront(s[1..], 2);
    assert s[1..][..2] == "HQ";
    assert s[1..][2..] == "),";
    WordsNone("),");
    assert KeepAcronyms(["HQ"]) == KeepAcronyms([]) + ["HQ"];
  }

  /** A word ends at a space. */
  lemma WordThenSpace(w: string, rest: string)
    requires w != [] && forall k :: 0 <= k < |w| ==> IsWordChar(w[k])
    ensures Words(w + " " + rest) == [w] + Words(rest)
  {
    var s := w + " " + rest;
    WordsFront(s, |w|);
    assert s[..|w|] == w;
    var t := s[|w|..];
    assert t == " " + rest;
    assert t[1..] == rest;
    assert Words(t) == Words(rest);
  }

  /** A word is read back as itself. */
  lemma WordAlone(w: string)
    requires w != [] && forall k :: 0 <= k < |w| ==> IsWordChar(w[k])
    ensures Words(w) == [w]
  {
    WordsFront(w, |w|);
    assert w[..|w|] == w;
    assert w[|w|..] == [];
  }

  predicate IsWord(w: string) {
    w != [] && forall k :: 0 <= k < |w| ==> IsWordChar(w[k])
  }

  /** Words joined by single spaces are read back as those words. */
  lemma {:induction false} WordsOfJoin(ws: seq<string>)
    requires forall i :: 0 <= i < |ws| ==> IsWord(ws[i])
    ensures Words(Join(ws, " ")) == ws
    decreases |ws|
  {
    if |ws| == 1 {
      assert Join(ws, " ") == ws[0];
      WordAlone(ws[0]);
      assert ws == [ws[0]];
    } else if |ws| > 1 {
      assert IsWord(ws[0]);
      var rest := Join(ws[1..], " ");
      assert Join(ws, " ") == ws[0] + " " + rest;
      WordThenSpace(ws[0], rest);
      WordsOfJoin(ws[1..]);
      assert ws == [ws[0]] + ws[1..];
    }
  }

  const ExampleWords: seq<string> := ["USA", "and", "NASA", "sent", "the", "ETA", "report", "to", "HQ"]

  /** "USA and NASA sent the ETA report to HQ". */
  const ExampleText: string := Join(ExampleWords, " ")

  lemma ExampleRead()
    ensures Words(ExampleText) == ExampleWords
  {
    assert forall i :: 0 <= i < |ExampleWords| ==> IsWord(ExampleWords[i]);
    WordsOfJoin(ExampleWords);
  }

  lemma ExampleHq()
    ensures Count(ExampleWords, "HQ") == 1
  {
    var ws := ExampleWords;
    assert ws == ws[..8] + ["HQ"];
    CountSnoc(ws[..8], "HQ", "HQ");
    CountAbsent(ws[..8], "HQ");
  }

  /** Every word of the example but HQ is lower-case or stoplisted. */
  lemma ExampleOthers(t: string)
    requires IsAcronym(t) && t !in Stoplist && t != "HQ"
    ensures t !in ExampleWords
  {
    assert !IsUpper("and"[0]) && !IsUpper("sent"[0]) && !IsUpper("the"[0]) && !IsUpper("report"[0]) && !IsUpper("to"[0]);
  }

  /** A text with the example's words counts HQ once and nothing else. */
  lemma ExampleTokenCount(text: string, t: string)
    requires Words(text) == ExampleWords
    ensures (if t in Stoplist then 0 else Count(AcronymTokens(text), t)) == if t == "HQ" then 1 else 0
  {
    if t == "HQ" {
      HqNotStoplisted();
      ExampleTokenHq(text);
    } else if t !in Stoplist {
      ExampleTokenOther(text, t);
    }
  }

  lemma HqNotStoplisted()
    ensures "HQ" !in Stoplist
  {
  }

  lemma ExampleTokenHq(text: string)
    requires Words(text) == ExampleWords
    ensures Count(AcronymTokens(text), "HQ") == 1
  {
    TokenCount(text, "HQ");
    ExampleHq();
  }

  lemma ExampleTokenOther(text: string, t: string)
    requires Words(text) == ExampleWords && t != "HQ" && t !in Stoplist
    ensures Count(AcronymTokens(text), t) == 0
  {
    TokenCount(text, t);
    if IsAcronym(t) {
      ExampleOthers(t);
      CountAbsent(ExampleWords, t);
    }
  }

  /** In the one-row example only HQ is counted, once. */
  lemma ExampleCount(url: string, t: string)
    ensures SumCounts([ReservoirRow(ExampleText, url, None, None)], AcronymTokens, Stoplist, t) == if t == "HQ" then 1 else 0
  {
    var rows := [ReservoirRow(ExampleText, url, None, None)];
    assert rows[..0] == [];
    ExampleRead();
    ExampleTokenCount(ExampleText, t);
  }

  /** Rows in which HQ is the one counted term, matched once, give HQ as the one candidate. */
  lemma OneCandidate(rows: seq<ReservoirRow>)
    requires forall t :: SumCounts(rows, AcronymTokens, Stoplist, t) == if t == "HQ" then 1 else 0
    ensures var r := AcronymCandidatesOf(rows, DefaultTopN);
      |r| == 1 && r[0].term == "HQ" && r[0].score == 1
  {
    var r := AcronymCandidatesOf(rows, DefaultTopN);
    forall c | c in r
      ensures c.term == "HQ" && c.score == 1
    {
      CandidateFacts(rows, DefaultTopN, c);
    }
    if r == [] {
      TopNComplete(rows, DefaultTopN, "HQ");
      assert false;
    }
    if |r| >= 2 {
      assert r[0] in r && r[1] in r;
      RankingFacts(rows, DefaultTopN);
      assert false;
    }
    assert r[0] in r;
  }

  /**
   * The stoplist at work: in "USA and NASA sent the ETA report to HQ" only HQ
   * is not stoplisted, so it is the one candidate, matched once.
   */
  lemma StoplistExample(url: string)
    ensures var r := AcronymCandidatesOf([ReservoirRow(ExampleText, url, None, None)], DefaultTopN);
      |r| == 1 && r[0].term == "HQ" && r[0].score == 1
  {
    forall t {
      ExampleCount(url, t);
    }
    OneCandidate([ReservoirRow(ExampleText, url, None, None)]);
  }
}
