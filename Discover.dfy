/**
 * The novelty-decayed emoji ranking of packages/plugins/emoji/lib/discover.ts:
 * `topEmojisFromReservoir` counts the emoji of the reservoir rows, scores each
 * one by how long ago it was last returned, returns the best 20 and stamps
 * exactly those as seen; the fixture branch of `discoverTopEmojis` counts
 * without stoplist or decay and keeps everything.
 *
 * `extract` stands for `extractEmojis` (a Unicode-property regex), `stop` for
 * `COMMON_STOPLIST`, `denylist` for the value of `EMOJI_DENYLIST` ("" when
 * unset), and `decay(d)` for `Math.exp(-d / WeekMs)`, the novelty of an emoji
 * last returned `d` milliseconds ago.
 */
module Discover {
  import opened Wrappers
  import opened JsText
  import opened Seqs
  import opened OrderedMap
  import opened EmojiLru

  /** An entry of the result: `{ emoji, freq, score }`. */
  datatype Scored = Scored(emoji: string, freq: int, score: real)

  /** The `counts` map from emoji to number of occurrences. */
  type Freqs = Entries<string, int>

  const TopCount: int := 20

  /** The decay period, seven days in milliseconds. */
  const WeekMs: int := 7 * 24 * 3600 * 1000

  // ---- counting ----

  /** The matches of one text that are not stoplisted, in order. */
  function Unskipped(found: seq<string>, stop: set<string>): (r: seq<string>)
    ensures forall i :: 0 <= i < |r| ==> r[i] !in stop
  {
    if found == [] then []
    else Unskipped(found[..|found| - 1], stop) + if found[|found| - 1] in stop then [] else [found[|found| - 1]]
  }

  /** Every counted match, text after text. */
  function Matches(texts: seq<string>, extract: string -> seq<string>, stop: set<string>): seq<string> {
    if texts == [] then []
    else Matches(texts[..|texts| - 1], extract, stop) + Unskipped(extract(texts[|texts| - 1]), stop)
  }

  /** `counts.get(e) ?? 0`. */
  function FreqOf(m: Freqs, e: string): int {
    Get(m, e).GetOr(0)
  }

  /** `counts.set(e, (counts.get(e) ?? 0) + 1)`. */
  function Bumped(m: Freqs, e: string): (r: Freqs)
    ensures Valid(m) ==> Valid(r)
    ensures FreqOf(r, e) == FreqOf(m, e) + 1
    ensures forall e' :: e' != e ==> FreqOf(r, e') == FreqOf(m, e')
    ensures Keys(r) == if e in Keys(m) then Keys(m) else Keys(m) + [e]
  {
    Put(m, e, FreqOf(m, e) + 1)
  }

  /** The map after counting `toks`. */
  function FreqsOf(toks: seq<string>): Freqs {
    if toks == [] then [] else Bumped(FreqsOf(toks[..|toks| - 1]), toks[|toks| - 1])
  }

  lemma UnskippedSnoc(found: seq<string>, k: nat, stop: set<string>)
    requires k < |found|
    ensures Unskipped(found[..k + 1], stop) == Unskipped(found[..k], stop) + if found[k] in stop then [] else [found[k]]
  {
    assert found[..k + 1][..k] == found[..k];
  }

  lemma MatchesSnoc(texts: seq<string>, i: nat, extract: string -> seq<string>, stop: set<string>)
    requires i < |texts|
    ensures Matches(texts[..i + 1], extract, stop) == Matches(texts[..i], extract, stop) + Unskipped(extract(texts[i]), stop)
  {
    assert texts[..i + 1][..i] == texts[..i];
  }

  lemma FreqsSnoc(toks: seq<string>, e: string)
    ensures FreqsOf(toks + [e]) == Bumped(FreqsOf(toks), e)
  {
    assert (toks + [e])[..|toks|] == toks;
  }

  lemma TextSkip(found: seq<string>, k: nat, stop: set<string>)
    requires k < |found| && found[k] in stop
    ensures Unskipped(found[..k + 1], stop) == Unskipped(found[..k], stop)
  {
    UnskippedSnoc(found, k, stop);
    var p := Unskipped(found[..k], stop);
    assert p + [] == p;
  }

  lemma TextKeep(before: seq<string>, found: seq<string>, k: nat, stop: set<string>)
    requires k < |found| && found[k] !in stop
    ensures before + Unskipped(found[..k + 1], stop) == (before + Unskipped(found[..k], stop)) + [found[k]]
  {
    UnskippedSnoc(found, k, stop);
  }

  lemma BumpNext(counts: Freqs, toks: seq<string>, next: seq<string>, e: string)
    requires counts == FreqsOf(toks) && next == toks + [e]
    ensures Bumped(counts, e) == FreqsOf(next)
  {
    FreqsSnoc(toks, e);
  }

  /** The inner loop over one text's matches. */
  method CountText(counts: Freqs, ghost before: seq<string>, found: seq<string>, stop: set<string>) returns (after: Freqs)
    requires counts == FreqsOf(before)
    ensures after == FreqsOf(before + Unskipped(found, stop))
  {
    after := counts;
    assert before + Unskipped(found[..0], stop) == before;
    for k := 0 to |found|
      invariant after == FreqsOf(before + Unskipped(found[..k], stop))
    {
      var e := found[k];
      if e in stop {
        TextSkip(found, k, stop);
        continue;
      }
      TextKeep(before, found, k, stop);
      BumpNext(after, before + Unskipped(found[..k], stop), before + Unskipped(found[..k + 1], stop), e);
      after := Bumped(after, e);
    }
    assert found[..|found|] == found;
  }

  /** `for (const r of rows) for (const e of extractEmojis(r.text || '')) { if (stop.has(e)) continue; … }`. */
  method CountMatches(texts: seq<string>, extract: string -> seq<string>, stop: set<string>) returns (counts: Freqs)
    ensures counts == FreqsOf(Matches(texts, extract, stop))
  {
    counts := [];
    for i := 0 to |texts|
      invariant counts == FreqsOf(Matches(texts[..i], extract, stop))
    {
      MatchesSnoc(texts, i, extract, stop);
      counts := CountText(counts, Matches(texts[..i], extract, stop), extract(texts[i]), stop);
    }
    assert texts[..|texts|] == texts;
  }

  // ---- what the counts hold ----

  lemma {:induction false} FreqsValid(toks: seq<string>)
    ensures Valid(FreqsOf(toks))
    decreases |toks|
  {
    if toks != [] { FreqsValid(toks[..|toks| - 1]); }
  }

  /** The count of `e` is its number of occurrences. */
  lemma {:induction false} FreqCount(toks: seq<string>, e: string)
    ensures FreqOf(FreqsOf(toks), e) == Count(toks, e)
    decreases |toks|
  {
    if toks != [] {
      FreqCount(toks[..|toks| - 1], e);
    }
  }

  lemma FreqKeysStep(toks: seq<string>)
    requires toks != []
    ensures var ks := Keys(FreqsOf(toks[..|toks| - 1])); var y := toks[|toks| - 1];
      Keys(FreqsOf(toks)) == if y in ks then ks else ks + [y]
  {
  }

  /** The map's keys are the distinct matches in first-seen order. */
  lemma {:induction false} FreqKeys(toks: seq<string>)
    ensures Keys(FreqsOf(toks)) == Firsts(toks)
    decreases |toks|
  {
    if toks != [] {
      var init, y := toks[..|toks| - 1], toks[|toks| - 1];
      FreqKeys(init);
      FreqKeysStep(toks);
      FirstsLast(toks);
    }
  }

  /** Each entry holds the number of occurrences of its emoji, which is positive. */
  lemma FreqEntry(toks: seq<string>, j: nat)
    requires j < |FreqsOf(toks)|
    ensures FreqsOf(toks)[j].1 == Count(toks, FreqsOf(toks)[j].0) > 0
  {
    var m := FreqsOf(toks);
    FreqsValid(toks);
    GetAt(m, j);
    FreqCount(toks, m[j].0);
    FreqKeys(toks);
    assert m[j].0 in Keys(m);
    CountIn(toks, m[j].0);
  }

  /** The occurrences of `e` over the texts, stoplist ignored. */
  function SumMatches(texts: seq<string>, extract: string -> seq<string>, e: string): nat {
    if texts == [] then 0 else SumMatches(texts[..|texts| - 1], extract, e) + Count(extract(texts[|texts| - 1]), e)
  }

  lemma {:induction false} UnskippedCount(found: seq<string>, stop: set<string>, e: string)
    ensures Count(Unskipped(found, stop), e) == if e in stop then 0 else Count(found, e)
    decreases |found|
  {
    if found != [] {
      var init, y := found[..|found| - 1], found[|found| - 1];
      UnskippedCount(init, stop, e);
      assert found == init + [y];
      CountSnoc(init, y, e);
      if y in stop {
        assert Unskipped(found, stop) == Unskipped(init, stop) + [] == Unskipped(init, stop);
      } else {
        CountSnoc(Unskipped(init, stop), y, e);
      }
    }
  }

  /** `freq` is the number of occurrences of the emoji in all texts; a stoplisted emoji is never counted. */
  lemma {:induction false} MatchesCount(texts: seq<string>, extract: string -> seq<string>, stop: set<string>, e: string)
    ensures Count(Matches(texts, extract, stop), e) == if e in stop then 0 else SumMatches(texts, extract, e)
    decreases |texts|
  {
    if texts != [] {
      var init := texts[..|texts| - 1];
      MatchesCount(init, extract, stop, e);
      CountAppend(Matches(init, extract, stop), Unskipped(extract(texts[|texts| - 1]), stop), e);
      UnskippedCount(extract(texts[|texts| - 1]), stop, e);
    }
  }

  // ---- scoring ----

  /** `last ? Math.exp(-(now - last) / WeekMs) : 0`: no stamp, or a stamp of 0, is no novelty. */
  function Novelty(last: Option<int>, now: int, decay: int -> real): real {
    if last.Some? && last.value != 0 then decay(now - last.value) else 0.0
  }

  /** `freq * (1 - novelty)`. */
  function ScoreOf(freq: int, last: Option<int>, now: int, decay: int -> real): real {
    freq as real * (1.0 - Novelty(last, now, decay))
  }

  /** Without a stamp the score is the frequency; with a stamp not in the future it lies between 0 and the frequency. */
  lemma ScoreBounds(freq: nat, last: Option<int>, now: int, decay: int -> real)
    requires forall d :: d >= 0 ==> 0.0 <= decay(d) <= 1.0
    ensures last.None? || last.value == 0 ==> ScoreOf(freq, last, now, decay) == freq as real
    ensures last.Some? && last.value <= now ==> 0.0 <= ScoreOf(freq, last, now, decay) <= freq as real
  {
    if last.Some? && last.value != 0 && last.value <= now {
      var n := decay(now - last.value);
      assert 0.0 <= n <= 1.0;
      assert 0.0 <= 1.0 - n <= 1.0;
      assert freq as real * (1.0 - n) <= freq as real * 1.0;
    }
  }

  function ScoreKey(s: Scored): real {
    s.score
  }

  function EmojiOf(s: Scored): string {
    s.emoji
  }

  /** `[...counts.entries()].map(([emoji, freq]) => …)`, with `lru` the stamps that `getEmojiLRU` reads. */
  function ScoredList(counts: Freqs, lru: map<string, int>, now: int, decay: int -> real): seq<Scored> {
    seq(|counts|, i requires 0 <= i < |counts| =>
      Scored(counts[i].0, counts[i].1, ScoreOf(counts[i].1, Lookup(lru, counts[i].0), now, decay)))
  }

  /** The counts of the texts without the denylisted emoji. */
  function AllowedFreqs(texts: seq<string>, extract: string -> seq<string>, stop: set<string>, denylist: string): (m: Freqs)
    ensures Valid(m)
  {
    FreqsValid(Matches(texts, extract, stop));
    RemoveAll(FreqsOf(Matches(texts, extract, stop)), ListSetting(denylist))
  }

  /** What `topEmojisFromReservoir` returns when the stored stamps are `lru` and the clock reads `now`. */
  function TopOf(texts: seq<string>, extract: string -> seq<string>, stop: set<string>, denylist: string,
                 lru: map<string, int>, now: int, decay: int -> real): seq<Scored> {
    SliceTo(SortDesc(ScoredList(AllowedFreqs(texts, extract, stop, denylist), lru, now, decay), ScoreKey), TopCount)
  }

  /** The stamps after `for (const e of top) await setEmojiLRU(e.emoji, now)`. */
  function Stamped(lru: map<string, int>, top: seq<Scored>, now: int): map<string, int> {
    if top == [] then lru else Stamped(lru, top[..|top| - 1], now)[top[|top| - 1].emoji := now]
  }

  // ---- the method ----

  lemma AllowedOf(texts: seq<string>, extract: string -> seq<string>, stop: set<string>, denylist: string, full: Freqs)
    requires full == FreqsOf(Matches(texts, extract, stop))
    ensures Valid(full) && AllowedFreqs(texts, extract, stop, denylist) == RemoveAll(full, ListSetting(denylist))
  {
    FreqsValid(Matches(texts, extract, stop));
  }

  lemma RemoveNext(counts: Freqs, full: Freqs, deny: seq<string>, i: nat)
    requires Valid(full) && i < |deny| && counts == RemoveAll(full, deny[..i])
    ensures Valid(counts) && Remove(counts, deny[i]) == RemoveAll(full, deny[..i + 1])
  {
    assert deny[..i + 1][..i] == deny[..i];
  }

  lemma ScoredSnoc(counts: Freqs, lru: map<string, int>, now: int, decay: int -> real, i: nat, scored: seq<Scored>, last: Option<int>)
    requires i < |counts| && scored == ScoredList(counts[..i], lru, now, decay) && last == Lookup(lru, counts[i].0)
    ensures scored + [Scored(counts[i].0, counts[i].1, ScoreOf(counts[i].1, last, now, decay))] == ScoredList(counts[..i + 1], lru, now, decay)
  {
  }

  lemma StampedSnoc(lru: map<string, int>, top: seq<Scored>, now: int, i: nat, m: map<string, int>)
    requires i < |top| && m == Stamped(lru, top[..i], now)
    ensures m[top[i].emoji := now] == Stamped(lru, top[..i + 1], now)
  {
    assert top[..i + 1][..i] == top[..i];
  }

  /** `for (const d of deny) counts.delete(d)`. */
  method DropDenied(full: Freqs, deny: seq<string>) returns (counts: Freqs)
    requires Valid(full)
    ensures counts == RemoveAll(full, deny)
  {
    counts := full;
    for i := 0 to |deny|
      invariant counts == RemoveAll(full, deny[..i])
    {
      RemoveNext(counts, full, deny, i);
      counts := Remove(counts, deny[i]);
    }
    assert deny[..|deny|] == deny;
  }

  /** The scoring: one `getEmojiLRU` per entry, in the map's order. */
  method ScoreAll(counts: Freqs, now: int, decay: int -> real, store: Store) returns (scored: seq<Scored>)
    modifies store
    ensures var lru := Loaded(old(store.mem), old(store.file));
      scored == ScoredList(counts, lru, now, decay)
      && (counts == [] ==> store.mem == old(store.mem) && store.file == old(store.file))
      && (counts != [] ==> store.mem == Some(lru) && store.file == old(store.file))
      && store.fileWrites == old(store.fileWrites)
  {
    ghost var lru := Loaded(store.mem, store.file);
    scored := [];
    for i := 0 to |counts|
      invariant scored == ScoredList(counts[..i], lru, now, decay)
      invariant i == 0 ==> store.mem == old(store.mem)
      invariant i > 0 ==> store.mem == Some(lru)
      invariant store.file == old(store.file) && Loaded(store.mem, store.file) == lru
      invariant store.fileWrites == old(store.fileWrites)
    {
      var emoji, freq := counts[i].0, counts[i].1;
      var last := store.Get(emoji);
      ScoredSnoc(counts, lru, now, decay, i, scored, last);
      scored := scored + [Scored(emoji, freq, ScoreOf(freq, last, now, decay))];
    }
    assert counts[..|counts|] == counts;
  }

  /** `for (const e of top) await setEmojiLRU(e.emoji, now)`. */
  method StampAll(top: seq<Scored>, now: int, store: Store)
    modifies store
    ensures var lru := Loaded(old(store.mem), old(store.file));
      (top == [] ==> store.mem == old(store.mem) && store.file == old(store.file))
      && (top != [] ==> store.mem == Some(Stamped(lru, top, now)) && store.file == Parsed(Stamped(lru, top, now)))
      && store.fileWrites == old(store.fileWrites) + |top|
  {
    ghost var lru := Loaded(store.mem, store.file);
    for i := 0 to |top|
      invariant i > 0 ==> store.mem == Some(Stamped(lru, top[..i], now)) && store.file == Parsed(Stamped(lru, top[..i], now))
      invariant i == 0 ==> store.mem == old(store.mem) && store.file == old(store.file)
      invariant Loaded(store.mem, store.file) == Stamped(lru, top[..i], now)
      invariant store.fileWrites == old(store.fileWrites) + i
    {
      StampedSnoc(lru, top, now, i, Loaded(store.mem, store.file));
      store.Set(top[i].emoji, now);
    }
    assert top[..|top|] == top;
  }

  /**
   * `topEmojisFromReservoir(rows)`, where `texts` are the rows' texts and
   * `now` is `Date.now()`. The stamps are read through the store, one `get`
   * per counted emoji (the `Promise.all` taken in order), then every returned
   * emoji is stamped with `now`, each `set` writing the file.
   */
  method TopEmojisFromReservoir(texts: seq<string>, extract: string -> seq<string>, stop: set<string>, denylist: string,
                                now: int, decay: int -> real, store: Store) returns (top: seq<Scored>)
    modifies store
    ensures var lru := Loaded(old(store.mem), old(store.file));
      top == TopOf(texts, extract, stop, denylist, lru, now, decay)
      && (top == [] ==> store.mem == old(store.mem) && store.file == old(store.file))
      && (top != [] ==> store.mem == Some(Stamped(lru, top, now)) && store.file == Parsed(Stamped(lru, top, now)))
      && store.fileWrites == old(store.fileWrites) + |top|
  {
    ghost var lru := Loaded(store.mem, store.file);
    var full := CountMatches(texts, extract, stop);
    AllowedOf(texts, extract, stop, denylist, full);
    var counts := DropDenied(full, ListSetting(denylist));
    var scored := ScoreAll(counts, now, decay, store);
    top := SliceTo(SortDesc(scored, ScoreKey), TopCount);
    assert top != [] ==> counts != [];
    StampAll(top, now, store);
  }

  // ---- what the result holds ----

  /** An entry that survives the denylist holds the number of occurrences of its emoji. */
  lemma AllowedEntry(texts: seq<string>, extract: string -> seq<string>, stop: set<string>, denylist: string, i: nat)
    requires i < |AllowedFreqs(texts, extract, stop, denylist)|
    ensures var e := AllowedFreqs(texts, extract, stop, denylist)[i];
      e.0 !in stop && e.0 !in ListSetting(denylist) && e.1 == SumMatches(texts, extract, e.0) > 0
  {
    var toks := Matches(texts, extract, stop);
    var m := AllowedFreqs(texts, extract, stop, denylist);
    var full := FreqsOf(toks);
    var j :| 0 <= j < |full| && full[j] == m[i];
    FreqEntry(toks, j);
    GetAt(m, i);
    MatchesCount(texts, extract, stop, m[i].0);
  }

  lemma TopEntry(texts: seq<string>, extract: string -> seq<string>, stop: set<string>, denylist: string,
                 lru: map<string, int>, now: int, decay: int -> real, s: Scored)
    requires s in TopOf(texts, extract, stop, denylist, lru, now, decay)
    ensures exists i ::
      0 <= i < |AllowedFreqs(texts, extract, stop, denylist)|
      && s == ScoredList(AllowedFreqs(texts, extract, stop, denylist), lru, now, decay)[i]
  {
    var sc := ScoredList(AllowedFreqs(texts, extract, stop, denylist), lru, now, decay);
    var sorted := SortDesc(sc, ScoreKey);
    assert s in sorted;
    assert s in multiset(sorted);
    assert s in sc;
  }

  /**
   * Every returned emoji is outside the stoplist and the denylist; its `freq`
   * is its number of occurrences in all texts, and its score is `freq`
   * damped by the novelty of its stored stamp.
   */
  lemma TopFacts(texts: seq<string>, extract: string -> seq<string>, stop: set<string>, denylist: string,
                 lru: map<string, int>, now: int, decay: int -> real, s: Scored)
    requires s in TopOf(texts, extract, stop, denylist, lru, now, decay)
    ensures s.emoji !in stop && s.emoji !in ListSetting(denylist)
    ensures s.freq == SumMatches(texts, extract, s.emoji) > 0
    ensures s.score == ScoreOf(s.freq, Lookup(lru, s.emoji), now, decay)
  {
    var m := AllowedFreqs(texts, extract, stop, denylist);
    TopEntry(texts, extract, stop, denylist, lru, now, decay, s);
    var i :| 0 <= i < |m| && s == ScoredList(m, lru, now, decay)[i];
    ScoredEntry(texts, extract, stop, denylist, m, lru, now, decay, i, s);
  }

  lemma ScoredEntry(texts: seq<string>, extract: string -> seq<string>, stop: set<string>, denylist: string,
                    m: Freqs, lru: map<string, int>, now: int, decay: int -> real, i: nat, s: Scored)
    requires m == AllowedFreqs(texts, extract, stop, denylist)
    requires i < |m| && s == ScoredList(m, lru, now, decay)[i]
    ensures s.emoji !in stop && s.emoji !in ListSetting(denylist)
    ensures s.freq == SumMatches(texts, extract, s.emoji) > 0
    ensures s.score == ScoreOf(s.freq, Lookup(lru, s.emoji), now, decay)
  {
    AllowedEntry(texts, extract, stop, denylist, i);
  }

  lemma ScoredDistinct(counts: Freqs, lru: map<string, int>, now: int, decay: int -> real)
    requires Valid(counts)
    ensures DistinctBy(ScoredList(counts, lru, now, decay), EmojiOf)
  {
  }

  /** The result is sorted by non-increasing score, has at most 20 entries and lists each emoji once. */
  lemma TopRanking(texts: seq<string>, extract: string -> seq<string>, stop: set<string>, denylist: string,
                   lru: map<string, int>, now: int, decay: int -> real)
    ensures var top := TopOf(texts, extract, stop, denylist, lru, now, decay);
      SortedDesc(top, ScoreKey) && |top| <= TopCount && DistinctBy(top, EmojiOf)
  {
    var sc := ScoredList(AllowedFreqs(texts, extract, stop, denylist), lru, now, decay);
    var sorted := SortDesc(sc, ScoreKey);
    ScoredDistinct(AllowedFreqs(texts, extract, stop, denylist), lru, now, decay);
    SortDescDistinctBy(sc, ScoreKey, EmojiOf);
    var top := SliceTo(sorted, TopCount);
    assert top == sorted[..|top|];
    forall i, j | 0 <= i < j < |top| ensures EmojiOf(top[i]) != EmojiOf(top[j]) && ScoreKey(top[i]) >= ScoreKey(top[j]) {
      assert top[i] == sorted[i] && top[j] == sorted[j];
    }
  }

  /** A counted, allowed emoji that is not returned scores no higher than any returned one, and then 20 were returned. */
  lemma TopComplete(texts: seq<string>, extract: string -> seq<string>, stop: set<string>, denylist: string,
                    lru: map<string, int>, now: int, decay: int -> real, e: string)
    requires e !in stop && e !in ListSetting(denylist) && SumMatches(texts, extract, e) > 0
    requires forall s :: s in TopOf(texts, extract, stop, denylist, lru, now, decay) ==> s.emoji != e
    ensures var top := TopOf(texts, extract, stop, denylist, lru, now, decay);
      |top| == TopCount
      && forall s :: s in top ==> s.score >= ScoreOf(SumMatches(texts, extract, e), Lookup(lru, e), now, decay)
  {
    var toks := Matches(texts, extract, stop);
    var full := FreqsOf(toks);
    var m := AllowedFreqs(texts, extract, stop, denylist);
    MatchesCount(texts, extract, stop, e);
    CountIn(toks, e);
    FreqKeys(toks);
    assert e in Keys(full);
    assert Get(m, e) == Get(full, e);
    var j :| 0 <= j < |m| && m[j].0 == e;
    AllowedEntry(texts, extract, stop, denylist, j);
    var sc := ScoredList(m, lru, now, decay);
    assert sc[j].emoji == e;
    SortedCutOff(sc, ScoreKey, TopCount, sc[j]);
  }

  /** Exactly the returned emoji are stamped with `now`; every other stamp stays as it was. */
  lemma {:induction false} StampedEffect(lru: map<string, int>, top: seq<Scored>, now: int, e: string)
    ensures Lookup(Stamped(lru, top, now), e) == if exists s :: s in top && s.emoji == e then Some(now) else Lookup(lru, e)
    decreases |top|
  {
    if top != [] {
      var init := top[..|top| - 1];
      StampedEffect(lru, init, now, e);
      assert top == init + [top[|top| - 1]];
      if top[|top| - 1].emoji != e {
        assert (exists s :: s in top && s.emoji == e) <==> (exists s :: s in init && s.emoji == e);
      }
    }
  }

  // ---- the fixture branch of discoverTopEmojis ----

  /** A fixture record: `{ text, term? }`. */
  datatype Fixture = Fixture(text: string, term: Option<string>)

  /** `f.text || f.term || ''`. */
  function FixtureText(f: Fixture): string {
    if f.text != "" then f.text else f.term.GetOr("")
  }

  function FixtureTexts(fixtures: seq<Fixture>): seq<string> {
    seq(|fixtures|, i requires 0 <= i < |fixtures| => FixtureText(fixtures[i]))
  }

  /** `[...counts.entries()].map(([emoji, freq]) => ({ emoji, freq, score: freq }))`. */
  function Unscored(counts: Freqs): seq<Scored> {
    seq(|counts|, i requires 0 <= i < |counts| => Scored(counts[i].0, counts[i].1, counts[i].1 as real))
  }

  /** What `discoverTopEmojis({ live: false })` returns for the fixture file. */
  function FixtureTopOf(fixtures: seq<Fixture>, extract: string -> seq<string>): seq<Scored> {
    SortDesc(Unscored(FreqsOf(Matches(FixtureTexts(fixtures), extract, {}))), ScoreKey)
  }

  method DiscoverFromFixtures(fixtures: seq<Fixture>, extract: string -> seq<string>) returns (scored: seq<Scored>)
    ensures scored == FixtureTopOf(fixtures, extract)
  {
    var texts := seq(|fixtures|, i requires 0 <= i < |fixtures| => FixtureText(fixtures[i]));
    var counts := CountMatches(texts, extract, {});
    scored := SortDesc(Unscored(counts), ScoreKey);
  }

  lemma UnscoredEntry(toks: seq<string>, s: Scored)
    requires s in SortDesc(Unscored(FreqsOf(toks)), ScoreKey)
    ensures s.score == s.freq as real && s.freq == Count(toks, s.emoji) > 0
  {
    var m := FreqsOf(toks);
    SortDescMember(Unscored(m), ScoreKey, s);
    UnscoredMember(m, s);
    var j :| 0 <= j < |m| && s == Scored(m[j].0, m[j].1, m[j].1 as real);
    FreqEntry(toks, j);
  }

  lemma UnscoredMember(m: Freqs, s: Scored)
    requires s in Unscored(m)
    ensures exists j :: 0 <= j < |m| && s == Scored(m[j].0, m[j].1, m[j].1 as real)
  {
    var u := Unscored(m);
    var j :| 0 <= j < |u| && u[j] == s;
    assert s == Scored(m[j].0, m[j].1, m[j].1 as real);
  }

  lemma UnscoredHas(toks: seq<string>, e: string)
    ensures (exists s :: s in SortDesc(Unscored(FreqsOf(toks)), ScoreKey) && s.emoji == e) <==> Count(toks, e) > 0
  {
    var m := FreqsOf(toks);
    var u := Unscored(m);
    var r := SortDesc(u, ScoreKey);
    CountIn(toks, e);
    FreqKeys(toks);
    if Count(toks, e) > 0 {
      assert e in Keys(m);
      var j :| 0 <= j < |m| && m[j].0 == e;
      assert u[j] in multiset(r);
      assert u[j] in r;
    }
    if exists s :: s in r && s.emoji == e {
      var s :| s in r && s.emoji == e;
      UnscoredEntry(toks, s);
    }
  }

  lemma UnscoredRanking(toks: seq<string>)
    ensures SortedDesc(SortDesc(Unscored(FreqsOf(toks)), ScoreKey), ScoreKey)
    ensures DistinctBy(SortDesc(Unscored(FreqsOf(toks)), ScoreKey), EmojiOf)
  {
    FreqsValid(toks);
    var u := Unscored(FreqsOf(toks));
    assert DistinctBy(u, EmojiOf);
    SortDescDistinctBy(u, ScoreKey, EmojiOf);
  }

  /**
   * The fixture branch scores every emoji by its frequency alone and keeps
   * all of them, stoplisted ones included: an emoji is listed, once, exactly
   * when it occurs in some fixture's text.
   */
  lemma FixtureFacts(fixtures: seq<Fixture>, extract: string -> seq<string>, e: string)
    ensures var r := FixtureTopOf(fixtures, extract);
      SortedDesc(r, ScoreKey) && DistinctBy(r, EmojiOf)
      && (forall s :: s in r ==> s.score == s.freq as real && s.freq == SumMatches(FixtureTexts(fixtures), extract, s.emoji) > 0)
      && ((exists s :: s in r && s.emoji == e) <==> SumMatches(FixtureTexts(fixtures), extract, e) > 0)
  {
    var texts := FixtureTexts(fixtures);
    var toks := Matches(texts, extract, {});
    UnscoredRanking(toks);
    forall s | s in FixtureTopOf(fixtures, extract)
      ensures s.score == s.freq as real && s.freq == SumMatches(texts, extract, s.emoji) > 0
    {
      UnscoredEntry(toks, s);
      MatchesCount(texts, extract, {}, s.emoji);
    }
    MatchesCount(texts, extract, {}, e);
    UnscoredHas(toks, e);
  }
}
