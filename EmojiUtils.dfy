/**
 * The reservoir helpers of packages/plugins/emoji/lib/utils.ts: text
 * normalisation, attempt counting in `retry`, word-set Jaccard similarity and
 * the URL-and-similarity de-duplication of reservoir rows.
 */
module EmojiUtils {
  import opened Wrappers
  import opened JsText
  import opened Seqs
  import opened Types

  // ---- normalizeText ----

  /** `replace(/<[^>]+>/g, ' ')`: every `<`, one or more non-`>` characters and a `>` become one space. */
  function StripTags(s: string): (r: string)
    ensures |r| <= |s|
    decreases |s|
  {
    if s == [] then []
    else if s[0] == '<' && |s| >= 2 && s[1] != '>' && '>' in s[1..] then
      var j := 1 + IndexOf(s[1..], '>');
      " " + StripTags(s[j + 1..])
    else [s[0]] + StripTags(s[1..])
  }

  /** In `s` every `\s` character is a plain space and no two of them are adjacent. */
  predicate SingleSpaced(s: string) {
    (forall i :: 0 <= i < |s| && IsSpace(s[i]) ==> s[i] == ' ')
    && (forall i :: 0 <= i < |s| - 1 ==> !(IsSpace(s[i]) && IsSpace(s[i + 1])))
  }

  /** `replace(/\s+/g, ' ')`: every maximal run of `\s` characters becomes one space. */
  function CollapseSpaces(s: string): (r: string)
    ensures SingleSpaced(r)
    ensures r == [] <==> s == []
    ensures s != [] ==> (IsSpace(r[0]) <==> IsSpace(s[0]))
    decreases |s|
  {
    if s == [] then []
    else if IsSpace(s[0]) then
      var rest := TrimStart(s);
      assert rest != s;
      " " + CollapseSpaces(rest)
    else [s[0]] + CollapseSpaces(s[1..])
  }

  lemma SingleSpacedSlice(s: string, a: nat, b: nat)
    requires SingleSpaced(s) && a <= b <= |s|
    ensures SingleSpaced(s[a..b])
  {
    var t := s[a..b];
    forall i | 0 <= i < |t| - 1 ensures !(IsSpace(t[i]) && IsSpace(t[i + 1])) {
      assert t[i] == s[a + i] && t[i + 1] == s[a + i + 1];
    }
  }

  lemma TrimSingleSpaced(s: string)
    requires SingleSpaced(s)
    ensures SingleSpaced(Trim(s))
  {
    var t0 := TrimStart(s);
    SingleSpacedSlice(s, |s| - |t0|, |s|);
    SingleSpacedSlice(t0, 0, |TrimEnd(t0)|);
  }

  /** `normalizeText`: tags stripped, whitespace collapsed, trimmed and cut to 240 characters. */
  function NormalizeText(input: string): (r: string)
    ensures |r| <= 240
    ensures r == [] || !IsSpace(r[0])
    ensures SingleSpaced(r)
  {
    var t := Trim(CollapseSpaces(StripTags(input)));
    TrimSingleSpaced(CollapseSpaces(StripTags(input)));
    SingleSpacedSlice(t, 0, |SliceTo(t, 240)|);
    SliceTo(t, 240)
  }

  // ---- retry ----

  function AttemptBound(attempts: int): nat {
    if attempts < 1 then 1 else attempts
  }

  /**
   * `retry(fn, attempts)` as far as attempt counting goes: `call(k)` is the
   * outcome of the (k+1)-th invocation of `fn`. The backoff delay between
   * attempts does not change which outcome is returned and is not modelled.
   */
  method Retry<T, E>(call: nat -> Result<T, E>, attempts: int) returns (r: Result<T, E>, tries: nat)
    ensures 1 <= tries <= AttemptBound(attempts)
    ensures r == call(tries - 1)
    ensures forall k :: 0 <= k < tries - 1 ==> call(k).Err?
    ensures r.Err? ==> tries == AttemptBound(attempts)
  {
    tries := 1;
    r := call(0);
    while r.Err? && tries < attempts
      invariant 1 <= tries <= AttemptBound(attempts)
      invariant r == call(tries - 1)
      invariant forall k :: 0 <= k < tries - 1 ==> call(k).Err?
      decreases attempts - tries
    {
      r := call(tries);
      tries := tries + 1;
    }
  }

  // ---- similarity ----

  /** The word set of a text: its lower-cased `\w` runs. */
  function WordSet(s: string): (ws: set<string>)
    ensures forall w :: w in ws ==> w != []
  {
    var ws := Words(LowerAscii(s));
    set i | 0 <= i < |ws| :: ws[i]
  }

  /** True when the lower-cased text has a `\w` character, that is when it has a word. */
  predicate HasWordChar(s: string) {
    exists i :: 0 <= i < |s| && IsWordChar(s[i])
  }

  lemma WordSetNonEmpty(s: string)
    requires HasWordChar(s)
    ensures WordSet(s) != {}
  {
    var i :| 0 <= i < |s| && IsWordChar(s[i]);
    var l := LowerAscii(s);
    assert IsWordChar(l[i]);
    WordsNonEmpty(l, i);
    assert Words(l)[0] in WordSet(s);
  }

  /** Jaccard index as `similarity` computes it: the union's size is `|A| + |B| - |A ∩ B|`. */
  function Jaccard(a: set<string>, b: set<string>): real {
    var inter := |a * b|;
    var union := |a| + |b| - inter;
    if union == 0 then 0.0 else inter as real / union as real
  }

  /** The value `similarity(a, b)` returns. */
  function Sim(a: string, b: string): real {
    Jaccard(WordSet(a), WordSet(b))
  }

  /** The loop of `similarity`: it counts the words of `wa` that `wb` also has. */
  method CountCommon(wa: set<string>, wb: set<string>) returns (inter: nat)
    ensures inter == |wa * wb|
  {
    inter := 0;
    var rest := wa;
    ghost var visited: set<string> := {};
    while rest != {}
      invariant visited + rest == wa && visited !! rest
      invariant inter == |visited * wb|
      decreases |rest|
    {
      var w :| w in rest;
      InterStep(visited, w, wb);
      if w in wb {
        inter := inter + 1;
      }
      visited := visited + {w};
      rest := rest - {w};
    }
  }

  lemma InterStep(visited: set<string>, w: string, wb: set<string>)
    requires w !in visited
    ensures |(visited + {w}) * wb| == |visited * wb| + if w in wb then 1 else 0
  {
    if w in wb {
      assert (visited + {w}) * wb == visited * wb + {w};
    } else {
      assert (visited + {w}) * wb == visited * wb;
    }
  }

  /** `similarity(a, b)`. */
  method Similarity(a: string, b: string) returns (r: real)
    ensures r == Sim(a, b)
  {
    var wa := WordSet(a);
    var wb := WordSet(b);
    var inter := CountCommon(wa, wb);
    var union := |wa| + |wb| - inter;
    r := if union == 0 then 0.0 else inter as real / union as real;
  }

  lemma InterBound(a: set<string>, b: set<string>)
    ensures |a * b| <= |a| && |a * b| <= |b|
    ensures |a + b| == |a| + |b| - |a * b|
  {
    assert a == (a - b) + (a * b);
    assert b == (b - a) + (a * b);
    assert a + b == (a - b) + (b - a) + (a * b);
  }

  lemma SimSymmetric(a: string, b: string)
    ensures Sim(a, b) == Sim(b, a)
  {
    assert WordSet(a) * WordSet(b) == WordSet(b) * WordSet(a);
  }

  lemma RatioInUnit(p: nat, q: nat)
    requires p <= q && q > 0
    ensures 0.0 <= p as real / q as real <= 1.0
  {
    var r := p as real / q as real;
    assert r * q as real == p as real;
  }

  lemma SimBounds(a: string, b: string)
    ensures 0.0 <= Sim(a, b) <= 1.0
  {
    var wa, wb := WordSet(a), WordSet(b);
    InterBound(wa, wb);
    var inter := |wa * wb|;
    var union := |wa| + |wb| - inter;
    if union != 0 {
      RatioInUnit(inter, union);
    }
  }

  lemma SimNoWords(a: string, b: string)
    requires WordSet(a) == {} && WordSet(b) == {}
    ensures Sim(a, b) == 0.0
  {
  }

  lemma SimSelf(a: string)
    requires HasWordChar(a)
    ensures Sim(a, a) == 1.0
  {
    WordSetNonEmpty(a);
    var w := WordSet(a);
    assert w * w == w;
  }

  // ---- dedupeByUrlAndSimilarity ----

  /** Some accepted row is at least `th` similar to `r`. */
  predicate NearDuplicate(r: ReservoirRow, accepted: seq<ReservoirRow>, th: real, sim: (string, string) -> real) {
    exists k :: 0 <= k < |accepted| && sim(r.text, accepted[k].text) >= th
  }

  /**
   * The rows `dedupeByUrlAndSimilarity` keeps, stated over growing prefixes
   * of the input: a row is kept when no kept row has its URL and none is at
   * least `th` similar to it. The similarity measure is a parameter so that
   * the properties below are seen to hold for any measure; the method
   * instantiates it with `Sim`.
   */
  function Dedupe(rows: seq<ReservoirRow>, th: real, sim: (string, string) -> real): seq<ReservoirRow>
    decreases |rows|
  {
    if rows == [] then []
    else
      var prev := Dedupe(rows[..|rows| - 1], th, sim);
      var r := rows[|rows| - 1];
      if r.url in Urls(prev) || NearDuplicate(r, prev, th, sim) then prev else prev + [r]
  }

  const DefaultSimThreshold: real := 0.9

  /** The inner loop of `dedupeByUrlAndSimilarity`: is some accepted row at least `th` similar to `r`? */
  method HasNearDuplicate(r: ReservoirRow, accepted: seq<ReservoirRow>, th: real) returns (dup: bool)
    ensures dup == NearDuplicate(r, accepted, th, Sim)
  {
    dup := false;
    var j := 0;
    while j < |accepted|
      invariant 0 <= j <= |accepted|
      invariant forall k :: 0 <= k < j ==> Sim(r.text, accepted[k].text) < th
    {
      var s := Similarity(r.text, accepted[j].text);
      if s >= th {
        dup := true;
        assert Sim(r.text, accepted[j].text) >= th;
        return;
      }
      j := j + 1;
    }
  }

  method DedupeByUrlAndSimilarity(rows: seq<ReservoirRow>, th: real) returns (out: seq<ReservoirRow>)
    ensures out == Dedupe(rows, th, Sim)
  {
    out := [];
    var seen: set<string> := {};
    for i := 0 to |rows|
      invariant out == Dedupe(rows[..i], th, Sim)
      invariant seen == Urls(out)
    {
      var r := rows[i];
      assert rows[..i + 1][..i] == rows[..i];
      if r.url in seen {
        continue;
      }
      var dup := HasNearDuplicate(r, out, th);
      if dup {
        continue;
      }
      seen := seen + {r.url};
      out := out + [r];
    }
    assert rows[..|rows|] == rows;
  }

  /** The output is the input with rows left out, the rest in input order. */
  lemma {:induction false} DedupeSubseq(rows: seq<ReservoirRow>, th: real, sim: (string, string) -> real)
    ensures Subseq(Dedupe(rows, th, sim), rows)
    decreases |rows|
  {
    if rows == [] {
      SubseqEmpty(rows);
    } else {
      var init := rows[..|rows| - 1];
      var last := rows[|rows| - 1];
      DedupeSubseq(init, th, sim);
      assert rows == init + [last];
      if Dedupe(rows, th, sim) == Dedupe(init, th, sim) {
        SubseqSkip(Dedupe(init, th, sim), init, last);
      } else {
        SubseqKeep(Dedupe(init, th, sim), init, last);
      }
    }
  }

  /** No two kept rows share a URL, and each kept row is less than `th` similar to every row kept before it. */
  predicate DedupeInvariant(out: seq<ReservoirRow>, th: real, sim: (string, string) -> real) {
    (forall i, j :: 0 <= i < j < |out| ==> out[i].url != out[j].url)
    && (forall i, j :: 0 <= i < j < |out| ==> sim(out[j].text, out[i].text) < th)
  }

  lemma {:induction false} DedupeKeepsInvariant(rows: seq<ReservoirRow>, th: real, sim: (string, string) -> real)
    ensures DedupeInvariant(Dedupe(rows, th, sim), th, sim)
    decreases |rows|
  {
    if rows != [] {
      var prev := Dedupe(rows[..|rows| - 1], th, sim);
      DedupeKeepsInvariant(rows[..|rows| - 1], th, sim);
      var r := rows[|rows| - 1];
      if !(r.url in Urls(prev) || NearDuplicate(r, prev, th, sim)) {
        var out := prev + [r];
        forall i, j | 0 <= i < j < |out| ensures out[i].url != out[j].url {
          if j == |prev| { assert out[i] == prev[i]; }
        }
        forall i, j | 0 <= i < j < |out| ensures sim(out[j].text, out[i].text) < th {
          if j == |prev| { assert out[i] == prev[i]; }
        }
      }
    }
  }

  /** In the output of `dedupeByUrlAndSimilarity` no two rows share a URL and every pair, in either order, is less than `th` similar. */
  lemma DedupeUniqueAndDissimilar(rows: seq<ReservoirRow>, th: real, i: nat, j: nat)
    requires i < |Dedupe(rows, th, Sim)| && j < |Dedupe(rows, th, Sim)| && i != j
    ensures Dedupe(rows, th, Sim)[i].url != Dedupe(rows, th, Sim)[j].url
    ensures Sim(Dedupe(rows, th, Sim)[i].text, Dedupe(rows, th, Sim)[j].text) < th
  {
    var out := Dedupe(rows, th, Sim);
    DedupeKeepsInvariant(rows, th, Sim);
    SimSymmetric(out[i].text, out[j].text);
  }

  /**
   * A row dropped as a near-duplicate leaves its URL unseen: a later row
   * with the same URL that is not similar to any kept row is kept.
   */
  lemma NearDuplicateLeavesUrlFree(rows: seq<ReservoirRow>, r: ReservoirRow, r2: ReservoirRow, th: real, sim: (string, string) -> real)
    requires r.url !in Urls(Dedupe(rows, th, sim)) && NearDuplicate(r, Dedupe(rows, th, sim), th, sim)
    requires r2.url == r.url && !NearDuplicate(r2, Dedupe(rows, th, sim), th, sim)
    ensures Dedupe(rows + [r], th, sim) == Dedupe(rows, th, sim)
    ensures Dedupe(rows + [r, r2], th, sim) == Dedupe(rows, th, sim) + [r2]
  {
    assert (rows + [r])[..|rows|] == rows;
    assert (rows + [r, r2])[..|rows| + 1] == rows + [r];
  }

  /** A sequence that already satisfies the invariant passes through unchanged. */
  lemma {:induction false} DedupeOfValid(rows: seq<ReservoirRow>, th: real, sim: (string, string) -> real)
    requires DedupeInvariant(rows, th, sim)
    ensures Dedupe(rows, th, sim) == rows
    decreases |rows|
  {
    if rows != [] {
      var init := rows[..|rows| - 1];
      var r := rows[|rows| - 1];
      ValidLast(rows, init, r, th, sim);
      DedupeOfValid(init, th, sim);
      assert rows == init + [r];
    }
  }

  /** The last row of a sequence meeting the invariant is kept after the others. */
  lemma ValidLast(rows: seq<ReservoirRow>, init: seq<ReservoirRow>, r: ReservoirRow, th: real, sim: (string, string) -> real)
    requires DedupeInvariant(rows, th, sim) && rows == init + [r]
    ensures DedupeInvariant(init, th, sim)
    ensures r.url !in Urls(init) && !NearDuplicate(r, init, th, sim)
  {
    assert forall i :: 0 <= i < |init| ==> init[i] == rows[i];
    forall i | 0 <= i < |init| ensures init[i].url != r.url {
      assert rows[|init|] == r;
    }
    UrlsAbsent(init, r.url);
    forall k | 0 <= k < |init| ensures sim(r.text, init[k].text) < th {
      assert rows[|init|] == r;
    }
  }

  /** De-duplicating the output again changes nothing. */
  lemma DedupeIdempotent(rows: seq<ReservoirRow>, th: real, sim: (string, string) -> real)
    ensures Dedupe(Dedupe(rows, th, sim), th, sim) == Dedupe(rows, th, sim)
  {
    DedupeKeepsInvariant(rows, th, sim);
    DedupeOfValid(Dedupe(rows, th, sim), th, sim);
  }
}
