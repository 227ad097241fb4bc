/**
 * `buildReservoir` (packages/plugins/emoji/lib/reservoir.ts): the configured
 * providers are dispatched, the rows of the ones that succeed are merged in
 * provider-list order, and the first row per URL is kept until `limit` rows
 * are out. The providers themselves are network clients; `fetch(k, p)` is the
 * settled outcome of the k-th task, which asked provider `p`.
 */
module Reservoir {
  import opened Wrappers
  import opened JsText
  import opened Seqs
  import opened Types

  datatype Provider = Reddit | HackerNews | Trends | YouTube | Rss

  /** A settled provider promise. */
  datatype Settled = Fulfilled(rows: seq<ReservoirRow>) | Rejected

  const DefaultProviders: string := "reddit,hn"
  const DefaultLimit: int := 300

  /** The `switch` over a configured name; any other name starts no task. */
  function ParseProvider(name: string): (p: Option<Provider>)
    ensures p.Some? <==> name in {"reddit", "hn", "trends", "youtube", "rss"}
  {
    match name
    case "reddit" => Some(Reddit)
    case "hn" => Some(HackerNews)
    case "trends" => Some(Trends)
    case "youtube" => Some(YouTube)
    case "rss" => Some(Rss)
    case _ => None
  }

  /** The configured names: `DISCOVER_PROVIDERS`, or `reddit,hn` when it is unset or empty. */
  function Configured(env: string): seq<string> {
    ListSetting(if env == "" then DefaultProviders else env)
  }

  /** Tasks started for some configured names, in order. */
  function Dispatch(names: seq<string>): (tasks: seq<Provider>)
    ensures |tasks| <= |names|
  {
    if names == [] then []
    else
      var prev := Dispatch(names[..|names| - 1]);
      match ParseProvider(names[|names| - 1])
      case Some(p) => prev + [p]
      case None => prev
  }

  /** The rows of the fulfilled outcomes, concatenated in order. */
  function Merged(results: seq<Settled>): seq<ReservoirRow> {
    if results == [] then []
    else
      var prev := Merged(results[..|results| - 1]);
      match results[|results| - 1]
      case Fulfilled(rows) => prev + rows
      case Rejected => prev
  }

  /** The first row for each URL, in input order. */
  function FirstByUrl(rows: seq<ReservoirRow>): seq<ReservoirRow> {
    if rows == [] then []
    else
      var prev := FirstByUrl(rows[..|rows| - 1]);
      var r := rows[|rows| - 1];
      if r.url in Urls(prev) then prev else prev + [r]
  }

  /** How many rows the dedup loop lets out: the limit test comes after the push, so at least one. */
  function Cap(limit: int): nat {
    if limit < 1 then 1 else limit
  }

  function Take<T>(s: seq<T>, n: nat): (r: seq<T>)
    ensures |r| == if n < |s| then n else |s|
  {
    if n < |s| then s[..n] else s
  }

  /** What `buildReservoir` returns for the given settled outcomes. */
  function ReservoirOf(results: seq<Settled>, limit: int): seq<ReservoirRow> {
    Take(FirstByUrl(Merged(results)), Cap(limit))
  }

  // ---- the method ----

  method DispatchAll(names: seq<string>) returns (tasks: seq<Provider>)
    ensures tasks == Dispatch(names)
  {
    tasks := [];
    for i := 0 to |names|
      invariant tasks == Dispatch(names[..i])
    {
      assert names[..i + 1][..i] == names[..i];
      match ParseProvider(names[i]) {
        case Some(p) => tasks := tasks + [p];
        case None =>
      }
    }
    assert names[..|names|] == names;
  }

  method MergeSettled(results: seq<Settled>) returns (rows: seq<ReservoirRow>)
    ensures rows == Merged(results)
  {
    rows := [];
    for i := 0 to |results|
      invariant rows == Merged(results[..i])
    {
      assert results[..i + 1][..i] == results[..i];
      if results[i].Fulfilled? {
        rows := rows + results[i].rows;
      }
    }
    assert results[..|results|] == results;
  }

  method DedupeByUrl(rows: seq<ReservoirRow>, limit: int) returns (out: seq<ReservoirRow>)
    ensures out == Take(FirstByUrl(rows), Cap(limit))
  {
    out := [];
    var seen: set<string> := {};
    var i := 0;
    while i < |rows|
      invariant 0 <= i <= |rows|
      invariant out == FirstByUrl(rows[..i])
      invariant seen == Urls(out)
      invariant |out| < Cap(limit)
    {
      FirstByUrlStep(rows, i, out);
      var row := rows[i];
      i := i + 1;
      if row.url in seen {
        continue;
      }
      seen := seen + {row.url};
      out := out + [row];
      if |out| >= limit {
        FirstByUrlStop(rows, i, out, limit);
        return;
      }
    }
    assert rows[..i] == rows;
  }

  /** One more row is kept exactly when its URL was not seen, and its URL is then seen. */
  lemma FirstByUrlStep(rows: seq<ReservoirRow>, i: nat, out: seq<ReservoirRow>)
    requires i < |rows| && out == FirstByUrl(rows[..i])
    ensures FirstByUrl(rows[..i + 1]) == if rows[i].url in Urls(out) then out else out + [rows[i]]
    ensures Urls(out + [rows[i]]) == Urls(out) + {rows[i].url}
  {
    assert rows[..i + 1][..i] == rows[..i];
    assert (out + [rows[i]])[..|out|] == out;
  }

  /** Once the kept rows reach the cap, they are the capped result for all rows. */
  lemma FirstByUrlStop(rows: seq<ReservoirRow>, i: nat, out: seq<ReservoirRow>, limit: int)
    requires i <= |rows| && out == FirstByUrl(rows[..i]) && |out| == Cap(limit)
    ensures out == Take(FirstByUrl(rows), Cap(limit))
  {
    FirstByUrlPrefix(rows, i);
  }

  /**
   * `buildReservoir(limit)`: `env` is the value of `DISCOVER_PROVIDERS` ("" when unset)
   * and `fetch(k, p)` the settled outcome of the k-th task.
   */
  method BuildReservoir(env: string, limit: int, fetch: (nat, Provider) -> Settled)
    returns (out: seq<ReservoirRow>, tasks: seq<Provider>)
    ensures tasks == Dispatch(Configured(env))
    ensures out == ReservoirOf(seq(|tasks|, k requires 0 <= k < |tasks| => fetch(k, tasks[k])), limit)
  {
    tasks := DispatchAll(Configured(env));
    var results := seq(|tasks|, k requires 0 <= k < |tasks| => fetch(k, tasks[k]));
    var rows := MergeSettled(results);
    out := DedupeByUrl(rows, limit);
  }

  // ---- properties ----

  /** First-occurrence filtering of a prefix is a prefix of the filtering of the whole. */
  lemma {:induction false} FirstByUrlPrefix(rows: seq<ReservoirRow>, n: nat)
    requires n <= |rows|
    ensures |FirstByUrl(rows[..n])| <= |FirstByUrl(rows)|
    ensures FirstByUrl(rows[..n]) == FirstByUrl(rows)[..|FirstByUrl(rows[..n])|]
    decreases |rows|
  {
    if n == |rows| {
      assert rows[..n] == rows;
    } else {
      var init := rows[..|rows| - 1];
      FirstByUrlPrefix(init, n);
      assert init[..n] == rows[..n];
    }
  }

  lemma SplitDefaultProviders()
    ensures Split(DefaultProviders, ',') == ["reddit", "hn"]
  {
    var s := DefaultProviders;
    IndexOfAt(s, ',', 6);
    assert s[..6] == "reddit" && s[7..] == "hn";
  }

  lemma TrimmedDefaultNames()
    ensures TrimmedNonEmpty(["reddit", "hn"]) == ["reddit", "hn"]
  {
    TrimmedPair("reddit", "hn");
  }

  lemma TrimmedPair(a: string, b: string)
    requires a != [] && !IsSpace(a[0]) && !IsSpace(a[|a| - 1])
    requires b != [] && !IsSpace(b[0]) && !IsSpace(b[|b| - 1])
    ensures TrimmedNonEmpty([a, b]) == [a, b]
  {
    TrimOfTrimmed(a);
    TrimOfTrimmed(b);
    TrimmedNonEmptyKeeps([a, b]);
  }

  /** With `DISCOVER_PROVIDERS` unset, the configured names are `reddit` and `hn`. */
  lemma DefaultNames()
    ensures Configured("") == ["reddit", "hn"]
  {
    SplitDefaultProviders();
    TrimmedDefaultNames();
  }

  lemma DispatchDefaultNames()
    ensures Dispatch(["reddit", "hn"]) == [Reddit, HackerNews]
  {
    var names := ["reddit", "hn"];
    assert names[..1] == ["reddit"];
    assert Dispatch(["reddit"]) == [Reddit] by {
      assert ["reddit"][..0] == [];
    }
  }

  /** With `DISCOVER_PROVIDERS` unset, the started tasks are Reddit then Hacker News. */
  lemma DefaultDispatch()
    ensures Dispatch(Configured("")) == [Reddit, HackerNews]
  {
    DefaultNames();
    DispatchDefaultNames();
  }

  /** Names other than the five providers start no task. */
  lemma {:induction false} UnknownNamesIgnored(names: seq<string>, name: string)
    requires ParseProvider(name).None?
    ensures Dispatch(names + [name]) == Dispatch(names)
  {
    assert (names + [name])[..|names|] == names;
  }

  /** A rejected provider contributes no rows, and the build still completes. */
  lemma RejectedContributesNothing(results: seq<Settled>)
    ensures Merged(results + [Rejected]) == Merged(results)
  {
    assert (results + [Rejected])[..|results|] == results;
  }

  /** Every merged row comes, unchanged, from a fulfilled outcome. */
  lemma {:induction false} MergedFromFulfilled(results: seq<Settled>, row: ReservoirRow)
    requires row in Merged(results)
    ensures exists k :: 0 <= k < |results| && results[k].Fulfilled? && row in results[k].rows
    decreases |results|
  {
    var init := results[..|results| - 1];
    var last := results[|results| - 1];
    if last.Fulfilled? && row in last.rows {
    } else {
      MergedFromFulfilled(init, row);
      var k :| 0 <= k < |init| && init[k].Fulfilled? && row in init[k].rows;
      assert results[k] == init[k];
    }
  }

  /** The kept rows are the merged rows with some left out, the rest unchanged and in order. */
  lemma {:induction false} FirstByUrlSubseq(rows: seq<ReservoirRow>)
    ensures Subseq(FirstByUrl(rows), rows)
    decreases |rows|
  {
    if rows == [] {
      SubseqEmpty(rows);
    } else {
      var init := rows[..|rows| - 1];
      var last := rows[|rows| - 1];
      FirstByUrlSubseq(init);
      assert rows == init + [last];
      if last.url in Urls(FirstByUrl(init)) {
        SubseqSkip(FirstByUrl(init), init, last);
      } else {
        SubseqKeep(FirstByUrl(init), init, last);
      }
    }
  }

  /** No two kept rows share a URL. */
  lemma {:induction false} FirstByUrlDistinct(rows: seq<ReservoirRow>)
    ensures DistinctBy(FirstByUrl(rows), (r: ReservoirRow) => r.url)
    decreases |rows|
  {
    if rows != [] {
      var prev := FirstByUrl(rows[..|rows| - 1]);
      var last := rows[|rows| - 1];
      FirstByUrlDistinct(rows[..|rows| - 1]);
      if last.url !in Urls(prev) {
        var out := prev + [last];
        forall i, j | 0 <= i < j < |out| ensures out[i].url != out[j].url {
          if j == |prev| { assert out[i] == prev[i]; }
        }
      }
    }
  }

  /** Every URL of the merged rows is kept: filtering loses rows, never URLs. */
  lemma {:induction false} FirstByUrlKeepsUrls(rows: seq<ReservoirRow>)
    ensures Urls(FirstByUrl(rows)) == Urls(rows)
    decreases |rows|
  {
    if rows != [] {
      var init := rows[..|rows| - 1];
      FirstByUrlKeepsUrls(init);
      var prev := FirstByUrl(init);
      var last := rows[|rows| - 1];
      assert Urls(rows) == Urls(init) + {last.url};
      if last.url !in Urls(prev) {
        var out := prev + [last];
        assert out[..|out| - 1] == prev;
      }
    }
  }

  /** A row whose URL did not occur earlier is the one kept for that URL. */
  lemma {:induction false} FirstOccurrenceKept(rows: seq<ReservoirRow>, i: nat)
    requires i < |rows|
    requires forall j :: 0 <= j < i ==> rows[j].url != rows[i].url
    ensures rows[i] in FirstByUrl(rows)
    decreases |rows|
  {
    var init := rows[..|rows| - 1];
    if i == |rows| - 1 {
      forall j | 0 <= j < |init| ensures init[j].url != rows[i].url {
        assert init[j] == rows[j];
      }
      UrlsAbsent(init, rows[i].url);
      FirstByUrlKeepsUrls(init);
    } else {
      FirstOccurrenceKept(init, i);
    }
  }

  /** At most `limit` rows for `limit >= 1`; exactly one row for `limit <= 0` when any row exists. */
  lemma ReservoirSize(results: seq<Settled>, limit: int)
    ensures limit >= 1 ==> |ReservoirOf(results, limit)| <= limit
    ensures limit <= 0 && Merged(results) != [] ==> |ReservoirOf(results, limit)| == 1
  {
    var rows := Merged(results);
    if rows != [] {
      FirstOccurrenceKept(rows, 0);
    }
  }
}
