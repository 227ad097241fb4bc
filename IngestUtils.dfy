/**
 * The ingestion helpers of packages/factory/ingest/utils.ts: command-line
 * flags, the fixture cache, term and language normalisation, schema
 * validation and dedup by id.
 */
module IngestUtils {
  import opened Wrappers
  import opened JsText
  import opened Seqs
  import opened Files
  import opened Types

  // ---- parseFlags ----

  /** The `Flags` schema's output. */
  datatype Flags = Flags(live: bool, limit: int, nocache: bool)

  /** The `out` object the loop fills: a field is `None` until some argument sets it. */
  datatype RawFlags = RawFlags(live: Option<bool>, limit: Option<JsNumber>, nocache: Option<bool>)

  /** The only way `Flags.parse` fails here: `limit` is set but not a positive integer. */
  datatype FlagsError = InvalidLimit

  const DefaultLimit: int := 10
  const LimitPrefix: string := "--limit="

  /** `Number(a.split("=")[1] || 0)`: a missing or empty second piece is the number 0. */
  function LimitArg(a: string): JsNumber {
    var parts := Split(a, '=');
    if |parts| < 2 || parts[1] == "" then Num(0.0) else NumberOf(parts[1])
  }

  /** One pass of the loop body: the four tests are independent `if`s. */
  function FlagStep(o: RawFlags, a: string): RawFlags {
    var o1 := if a == "--live" then o.(live := Some(true)) else o;
    var o2 := if a == "--mock" then o1.(live := Some(false)) else o1;
    var o3 := if StartsWith(a, LimitPrefix) then o2.(limit := Some(LimitArg(a))) else o2;
    if a == "--nocache" then o3.(nocache := Some(true)) else o3
  }

  /** `out` after the loop has seen `argv`. */
  function ScanFlags(argv: seq<string>): RawFlags {
    if argv == [] then RawFlags(None, None, None)
    else FlagStep(ScanFlags(argv[..|argv| - 1]), argv[|argv| - 1])
  }

  /** `z.number().int().positive()`. */
  predicate IsPositiveInt(n: JsNumber) {
    n.Num? && n.v == n.v.Floor as real && n.v > 0.0
  }

  /** `Flags.parse(out)`: defaults for the unset fields, and a thrown error for a bad limit. */
  function ParseRaw(o: RawFlags): (r: Result<Flags, FlagsError>)
    ensures r.Err? <==> o.limit.Some? && !IsPositiveInt(o.limit.value)
    ensures r.Ok? ==> r.value.limit >= 1 && r.value.live == o.live.GetOr(false) && r.value.nocache == o.nocache.GetOr(false)
    ensures r.Ok? ==> r.value.limit as real == if o.limit.Some? then o.limit.value.v else DefaultLimit as real
  {
    if o.limit.Some? && !IsPositiveInt(o.limit.value) then Err(InvalidLimit)
    else
      var limit := if o.limit.Some? then o.limit.value.v.Floor else DefaultLimit;
      Ok(Flags(o.live.GetOr(false), limit, o.nocache.GetOr(false)))
  }

  function ParseFlagsOf(argv: seq<string>): Result<Flags, FlagsError> {
    ParseRaw(ScanFlags(argv))
  }

  method ParseFlags(argv: seq<string>) returns (r: Result<Flags, FlagsError>)
    ensures r == ParseFlagsOf(argv)
  {
    var out := RawFlags(None, None, None);
    for i := 0 to |argv|
      invariant out == ScanFlags(argv[..i])
    {
      assert argv[..i + 1][..i] == argv[..i];
      var a := argv[i];
      if a == "--live" { out := out.(live := Some(true)); }
      if a == "--mock" { out := out.(live := Some(false)); }
      if StartsWith(a, LimitPrefix) { out := out.(limit := Some(LimitArg(a))); }
      if a == "--nocache" { out := out.(nocache := Some(true)); }
    }
    assert argv[..|argv|] == argv;
    r := ParseRaw(out);
  }

  /** An argument that none of the four tests recognises. */
  predicate Unrecognised(a: string) {
    a != "--live" && a != "--mock" && a != "--nocache" && !StartsWith(a, LimitPrefix)
  }

  /** Without recognised arguments every flag takes its default: not live, limit 10, cache on. */
  lemma {:induction false} DefaultFlags(argv: seq<string>)
    requires forall i :: 0 <= i < |argv| ==> Unrecognised(argv[i])
    ensures ParseFlagsOf(argv) == Ok(Flags(false, DefaultLimit, false))
    decreases |argv|
  {
    if argv != [] {
      var init := argv[..|argv| - 1];
      assert forall i :: 0 <= i < |init| ==> init[i] == argv[i];
      DefaultFlags(init);
    }
  }

  /** The last `--live` or `--mock` decides `live`. */
  lemma {:induction false} LastLiveFlagWins(argv: seq<string>, i: nat)
    requires i < |argv| && (argv[i] == "--live" || argv[i] == "--mock")
    requires forall j :: i < j < |argv| ==> argv[j] != "--live" && argv[j] != "--mock"
    ensures ScanFlags(argv).live == Some(argv[i] == "--live")
    decreases |argv|
  {
    if i < |argv| - 1 {
      var init := argv[..|argv| - 1];
      assert forall j :: i < j < |init| ==> init[j] == argv[j];
      LastLiveFlagWins(init, i);
    }
  }

  /** Without `--live` or `--mock` the run is not live. */
  lemma {:induction false} NoLiveFlag(argv: seq<string>)
    requires forall j :: 0 <= j < |argv| ==> argv[j] != "--live" && argv[j] != "--mock"
    ensures ScanFlags(argv).live == None
    decreases |argv|
  {
    if argv != [] {
      var init := argv[..|argv| - 1];
      assert forall j :: 0 <= j < |init| ==> init[j] == argv[j];
      NoLiveFlag(init);
    }
  }

  /** The last `--limit=` argument decides the limit, and `parseFlags` throws when its value is not a positive integer. */
  lemma {:induction false} LastLimitWins(argv: seq<string>, i: nat)
    requires i < |argv| && StartsWith(argv[i], LimitPrefix)
    requires forall j :: i < j < |argv| ==> !StartsWith(argv[j], LimitPrefix)
    ensures ScanFlags(argv).limit == Some(LimitArg(argv[i]))
    ensures ParseFlagsOf(argv).Err? <==> !IsPositiveInt(LimitArg(argv[i]))
    ensures ParseFlagsOf(argv).Ok? ==> ParseFlagsOf(argv).value.limit as real == LimitArg(argv[i]).v
    decreases |argv|
  {
    if i < |argv| - 1 {
      var init := argv[..|argv| - 1];
      assert forall j :: i < j < |init| ==> init[j] == argv[j];
      LastLimitWins(init, i);
    }
  }

  /** An empty value, `--limit=`, reads as 0 and so is rejected. */
  lemma EmptyLimitRejected()
    ensures LimitArg(LimitPrefix) == Num(0.0) && !IsPositiveInt(LimitArg(LimitPrefix))
  {
    var a := LimitPrefix;
    assert '=' in a && IndexOf(a, '=') == 7 by {
      assert a[7] == '=' && '=' !in a[..7];
      IndexOfAt(a, '=', 7);
    }
    assert a[8..] == "";
    assert Split(a, '=') == [a[..7]] + Split("", '=');
  }

  /** `nocache` is on exactly when `--nocache` is among the arguments. */
  lemma {:induction false} NocacheFlag(argv: seq<string>)
    ensures ScanFlags(argv).nocache == if "--nocache" in argv then Some(true) else None
    decreases |argv|
  {
    if argv != [] {
      var init := argv[..|argv| - 1];
      NocacheFlag(init);
      assert argv == init + [argv[|argv| - 1]];
    }
  }

  // ---- withCache ----

  const FixturesDir: string := "data/fixtures/"

  /**
   * `withCache(filename, fn, nocache)`: `produce` is how `fn()` settles and
   * `now` the time of the write. A file parsed back gives the value written.
   */
  method WithCache<V, E>(store: Store<V>, filename: string, produce: Result<V, E>, nocache: bool, now: int)
    returns (r: Result<V, E>, called: bool)
    modifies store
    ensures var cached := ReadJson(old(store.docs), FixturesDir + filename);
      if !nocache && cached.Some? then
        !called && r == Ok(cached.value) && store.docs == old(store.docs)
      else
        called && r == produce
        && store.docs == if produce.Ok? then old(store.docs)[FixturesDir + filename := Doc(now, Some(produce.value))] else old(store.docs)
  {
    var file := FixturesDir + filename;
    if !nocache {
      var cached := ReadJson(store.docs, file);
      if cached.Some? {
        return Ok(cached.value), false;
      }
    }
    called := true;
    r := produce;
    if produce.Ok? {
      store.docs := store.docs[file := Doc(now, Some(produce.value))];
    }
  }

  /** A forced refresh followed by a normal call: `fn` runs once and both calls return the same value. */
  method RefreshThenReuse<V, E>(store: Store<V>, filename: string, v: V, later: Result<V, E>, now: int, now': int)
    returns (first: Result<V, E>, second: Result<V, E>, calls: nat)
    modifies store
    ensures calls == 1 && first == Ok(v) && second == first
  {
    var c1, c2;
    first, c1 := WithCache(store, filename, Ok(v), true, now);
    second, c2 := WithCache(store, filename, later, false, now');
    calls := (if c1 then 1 else 0) + (if c2 then 1 else 0);
  }

  // ---- normalizeEmoji and detectLang ----

  /** `term?.trim() || ""`: a null or undefined term is `None`. */
  function NormalizeEmoji(term: Option<string>): (r: string)
    ensures |r| <= |term.GetOr("")|
    ensures r == [] || (!IsSpace(r[0]) && !IsSpace(r[|r| - 1]))
  {
    if term.None? then "" else Trim(term.value)
  }

  /** Normalising a normalised term changes nothing. */
  lemma NormalizeEmojiIdempotent(term: Option<string>)
    ensures NormalizeEmoji(Some(NormalizeEmoji(term))) == NormalizeEmoji(term)
  {
    if term.Some? {
      TrimIdempotent(term.value);
    } else {
      TrimOfTrimmed("");
    }
  }

  /** The class `[áéíóúãõâêôç]` under the `i` flag: those letters and their capitals. */
  predicate IsPtAccent(c: char) {
    c in {'á', 'é', 'í', 'ó', 'ú', 'ã', 'õ', 'â', 'ê', 'ô', 'ç',
          'Á', 'É', 'Í', 'Ó', 'Ú', 'Ã', 'Õ', 'Â', 'Ê', 'Ô', 'Ç'}
  }

  function HasPtAccent(text: string): (b: bool)
    ensures b <==> exists i :: 0 <= i < |text| && IsPtAccent(text[i])
  {
    if text == [] then false
    else
      assert forall i :: 0 < i < |text| ==> text[i] == text[1..][i - 1];
      IsPtAccent(text[0]) || HasPtAccent(text[1..])
  }

  /** `detectLang(text)`: "pt" exactly when one of the accented letters occurs, else "en". */
  function DetectLang(text: string): (r: string)
    ensures r == "pt" || r == "en"
    ensures r == "pt" <==> exists i :: 0 <= i < |text| && IsPtAccent(text[i])
  {
    if HasPtAccent(text) then "pt" else "en"
  }

  /** A text is Portuguese when either part of it is. */
  lemma DetectLangConcat(a: string, b: string)
    ensures DetectLang(a + b) == "pt" <==> DetectLang(a) == "pt" || DetectLang(b) == "pt"
  {
    var ab := a + b;
    if DetectLang(b) == "pt" {
      var i :| 0 <= i < |b| && IsPtAccent(b[i]);
      assert ab[|a| + i] == b[i];
    }
    if DetectLang(a) == "pt" {
      var i :| 0 <= i < |a| && IsPtAccent(a[i]);
      assert ab[i] == a[i];
    }
    if DetectLang(ab) == "pt" {
      var i :| 0 <= i < |ab| && IsPtAccent(ab[i]);
      if i < |a| {
        assert ab[i] == a[i];
      } else {
        assert ab[i] == b[i - |a|];
      }
    }
  }

  // ---- validateItems ----

  /**
   * `validateItems(items)`: `parse` is `SourceItem.safeParse`, `None` for a
   * failure. The error carries the index of the first invalid item.
   */
  function ValidatedOf<T>(items: seq<T>, parse: T -> Option<SourceItem>): (r: Result<seq<SourceItem>, nat>)
    ensures r.Ok? <==> forall k :: 0 <= k < |items| ==> parse(items[k]).Some?
    ensures r.Ok? ==> |r.value| == |items| && forall k :: 0 <= k < |items| ==> r.value[k] == parse(items[k]).value
    ensures r.Err? ==> r.error < |items| && parse(items[r.error]).None?
    ensures r.Err? ==> forall k :: 0 <= k < r.error ==> parse(items[k]).Some?
    decreases |items|
  {
    if items == [] then Ok([])
    else
      var init := items[..|items| - 1];
      var prev := ValidatedOf(init, parse);
      assert forall k :: 0 <= k < |init| ==> init[k] == items[k];
      if prev.Err? then prev
      else
        match parse(items[|items| - 1])
        case None => Err(|items| - 1)
        case Some(x) => Ok(prev.value + [x])
  }

  method ValidateItems<T>(items: seq<T>, parse: T -> Option<SourceItem>) returns (r: Result<seq<SourceItem>, nat>)
    ensures r == ValidatedOf(items, parse)
  {
    var result: seq<SourceItem> := [];
    for i := 0 to |items|
      invariant ValidatedOf(items[..i], parse) == Ok(result)
    {
      assert items[..i + 1][..i] == items[..i];
      var p := parse(items[i]);
      if p.None? {
        return Err(i);
      }
      result := result + [p.value];
    }
    assert items[..|items|] == items;
    r := Ok(result);
  }

  // ---- dedupe ----

  function IdOf(it: SourceItem): string { it.id }

  /** `dedupe(items)`: the first item for each id, in input order. */
  method Dedupe(items: seq<SourceItem>) returns (out: seq<SourceItem>)
    ensures out == FirstsBy(items, IdOf)
  {
    out := [];
    var seen: set<string> := {};
    for i := 0 to |items|
      invariant out == FirstsBy(items[..i], IdOf)
      invariant seen == KeySet(out, IdOf)
    {
      assert items[..i + 1] == items[..i] + [items[i]];
      FirstsBySnoc(items[..i], items[i], IdOf);
      var it := items[i];
      if it.id in seen {
        continue;
      }
      KeySetSnoc(out, it, IdOf);
      seen := seen + {it.id};
      out := out + [it];
    }
    assert items[..|items|] == items;
  }

  /** The output keeps the input's order, holds each id once and loses no id; deduplicating again changes nothing. */
  lemma DedupeFacts(items: seq<SourceItem>)
    ensures var out := FirstsBy(items, IdOf);
      Subseq(out, items) && DistinctBy(out, IdOf) && KeySet(out, IdOf) == KeySet(items, IdOf)
      && FirstsBy(out, IdOf) == out
  {
    FirstsBySubseq(items, IdOf);
    FirstsByDistinct(items, IdOf);
    FirstsByKeys(items, IdOf);
    FirstsByIdempotent(items, IdOf);
  }

  /** Of two items with the same id the first is kept: three items of which two share an id give two. */
  lemma DedupeExample(a: SourceItem, b: SourceItem, c: SourceItem)
    requires a.id == b.id && c.id != a.id
    ensures FirstsBy([a, b, c], IdOf) == [a, c]
  {
    FirstsBySnoc([], a, IdOf);
    assert [a] == [] + [a];
    assert KeySet([a], IdOf) == {a.id};
    FirstsBySnoc([a], b, IdOf);
    assert [a, b] == [a] + [b];
    FirstsBySnoc([a, b], c, IdOf);
    assert [a, b, c] == [a, b] + [c];
  }
}
