/**
 * `generateOne` and `buildContentHtml` (packages/factory/generate/index.ts):
 * the top queued item of a niche is drafted by the language model, given a
 * slug no post has yet, rendered to a card and stored as one draft post.
 * The model, the renderer and the plugin's hooks are parameters; which slug
 * lookups throw is the predicate `fails`.
 */
module Generate {
  import opened Wrappers
  import opened JsText
  import opened Types
  import opened Ports
  import opened OpenAi

  // ---- buildContentHtml ----

  const Head: string := "\n    <h2>Meaning</h2><p>"
  const Mid1: string := "</p>\n    <h2>Origin</h2><p>"
  const Mid2: string := "</p>\n    <h2>Usage</h2><ul>"
  const Tail: string := "</ul>\n  "

  const OpenLi: string := "<li>"
  const CloseLi: string := "</li>"

  function Item(u: string): string { OpenLi + u + CloseLi }

  /** `usage.map((u) => `<li>${u}</li>`).join("")`. */
  function UsageItems(usage: seq<string>): string
    decreases |usage|
  {
    if usage == [] then "" else Item(usage[0]) + UsageItems(usage[1..])
  }

  /** `buildContentHtml(draft)`: the Meaning, Origin and Usage sections, in that order. */
  function BuildContentHtml(s: Sections): string {
    Head + (s.meaning + (Mid1 + (s.origin + (Mid2 + (UsageItems(s.usage) + Tail)))))
  }

  /** An element at the front of `h` opened by `open` and closed by `close`: its text and what follows it. */
  function ElementAt(h: string, open: string, close: string): Option<(string, string)> {
    if StartsWith(h, open) then Closed(UntilTag(h[|open|..]), close) else None
  }

  /** The text read up to a `<`, when the `close` tag follows it. */
  function Closed(m: Option<(string, string)>, close: string): Option<(string, string)> {
    if m.Some? && StartsWith(m.value.1, close) then Some((m.value.0, m.value.1[|close|..])) else None
  }

  function ItemAt(h: string): Option<(string, string)> {
    ElementAt(h, OpenLi, CloseLi)
  }

  /** Reading the list back: one `<li>` element per entry until the closing `</ul>`. */
  function ParseItems(h: string): Option<seq<string>>
    decreases |h|
  {
    if h == Tail then Some([])
    else match ItemAt(h)
      case None => None
      case Some(e) =>
        if |e.1| < |h| then
          var more := ParseItems(e.1);
          if more.Some? then Some([e.0] + more.value) else None
        else None
  }

  /** The text before the first `<`, and what follows from it. */
  function UntilTag(s: string): Option<(string, string)> {
    if '<' in s then Some((s[..IndexOf(s, '<')], s[IndexOf(s, '<')..])) else None
  }

  /** Reading a page built from `head`, `mid1` and `mid2` back into its meaning, origin and usage. */
  function ReadWith(html: string, head: string, mid1: string, mid2: string): Option<(string, string, seq<string>)> {
    if StartsWith(html, head) then AfterMeaning(UntilTag(html[|head|..]), mid1, mid2) else None
  }

  function AfterMeaning(m: Option<(string, string)>, mid1: string, mid2: string): Option<(string, string, seq<string>)> {
    if m.Some? && StartsWith(m.value.1, mid1) then AfterOrigin(m.value.0, UntilTag(m.value.1[|mid1|..]), mid2) else None
  }

  function AfterOrigin(meaning: string, o: Option<(string, string)>, mid2: string): Option<(string, string, seq<string>)> {
    if o.Some? && StartsWith(o.value.1, mid2) then
      var u := ParseItems(o.value.1[|mid2|..]);
      if u.Some? then Some((meaning, o.value.0, u.value)) else None
    else None
  }

  /** Reading a page back into its meaning, origin and usage. */
  function ReadContent(html: string): Option<(string, string, seq<string>)> {
    ReadWith(html, Head, Mid1, Mid2)
  }

  predicate NoTag(s: string) { '<' !in s }

  lemma DropPrefix(p: string, s: string)
    ensures StartsWith(p + s, p) && (p + s)[|p|..] == s
  {
    assert (p + s)[..|p|] == p;
  }

  lemma UntilTagAt(x: string, rest: string)
    requires NoTag(x) && rest != [] && rest[0] == '<'
    ensures UntilTag(x + rest) == Some((x, rest))
  {
    var s := x + rest;
    assert s[|x|] == '<' && s[..|x|] == x;
    IndexOfAt(s, '<', |x|);
    assert s[|x|..] == rest;
  }

  lemma ElementAtElement(open: string, u: string, close: string, rest: string)
    requires NoTag(u) && close != [] && close[0] == '<'
    ensures ElementAt(open + u + close + rest, open, close) == Some((u, rest))
  {
    var t := u + (close + rest);
    assert open + u + close + rest == open + t;
    DropPrefix(open, t);
    UntilTagAt(u, close + rest);
    DropPrefix(close, rest);
  }

  lemma ItemAtItem(u: string, rest: string)
    requires NoTag(u)
    ensures ItemAt(Item(u) + rest) == Some((u, rest))
  {
    assert CloseLi[0] == '<';
    ElementAtElement(OpenLi, u, CloseLi, rest);
  }

  lemma ParseItem(u: string, rest: string)
    requires NoTag(u)
    ensures ParseItems(Item(u) + rest) == if ParseItems(rest).Some? then Some([u] + ParseItems(rest).value) else None
  {
    var h := Item(u) + rest;
    ItemAtItem(u, rest);
    assert h[1] == 'l' && Tail[1] == '/';
  }

  lemma {:induction false} ParseUsageItems(usage: seq<string>)
    requires forall i :: 0 <= i < |usage| ==> NoTag(usage[i])
    ensures ParseItems(UsageItems(usage) + Tail) == Some(usage)
    decreases |usage|
  {
    if usage == [] {
      assert UsageItems(usage) + Tail == Tail;
    } else {
      assert UsageItems(usage) + Tail == Item(usage[0]) + (UsageItems(usage[1..]) + Tail);
      ParseItem(usage[0], UsageItems(usage[1..]) + Tail);
      ParseUsageItems(usage[1..]);
      assert [usage[0]] + usage[1..] == usage;
    }
  }

  lemma OriginStep(meaning: string, origin: string, mid2: string, items: string, u: seq<string>)
    requires NoTag(origin) && mid2 != [] && mid2[0] == '<' && ParseItems(items) == Some(u)
    ensures AfterOrigin(meaning, UntilTag(origin + (mid2 + items)), mid2) == Some((meaning, origin, u))
  {
    UntilTagAt(origin, mid2 + items);
    DropPrefix(mid2, items);
  }

  lemma MeaningStep(meaning: string, mid1: string, r2: string, mid2: string)
    requires NoTag(meaning) && mid1 != [] && mid1[0] == '<'
    ensures AfterMeaning(UntilTag(meaning + (mid1 + r2)), mid1, mid2) == AfterOrigin(meaning, UntilTag(r2), mid2)
  {
    UntilTagAt(meaning, mid1 + r2);
    DropPrefix(mid1, r2);
  }

  lemma ReadWithParts(head: string, meaning: string, mid1: string, origin: string, mid2: string, items: string, u: seq<string>)
    requires NoTag(meaning) && NoTag(origin)
    requires mid1 != [] && mid1[0] == '<' && mid2 != [] && mid2[0] == '<'
    requires ParseItems(items) == Some(u)
    ensures ReadWith(head + (meaning + (mid1 + (origin + (mid2 + items)))), head, mid1, mid2) == Some((meaning, origin, u))
  {
    var r2 := origin + (mid2 + items);
    DropPrefix(head, meaning + (mid1 + r2));
    MeaningStep(meaning, mid1, r2, mid2);
    OriginStep(meaning, origin, mid2, items, u);
  }

  /** Meaning, origin and usage entries free of `<` can be read back from the page, in order and one element per usage entry. */
  lemma ContentRoundTrip(s: Sections)
    requires NoTag(s.meaning) && NoTag(s.origin)
    requires forall i :: 0 <= i < |s.usage| ==> NoTag(s.usage[i])
    ensures ReadContent(BuildContentHtml(s)) == Some((s.meaning, s.origin, s.usage))
  {
    ParseUsageItems(s.usage);
    assert Mid1[0] == '<' && Mid2[0] == '<';
    var items := UsageItems(s.usage) + Tail;
    ReadWithParts(Head, s.meaning, Mid1, s.origin, Mid2, items, s.usage);
  }

  // ---- the slug ----

  /** `${slug}-v${i}`. */
  function Versioned(base: string, i: nat): string {
    base + "-v" + Decimal(i)
  }

  lemma VersionedInjective(base: string, i: nat, j: nat)
    requires Versioned(base, i) == Versioned(base, j)
    ensures i == j
  {
    var n := |base| + 2;
    assert Decimal(i) == Versioned(base, i)[n..];
    assert Decimal(j) == Versioned(base, j)[n..];
    RadixInjective(i, j, 10);
  }

  /** `plugin.slugFor?.(item) || `what-does-${plugin.name}-item-mean``. */
  function BaseSlug(pluginName: string, slugFor: Option<string>): (r: string)
    ensures slugFor.Some? && slugFor.value != "" ==> r == slugFor.value
    ensures r != ""
  {
    if slugFor.Some? && slugFor.value != "" then slugFor.value else "what-does-" + pluginName + "-item-mean"
  }

  /** The versioned slugs tried before `-v<i>`. */
  function Tried(base: string, i: nat): set<string> {
    set k | 2 <= k < i :: Versioned(base, k)
  }

  lemma {:induction false} TriedCard(base: string, i: nat)
    requires i >= 2
    ensures |Tried(base, i)| == i - 2
    decreases i
  {
    if i > 2 {
      TriedCard(base, i - 1);
      assert Tried(base, i) == Tried(base, i - 1) + {Versioned(base, i - 1)};
      if Versioned(base, i - 1) in Tried(base, i - 1) {
        var k :| 2 <= k < i - 1 && Versioned(base, k) == Versioned(base, i - 1);
        VersionedInjective(base, k, i - 1);
      }
    } else {
      assert Tried(base, i) == {};
    }
  }

  lemma SubsetCard(a: set<string>, b: set<string>)
    requires a <= b
    ensures |a| <= |b|
  {
    assert b == a + (b - a);
    assert a * (b - a) == {};
  }

  lemma TriedStep(base: string, i: nat, slugs: set<string>)
    requires i >= 2 && Tried(base, i) <= slugs && Versioned(base, i) in slugs
    ensures Tried(base, i + 1) <= slugs && |Tried(base, i + 1)| == i - 1
    ensures i - 2 < |slugs|
  {
    assert Tried(base, i + 1) == Tried(base, i) + {Versioned(base, i)};
    TriedCard(base, i + 1);
    SubsetCard(Tried(base, i + 1), slugs);
  }

  /**
   * The slug the search of lines 38-42 settles on from `-v<i>` up, given the
   * slugs in use: the first free `-v<k>`, or the base slug when a lookup
   * throws first. The tried slugs are in use and distinct, so `i` never
   * passes the number of slugs in use plus one.
   */
  function SearchFrom(slugs: set<string>, base: string, fails: string -> bool, i: nat): string
    requires i >= 2 && Tried(base, i) <= slugs
    decreases |slugs| + 2 - i
  {
    var v := Versioned(base, i);
    if fails(v) then base
    else if v !in slugs then v
    else TriedStep(base, i, slugs); SearchFrom(slugs, base, fails, i + 1)
  }

  /** The slug lines 35-43 settle on: the base when it is free or its lookup throws, else the search from `-v2`. */
  function SlugChoice(slugs: set<string>, base: string, fails: string -> bool): string {
    if fails(base) || base !in slugs then base
    else TriedCard(base, 2); SearchFrom(slugs, base, fails, 2)
  }

  /** Without failing lookups, the search from `-v<i>` takes the least free `-v<k>` with `k >= i`. */
  lemma {:induction false} SearchFromLeast(slugs: set<string>, base: string, fails: string -> bool, i: nat)
    requires i >= 2 && Tried(base, i) <= slugs
    requires forall t :: !fails(t)
    ensures exists k :: (k >= i && SearchFrom(slugs, base, fails, i) == Versioned(base, k) && Versioned(base, k) !in slugs
      && forall j :: i <= j < k ==> Versioned(base, j) in slugs)
    decreases |slugs| + 2 - i
  {
    var v := Versioned(base, i);
    if v in slugs {
      TriedStep(base, i, slugs);
      SearchFromLeast(slugs, base, fails, i + 1);
      var k :| (k >= i + 1 && SearchFrom(slugs, base, fails, i + 1) == Versioned(base, k) && Versioned(base, k) !in slugs
        && forall j :: i + 1 <= j < k ==> Versioned(base, j) in slugs);
      assert SearchFrom(slugs, base, fails, i) == Versioned(base, k);
    } else {
      assert SearchFrom(slugs, base, fails, i) == Versioned(base, i);
    }
  }

  /** A taken `-v<i>` whose lookup succeeds passes the search on to `-v<i+1>`. */
  lemma SearchFromNext(slugs: set<string>, base: string, fails: string -> bool, i: nat)
    requires i >= 2 && Tried(base, i) <= slugs
    requires !fails(Versioned(base, i)) && Versioned(base, i) in slugs
    ensures Tried(base, i + 1) <= slugs && |Tried(base, i + 1)| == i - 1 && i - 2 < |slugs|
    ensures SearchFrom(slugs, base, fails, i + 1) == SearchFrom(slugs, base, fails, i)
  {
    TriedStep(base, i, slugs);
  }

  /** The search ends at `-v<i>` when its lookup throws or it is free. */
  lemma SearchFromStop(slugs: set<string>, base: string, fails: string -> bool, i: nat)
    requires i >= 2 && Tried(base, i) <= slugs
    requires fails(Versioned(base, i)) || Versioned(base, i) !in slugs
    ensures SearchFrom(slugs, base, fails, i) == if fails(Versioned(base, i)) then base else Versioned(base, i)
  {
  }

  /**
   * The collision rule when no lookup throws: a free base slug is kept, and
   * a taken one gives way to the least `-v<k>`, `k >= 2`, no post has.
   */
  lemma SlugChoiceLeast(slugs: set<string>, base: string, fails: string -> bool)
    requires forall t :: !fails(t)
    ensures base !in slugs ==> SlugChoice(slugs, base, fails) == base
    ensures base in slugs ==> exists k :: (k >= 2 && SlugChoice(slugs, base, fails) == Versioned(base, k) && Versioned(base, k) !in slugs
      && forall j :: 2 <= j < k ==> Versioned(base, j) in slugs)
  {
    if base in slugs {
      TriedCard(base, 2);
      SearchFromLeast(slugs, base, fails, 2);
    }
  }

  /**
   * Lines 35-43: a base slug no post has (or whose lookup throws) is kept;
   * otherwise `-v2`, `-v3`, ... are tried and the first one no post has is
   * taken. A lookup that throws on the way leaves the base slug. `stop` is 0
   * when the base was kept after its own lookup, else the last `i` tried.
   */
  method ResolveSlug(db: Db, base: string, fails: string -> bool) returns (slug: string, ghost stop: nat)
    ensures slug == SlugChoice(db.Slugs(), base, fails)
    ensures slug == base || (!db.HasSlug(slug) && exists k :: k >= 2 && slug == Versioned(base, k))
    ensures stop == 0 <==> fails(base) || !db.HasSlug(base)
    ensures stop == 0 ==> slug == base
    ensures stop != 0 ==> stop >= 2 && forall k :: 2 <= k < stop ==> db.HasSlug(Versioned(base, k)) && !fails(Versioned(base, k))
    ensures stop != 0 && !fails(Versioned(base, stop)) ==> slug == Versioned(base, stop) && !db.HasSlug(slug)
    ensures stop != 0 && fails(Versioned(base, stop)) ==> slug == base
  {
    slug, stop := base, 0;
    if !fails(base) && db.HasSlug(base) {
      var i := 2;
      ghost var slugs := db.Slugs();
      TriedCard(base, 2);
      assert SearchFrom(slugs, base, fails, 2) == SlugChoice(slugs, base, fails);
      while !fails(Versioned(base, i)) && db.HasSlug(Versioned(base, i))
        invariant i >= 2
        invariant forall k :: 2 <= k < i ==> !fails(Versioned(base, k))
        invariant Tried(base, i) <= slugs && |Tried(base, i)| == i - 2
        invariant SearchFrom(slugs, base, fails, i) == SlugChoice(slugs, base, fails)
        decreases |slugs| + 2 - i
      {
        assert Versioned(base, i) in slugs;
        SearchFromNext(slugs, base, fails, i);
        i := i + 1;
      }
      SearchFromStop(slugs, base, fails, i);
      forall k | 2 <= k < i
        ensures db.HasSlug(Versioned(base, k))
      {
        assert Versioned(base, k) in Tried(base, i);
      }
      stop := i;
      if !fails(Versioned(base, i)) {
        slug := Versioned(base, i);
      }
    }
  }

  // ---- drafting ----

  datatype Prompt = Prompt(system: string, user: string)

  /** The argument of `llm.draftExplainer`, its fields as the parsed prompt holds them. */
  datatype Request = Request(term: Json, snippets: Json, language: Json)

  /** The language model: `draftExplainerFromPrompt` when it has one, and `draftExplainer`; an `Err` is a thrown error. */
  datatype Llm = Llm(fromPrompt: Option<Prompt -> Result<DraftExplainer, string>>, explain: Request -> Result<DraftExplainer, string>)

  datatype Plugin = Plugin(name: string, buildPrompt: SourceItem -> Prompt, slugFor: Option<SourceItem -> string>)

  /** The request made from the item alone. */
  function DefaultRequest(item: SourceItem): Request {
    Request(JStr(item.term), JArr([JStr(item.text)]), JStr("en"))
  }

  /** `x ?? d`. */
  function Coalesce(o: Option<Json>, d: Json): (r: Json)
    ensures Nullish(o) ==> r == d
    ensures !Nullish(o) ==> r == o.value
  {
    if Nullish(o) then d else o.value
  }

  /** The request read from the parsed prompt `u`; `None` when reading its fields throws (`u` is null). */
  function RequestOf(u: Json, item: SourceItem): (r: Option<Request>)
    ensures u.JNull? <==> r.None?
    ensures !u.JObj? && !u.JNull? ==> r == Some(DefaultRequest(item))
  {
    match u
    case JNull => None
    case JObj(f) =>
      Some(Request(Coalesce(Field(f, "term"), JStr(item.term)),
                   Coalesce(Field(f, "snippets"), JArr([JStr(item.text)])),
                   Coalesce(Field(f, "language"), JStr("en"))))
    case _ => Some(DefaultRequest(item))
  }

  /**
   * Lines 23-32: `draftExplainerFromPrompt` when the model has it; otherwise
   * `draftExplainer` with the parsed prompt's fields, and if parsing, reading
   * or that call throws, once more with the item's own fields.
   */
  function DraftFor(llm: Llm, prompt: Prompt, item: SourceItem, parse: string -> Option<Json>): (r: Result<DraftExplainer, string>)
    ensures llm.fromPrompt.Some? ==> r == llm.fromPrompt.value(prompt)
    ensures llm.fromPrompt.None? && parse(prompt.user).None? ==> r == llm.explain(DefaultRequest(item))
  {
    if llm.fromPrompt.Some? then llm.fromPrompt.value(prompt)
    else
      var parsed := parse(prompt.user);
      var req := if parsed.Some? then RequestOf(parsed.value, item) else None;
      if req.Some? && llm.explain(req.value).Ok? then llm.explain(req.value) else llm.explain(DefaultRequest(item))
  }

  /** A prompt holding term, snippets and language is passed on field for field. */
  lemma DraftFromPromptFields(llm: Llm, prompt: Prompt, item: SourceItem, parse: string -> Option<Json>, f: map<string, Json>)
    requires llm.fromPrompt.None? && parse(prompt.user) == Some(JObj(f))
    requires "term" in f && "snippets" in f && "language" in f
    requires !f["term"].JNull? && !f["snippets"].JNull? && !f["language"].JNull?
    requires llm.explain(Request(f["term"], f["snippets"], f["language"])).Ok?
    ensures DraftFor(llm, prompt, item, parse) == llm.explain(Request(f["term"], f["snippets"], f["language"]))
  {
  }

  /** When the first `draftExplainer` call throws, the item's own fields are used, whatever the prompt held. */
  lemma DraftRetriesWithItem(llm: Llm, prompt: Prompt, item: SourceItem, parse: string -> Option<Json>)
    requires llm.fromPrompt.None?
    requires forall q :: q != DefaultRequest(item) ==> llm.explain(q).Err?
    ensures DraftFor(llm, prompt, item, parse) == llm.explain(DefaultRequest(item))
  {
  }

  /** The post `generateOne` stores for `item` once its draft, slug and card key are known. */
  function DraftPost(id: string, plugin: Plugin, slug: string, d: DraftExplainer, key: string): Post {
    Post(id, plugin.name, slug, d.title, d.summary, BuildContentHtml(d.sections), Some(key), false)
  }

  /** Line 35 for `item`. */
  function BaseSlugFor(plugin: Plugin, item: SourceItem): string {
    BaseSlug(plugin.name, if plugin.slugFor.Some? then Some(plugin.slugFor.value(item)) else None)
  }

  /**
   * `generateOne`: nothing happens without a queued item; a draft or render
   * failure is thrown before anything is stored; otherwise exactly one draft
   * post is created, in the plugin's niche, with the renderer's key, and its
   * slug is returned.
   */
  method GenerateOne(db: Db, plugin: Plugin, llm: Llm, render: (string, string, string) -> Result<string, string>,
                     parse: string -> Option<Json>, fails: string -> bool, newId: string)
    returns (r: Result<Option<string>, string>, ghost slug: string)
    modifies db
    ensures db.items == old(db.items)
    ensures old(db.TopForDraft(plugin.name)).None? ==> r == Ok(None)
    ensures old(db.TopForDraft(plugin.name)).Some? && r.Ok? ==> r.value.Some?
    ensures !(r.Ok? && r.value.Some?) ==> db.posts == old(db.posts)
    ensures r.Ok? && r.value.Some? ==>
      var item := old(db.TopForDraft(plugin.name)).value;
      var draft := DraftFor(llm, plugin.buildPrompt(item), item, parse);
      && draft.Ok? && render(draft.value.title, draft.value.summary, slug).Ok?
      && db.posts == old(db.posts) + [DraftPost(newId, plugin, slug, draft.value, render(draft.value.title, draft.value.summary, slug).value)]
    ensures r.Ok? && r.value.Some? ==>
      var base := BaseSlugFor(plugin, old(db.TopForDraft(plugin.name)).value);
      r.value.value == base || exists i :: i >= 2 && r.value.value == Versioned(base, i) && !old(db.HasSlug(Versioned(base, i)))
    ensures (forall s :: !fails(s)) && r.Ok? && r.value.Some? ==> !old(db.HasSlug(r.value.value))
    ensures r.Ok? && r.value.Some? ==> r.value.value == slug
    ensures r.Ok? && r.value.Some? ==>
      r.value.value == SlugChoice(old(db.Slugs()), BaseSlugFor(plugin, old(db.TopForDraft(plugin.name)).value), fails)
    ensures old(db.TopForDraft(plugin.name)).Some? ==>
      var item := old(db.TopForDraft(plugin.name)).value;
      var draft := DraftFor(llm, plugin.buildPrompt(item), item, parse);
      && (draft.Err? ==> r == Err(draft.error))
      && (draft.Ok? ==> (r.Err? <==> render(draft.value.title, draft.value.summary, slug).Err?))
  {
    var top := db.TopForDraft(plugin.name);
    slug := "";
    if top.None? {
      return Ok(None), slug;
    }
    var item := top.value;
    var draft := DraftFor(llm, plugin.buildPrompt(item), item, parse);
    if draft.Err? {
      return Err(draft.error), slug;
    }
    var d := draft.value;
    var chosen, stop := ResolveSlug(db, BaseSlugFor(plugin, item), fails);
    slug := chosen;
    var key := render(d.title, d.summary, chosen);
    if key.Err? {
      return Err(key.error), slug;
    }
    var created := db.CreateDraftPost(DraftPost(newId, plugin, chosen, d, key.value));
    return Ok(Some(created)), slug;
  }
}
