/**
 * `processOnce` of the admin task worker (apps/worker/tasks-watch.ts): each
 * line of the admin log asks for an ingest, a number of drafts, publishing the
 * top drafts or a distribution run. A task whose id is not yet in the ledger
 * is dispatched, and it is marked only when its handler completes without
 * throwing; the ledger is written back once at the end. The log's text,
 * `JSON.parse` of a line, the emoji plugin's `discover`, the item schema and
 * the generation collaborators are parameters.
 */
module TasksWatch {
  import opened Wrappers
  import opened JsText
  import opened Types
  import opened Files
  import opened Ports
  import opened OpenAi
  import opened Seqs
  import opened IngestUtils
  import opened Generate
  import opened Distribute
  import DE = DistributeEvents

  const StateFile: string := "events/tasks_processed.json"
  const DefaultLimit: real := 10.0
  const DefaultCount: real := 1.0

  /** `JSON.parse(line)`: it throws, gives a falsy value, or gives a task with its `type` and `payload` as read. */
  datatype TaskLine = Unparsable | Falsy | Task(id: string, kind: Option<Json>, payload: Option<Json>)

  // ---- reading a task ----

  /** `(task.type || '').toString()`. */
  function KindOf(kind: Option<Json>): (r: string)
    ensures !Truthy(kind) ==> r == ""
    ensures kind.Some? && kind.value.JStr? ==> r == kind.value.s
  {
    if Truthy(kind) then ToStr(kind.value) else ""
  }

  /** `task.payload || {}`. */
  function PayloadOf(payload: Option<Json>): (r: Json)
    ensures Truthy(payload) ==> r == payload.value
    ensures !Truthy(payload) ==> r == JObj(map[])
  {
    if Truthy(payload) then payload.value else JObj(map[])
  }

  /** `p.<key>`: only an object has the payload's properties. */
  function Prop(p: Json, key: string): (r: Option<Json>)
    ensures r.Some? <==> p.JObj? && key in p.fields
    ensures r.Some? ==> r.value == p.fields[key]
  {
    if p.JObj? then Field(p.fields, key) else None
  }

  /** `Number(v)`: `null` is 0, booleans are 0 and 1, anything else is converted through its text. */
  function NumberOfJson(v: Json): (r: JsNumber)
    ensures v.JStr? ==> r == NumberOf(v.s)
    ensures v.JNum? ==> r == NumberOf(v.repr)
  {
    match v
    case JNull => Num(0.0)
    case JBool(b) => Num(if b then 1.0 else 0.0)
    case _ => NumberOf(ToStr(v))
  }

  /** A JSON number or string holding a plain decimal converts to that number. */
  lemma NumberOfJsonDecimal(n: nat)
    ensures NumberOfJson(JNum(Decimal(n))) == Num(n as real)
    ensures NumberOfJson(JStr(Decimal(n))) == Num(n as real)
  {
    NumberOfDecimal(n);
  }

  /** `Number(o || d)`. */
  function NumberOr(o: Option<Json>, d: real): (r: JsNumber)
    ensures Truthy(o) ==> r == NumberOfJson(o.value)
    ensures !Truthy(o) ==> r == Num(d)
  {
    if Truthy(o) then NumberOfJson(o.value) else Num(d)
  }

  /** `Math.max(1, n)`. */
  function Max1(n: JsNumber): (r: JsNumber)
    ensures n.NaN? <==> r.NaN?
    ensures n.Num? ==> r.v >= 1.0 && (r.v == n.v || (n.v < 1.0 && r.v == 1.0))
  {
    match n
    case NaN => NaN
    case Num(v) => Num(if v < 1.0 then 1.0 else v)
  }

  /** The least integer at or above `v`. */
  function Ceil(v: real): (c: int)
    ensures c as real >= v && (c - 1) as real < v
  {
    if v.Floor as real == v then v.Floor else v.Floor + 1
  }

  /** How often `for (let i = 0; i < n; i++)` runs its body: the least count not below `n`. */
  function Iterations(n: JsNumber): (r: nat)
    ensures n.NaN? ==> r == 0
    ensures n.Num? ==> (r as real) >= n.v
    ensures n.Num? && r > 0 ==> ((r - 1) as real) < n.v
    ensures n.Num? && n.v <= 0.0 ==> r == 0
  {
    match n
    case NaN => 0
    case Num(v) => if v <= 0.0 then 0 else Ceil(v)
  }

  /** The `end` that `slice(0, n)` uses: NaN is 0, anything else is truncated toward zero. */
  function SliceEnd(n: JsNumber): (e: int)
    ensures n.NaN? ==> e == 0
    ensures n.Num? && n.v >= 0.0 ==> e as real <= n.v < (e + 1) as real
  {
    match n
    case NaN => 0
    case Num(v) => if v >= 0.0 then v.Floor else -((-v).Floor)
  }

  /** `Number(p.limit || 10)`. */
  function IngestLimit(p: Json): JsNumber {
    NumberOr(Prop(p, "limit"), DefaultLimit)
  }

  /** `Math.max(1, Number(p.count || 1))`. */
  function GenerateCount(p: Json): JsNumber {
    Max1(NumberOr(Prop(p, "count"), DefaultCount))
  }

  /** `Math.max(1, Number(p.limit || 1))`. */
  function PublishLimit(p: Json): JsNumber {
    Max1(NumberOr(Prop(p, "limit"), DefaultCount))
  }

  /** `Math.max(1, Number(p.since || process.env.DISTRIBUTE_SINCE_MINUTES || 1440))`. */
  function DistributeSince(p: Json, env: Option<string>): JsNumber {
    var since := Prop(p, "since");
    Max1(if Truthy(since) then NumberOfJson(since.value)
         else if env.Some? && env.value != "" then NumberOf(env.value)
         else Num(DefaultSince))
  }

  /** An empty payload ingests 10 items, generates once, publishes one draft and distributes the last day. */
  lemma EmptyPayloadDefaults(env: Option<string>)
    requires env.None? || env.value == ""
    ensures IngestLimit(JObj(map[])) == Num(10.0)
    ensures Iterations(GenerateCount(JObj(map[]))) == 1
    ensures SliceEnd(PublishLimit(JObj(map[]))) == 1
    ensures DistributeSince(JObj(map[]), env) == Num(1440.0)
  {
  }

  /** A numeric `count` of `n` drafts `n` times, and at least once. */
  lemma GenerateRuns(p: Json, n: nat)
    requires Prop(p, "count") == Some(JNum(Decimal(n)))
    ensures Iterations(GenerateCount(p)) == if n < 1 then 1 else n
  {
    NumberOfJsonDecimal(n);
    if n == 0 {
      assert Decimal(0) == "0";
    } else {
      RadixDigits(n);
      assert Decimal(n) != "0" by {
        if Decimal(n) == "0" {
          NumberOfDecimal(0);
        }
      }
    }
  }

  /** A numeric `limit` of `n` publishes the first `n` drafts, and at least one. */
  lemma PublishCount(p: Json, n: nat)
    requires Prop(p, "limit") == Some(JNum(Decimal(n)))
    ensures SliceEnd(PublishLimit(p)) == if n < 1 then 1 else n
  {
    NumberOfJsonDecimal(n);
    if n == 0 {
      assert Decimal(0) == "0";
    } else {
      assert Decimal(n) != "0" by {
        if Decimal(n) == "0" {
          NumberOfDecimal(0);
        }
      }
    }
  }

  // ---- the handlers ----

  /** What a task's handler may use; an `Err` or `None` is a thrown error. */
  datatype Services = Services(
    discover: (JsNumber, bool) -> Result<seq<SourceItem>, string>,
    schema: SourceItem -> Option<SourceItem>,
    plugin: Plugin, llm: Llm, render: (string, string, string) -> Result<string, string>,
    parse: string -> Option<Json>, fails: string -> bool, mint: nat -> string,
    listing: (seq<Post>, JsNumber) -> seq<Post>,
    sinceEnv: Option<string>, originEnv: Option<string>)

  /** The items an ingest stores: the valid first item of each id, or the failure that throws. */
  function Ingested(found: Result<seq<SourceItem>, string>, schema: SourceItem -> Option<SourceItem>): Option<seq<SourceItem>> {
    if found.Err? then None
    else
      var v := ValidatedOf(FirstsBy(found.value, IdOf), schema);
      if v.Ok? then Some(v.value) else None
  }

  /** Lines 40-47: discover, dedupe, validate and upsert. */
  method Ingest(db: Db, s: Services, p: Json) returns (ok: bool)
    modifies db
    ensures var batch := Ingested(s.discover(IngestLimit(p), Truthy(Prop(p, "live"))), s.schema);
      && (ok <==> batch.Some?)
      && (ok ==> db.items == UpsertAll(old(db.items), batch.value))
      && (!ok ==> db.items == old(db.items))
    ensures db.posts == old(db.posts)
  {
    var found := s.discover(IngestLimit(p), Truthy(Prop(p, "live")));
    if found.Err? {
      return false;
    }
    var unique := Dedupe(found.value);
    var valid := ValidateItems(unique, s.schema);
    if valid.Err? {
      return false;
    }
    db.UpsertSourceItems(valid.value);
    ok := true;
  }

  /**
   * Lines 48-54: up to `count` calls of `generateOne`, stopping at the first
   * `null`; an error stops the loop and fails that task. `made` drafts were
   * stored, each a draft of the plugin's niche.
   */
  method GenerateMany(db: Db, s: Services, count: nat) returns (ok: bool, ghost made: nat)
    modifies db
    ensures db.items == old(db.items)
    ensures made <= count && |db.posts| == |old(db.posts)| + made && db.posts[..|old(db.posts)|] == old(db.posts)
    ensures forall k :: |old(db.posts)| <= k < |db.posts| ==> db.posts[k].niche == s.plugin.name && !db.posts[k].published
    ensures TopOf(old(db.items), s.plugin.name).None? ==> ok && made == 0
    ensures TopOf(old(db.items), s.plugin.name).Some? && ok ==> made == count
    ensures !ok ==> made < count && TopOf(old(db.items), s.plugin.name).Some?
  {
    ok, made := true, 0;
    var i := 0;
    while i < count
      invariant 0 <= i <= count && made == i
      invariant db.items == old(db.items)
      invariant |db.posts| == |old(db.posts)| + made && db.posts[..|old(db.posts)|] == old(db.posts)
      invariant forall k :: |old(db.posts)| <= k < |db.posts| ==> db.posts[k].niche == s.plugin.name && !db.posts[k].published
      invariant TopOf(old(db.items), s.plugin.name).None? ==> made == 0
    {
      ghost var before := db.posts;
      var r, slug := GenerateOne(db, s.plugin, s.llm, s.render, s.parse, s.fails, s.mint(|db.posts|));
      if r.Err? {
        ok := false;
        return;
      }
      if r.value.None? {
        return;
      }
      assert db.posts[..|before|] == before;
      assert db.posts[..|old(db.posts)|] == before[..|old(db.posts)|];
      i := i + 1;
      made := made + 1;
    }
  }

  /** The posts after `publishPost` of each id in turn. */
  function PublishAll(posts: seq<Post>, ids: seq<string>): (r: seq<Post>)
    ensures |r| == |posts|
    decreases |ids|
  {
    if ids == [] then posts else Published(PublishAll(posts, ids[..|ids| - 1]), ids[|ids| - 1])
  }

  /** After publishing a list of ids, a post with one of them is published, and every other post is as it was. */
  lemma {:induction false} PublishAllFacts(posts: seq<Post>, ids: seq<string>, k: nat)
    requires k < |posts|
    ensures posts[k].id in ids ==> PublishAll(posts, ids)[k].published
    ensures PublishAll(posts, ids)[k].(published := posts[k].published) == posts[k]
    ensures posts[k].id !in ids ==> PublishAll(posts, ids)[k] == posts[k]
    decreases |ids|
  {
    if ids != [] {
      var init := ids[..|ids| - 1];
      PublishAllFacts(posts, init, k);
      PublishFacts(PublishAll(posts, init), ids[|ids| - 1], k);
      assert ids == init + [ids[|ids| - 1]];
    }
  }

  function IdsOf(posts: seq<Post>): (r: seq<string>)
    ensures |r| == |posts| && forall i :: 0 <= i < |posts| ==> r[i] == posts[i].id
  {
    seq(|posts|, i requires 0 <= i < |posts| => posts[i].id)
  }

  /** The drafts `publishTop` publishes: the first `limit` of the listing. */
  function TopDrafts(posts: seq<Post>, p: Json): seq<Post> {
    SliceTo(Drafts(posts), SliceEnd(PublishLimit(p)))
  }

  lemma PublishAllSnoc(posts: seq<Post>, ids: seq<string>, i: nat)
    requires i < |ids|
    ensures PublishAll(posts, ids[..i + 1]) == Published(PublishAll(posts, ids[..i]), ids[i])
  {
    assert ids[..i + 1][..i] == ids[..i];
  }

  /** Lines 55-58. */
  method PublishTop(db: Db, p: Json)
    modifies db
    ensures db.posts == PublishAll(old(db.posts), IdsOf(TopDrafts(old(db.posts), p)))
    ensures db.items == old(db.items)
  {
    var chosen := TopDrafts(db.posts, p);
    PublishLoop(db, IdsOf(chosen));
  }

  /** `publishPost` of each id in turn. */
  method PublishLoop(db: Db, ids: seq<string>)
    modifies db
    ensures db.posts == PublishAll(old(db.posts), ids)
    ensures db.items == old(db.items)
  {
    for i := 0 to |ids|
      invariant db.posts == PublishAll(old(db.posts), ids[..i]) && db.items == old(db.items)
    {
      PublishAllSnoc(old(db.posts), ids, i);
      db.PublishPost(ids[i]);
    }
    assert ids[..|ids|] == ids;
  }

  /** Whether a task type has a handler. */
  predicate Known(kind: string) {
    kind == "ingest" || kind == "generate" || kind == "publishTop" || kind == "distributeRecent"
  }

  /** What the worker's handlers read and change: the stored items and posts, and the posts planned for distribution. */
  datatype World = World(items: seq<SourceItem>, posts: seq<Post>, planned: seq<Plan>)

  /**
   * `count` runs of `generateOne` took the world from `a` to `b`: only posts
   * were added, each a draft of the plugin's niche, `count` of them unless
   * it threw (`!ok`) or the niche has no item (nothing added, no error).
   */
  predicate Generated(s: Services, count: nat, a: World, b: World, ok: bool) {
    && b.items == a.items && b.planned == a.planned
    && |a.posts| <= |b.posts| <= |a.posts| + count && b.posts[..|a.posts|] == a.posts
    && (forall k :: |a.posts| <= k < |b.posts| ==> b.posts[k].niche == s.plugin.name && !b.posts[k].published)
    && (TopOf(a.items, s.plugin.name).None? ==> ok && b.posts == a.posts)
    && (TopOf(a.items, s.plugin.name).Some? && ok ==> |b.posts| == |a.posts| + count)
    && (!ok ==> |b.posts| < |a.posts| + count)
  }

  /**
   * Lines 39-68: the handler of a task of type `kind` with payload `p` took
   * the world from `a` to `b`, and `ok` is false exactly when it threw. An
   * ingest stores the validated batch or nothing; a generate adds drafts;
   * publishTop publishes the first drafts; distributeRecent plans the
   * listed posts; an unknown type changes nothing.
   */
  predicate Handled(s: Services, kind: string, p: Json, a: World, b: World, ok: bool) {
    && (kind == "ingest" ==>
          var batch := Ingested(s.discover(IngestLimit(p), Truthy(Prop(p, "live"))), s.schema);
          && b.posts == a.posts && b.planned == a.planned
          && (ok <==> batch.Some?)
          && b.items == (if ok then UpsertAll(a.items, batch.value) else a.items))
    && (kind == "generate" ==> Generated(s, Iterations(GenerateCount(p)), a, b, ok))
    && (kind == "publishTop" ==> ok && b == a.(posts := PublishAll(a.posts, IdsOf(TopDrafts(a.posts, p)))))
    && (kind == "distributeRecent" ==>
          ok && b == a.(planned := a.planned + Plans(s.listing(a.posts, DistributeSince(p, s.sinceEnv)), DE.OriginOf(s.originEnv), DefaultPlatform)))
    && (!Known(kind) ==> ok && b == a)
  }

  /** Lines 39-68 for one task: `ok` is false when the handler throws. */
  method Dispatch(db: Db, poster: Poster, s: Services, kind: string, p: Json) returns (ok: bool)
    modifies db, poster
    ensures Handled(s, kind, p, World(old(db.items), old(db.posts), old(poster.planned)), World(db.items, db.posts, poster.planned), ok)
  {
    ok := true;
    if kind == "ingest" {
      ok := Ingest(db, s, p);
    } else if kind == "generate" {
      ghost var made;
      ok, made := GenerateMany(db, s, Iterations(GenerateCount(p)));
    } else if kind == "publishTop" {
      PublishTop(db, p);
    } else if kind == "distributeRecent" {
      var slugs := DistributeRecent(db, poster, s.listing, DE.OriginOf(s.originEnv), Some(DistributeSince(p, s.sinceEnv)), s.sinceEnv, Some(DefaultPlatform));
    }
  }

  // ---- the ledger ----

  /** One line: a task not yet marked is marked when its handler succeeded. */
  function Mark(processed: map<string, bool>, t: TaskLine, ok: bool): map<string, bool> {
    if t.Task? && !DE.Marked(processed, t.id) && ok then processed[t.id := true] else processed
  }

  /** The ledger after the loop of lines 33-69, `oks[i]` telling whether line `i`'s handler succeeded. */
  function LedgerOf(processed: map<string, bool>, tasks: seq<TaskLine>, oks: seq<bool>): map<string, bool>
    requires |oks| == |tasks|
    decreases |tasks|
  {
    if tasks == [] then processed
    else Mark(LedgerOf(processed, tasks[..|tasks| - 1], oks[..|oks| - 1]), tasks[|tasks| - 1], oks[|oks| - 1])
  }

  /** Some line is a task with this id whose handler succeeded. */
  predicate Succeeded(tasks: seq<TaskLine>, oks: seq<bool>, id: string)
    requires |oks| == |tasks|
  {
    exists i :: 0 <= i < |tasks| && tasks[i].Task? && tasks[i].id == id && oks[i]
  }

  lemma SucceededSnoc(tasks: seq<TaskLine>, oks: seq<bool>, id: string)
    requires |oks| == |tasks| && tasks != []
    ensures Succeeded(tasks, oks, id) <==>
      Succeeded(tasks[..|tasks| - 1], oks[..|oks| - 1], id) || (tasks[|tasks| - 1].Task? && tasks[|tasks| - 1].id == id && oks[|oks| - 1])
  {
    var ts, os := tasks[..|tasks| - 1], oks[..|oks| - 1];
    if Succeeded(tasks, oks, id) {
      var i :| 0 <= i < |tasks| && tasks[i].Task? && tasks[i].id == id && oks[i];
      if i < |ts| {
        assert ts[i] == tasks[i] && os[i] == oks[i];
      }
    }
    if Succeeded(ts, os, id) {
      var i :| 0 <= i < |ts| && ts[i].Task? && ts[i].id == id && os[i];
      assert tasks[i] == ts[i] && oks[i] == os[i];
    }
  }

  /**
   * An id is marked after the run exactly when it was marked before or some
   * task with that id succeeded: failing tasks stay unmarked for the next
   * run, and no other key appears.
   */
  lemma {:induction false} LedgerMarks(processed: map<string, bool>, tasks: seq<TaskLine>, oks: seq<bool>, id: string)
    requires |oks| == |tasks|
    ensures DE.Marked(LedgerOf(processed, tasks, oks), id) <==> DE.Marked(processed, id) || Succeeded(tasks, oks, id)
    ensures id in LedgerOf(processed, tasks, oks) ==> id in processed || Succeeded(tasks, oks, id)
    decreases |tasks|
  {
    if tasks != [] {
      LedgerMarks(processed, tasks[..|tasks| - 1], oks[..|oks| - 1], id);
      SucceededSnoc(tasks, oks, id);
    }
  }

  /** The ledger only gains entries: a key stays, and a marked key stays marked. */
  lemma {:induction false} LedgerGrows(processed: map<string, bool>, tasks: seq<TaskLine>, oks: seq<bool>, id: string)
    requires |oks| == |tasks|
    ensures id in processed ==> id in LedgerOf(processed, tasks, oks)
    ensures id in processed ==> LedgerOf(processed, tasks, oks)[id] == (processed[id] || Succeeded(tasks, oks, id))
    decreases |tasks|
  {
    LedgerMarks(processed, tasks, oks, id);
    if tasks != [] {
      LedgerGrows(processed, tasks[..|tasks| - 1], oks[..|oks| - 1], id);
    }
  }

  lemma LedgerSnoc(processed: map<string, bool>, tasks: seq<TaskLine>, oks: seq<bool>, t: TaskLine, ok: bool)
    requires |oks| == |tasks|
    ensures LedgerOf(processed, tasks + [t], oks + [ok]) == Mark(LedgerOf(processed, tasks, oks), t, ok)
  {
    assert (tasks + [t])[..|tasks|] == tasks && (oks + [ok])[..|oks|] == oks;
  }

  function ParseTasks(lines: seq<string>, parse: string -> TaskLine): (r: seq<TaskLine>)
    ensures |r| == |lines| && forall i :: 0 <= i < |lines| ==> r[i] == parse(lines[i])
  {
    seq(|lines|, i requires 0 <= i < |lines| => parse(lines[i]))
  }

  /** `readProcessed`: the saved ledger, or `{}` when it is missing or does not parse. */
  function ProcessedOf(docs: map<string, Doc<map<string, bool>>>): map<string, bool> {
    ReadJson(docs, StateFile).GetOr(map[])
  }

  /** A task that reaches its handler and cannot fail: an unknown type, publishTop or distributeRecent. */
  predicate MustSucceed(t: TaskLine) {
    t.Task? && var kind := KindOf(t.kind); !Known(kind) || kind == "publishTop" || kind == "distributeRecent"
  }

  /** Lines 35-36: a line that does not parse, parses to a falsy value, or holds a task already marked is skipped. */
  predicate Skipped(processed: map<string, bool>, t: TaskLine) {
    !t.Task? || DE.Marked(processed, t.id)
  }

  /** One line took the world from `a` to `b`: a skipped line changes nothing, any other ran its task's handler. */
  predicate LineStep(s: Services, processed: map<string, bool>, t: TaskLine, a: World, b: World, ok: bool) {
    if Skipped(processed, t) then ok && b == a
    else Handled(s, KindOf(t.kind), PayloadOf(t.payload), a, b, ok)
  }

  /** What one line may do, given the ledger before it: the world before and after it, and whether its handler succeeded. */
  type StepRel = (map<string, bool>, TaskLine, World, World, bool) -> bool

  /** The worker's lines, with the services `s`, step by LineStep. */
  function StepOf(s: Services): StepRel {
    (l, t, a, b, ok) => LineStep(s, l, t, a, b, ok)
  }

  /**
   * A run over `tasks` in which every line steps by `step`: `ledgers[i]` and
   * `worlds[i]` are the ledger and the world before line `i`, `oks[i]`
   * whether its handler succeeded, and each line marks the ledger as Mark
   * says.
   */
  predicate Run(step: StepRel, tasks: seq<TaskLine>, oks: seq<bool>, ledgers: seq<map<string, bool>>, worlds: seq<World>) {
    && |oks| == |tasks| && |ledgers| == |tasks| + 1 && |worlds| == |tasks| + 1
    && forall i :: 0 <= i < |tasks| ==>
         ledgers[i + 1] == Mark(ledgers[i], tasks[i], oks[i]) && step(ledgers[i], tasks[i], worlds[i], worlds[i + 1], oks[i])
  }

  lemma RunSnoc(step: StepRel, tasks: seq<TaskLine>, oks: seq<bool>, ledgers: seq<map<string, bool>>, worlds: seq<World>,
                t: TaskLine, ok: bool, l: map<string, bool>, w: World)
    requires Run(step, tasks, oks, ledgers, worlds)
    requires l == Mark(ledgers[|tasks|], t, ok) && step(ledgers[|tasks|], t, worlds[|tasks|], w, ok)
    ensures Run(step, tasks + [t], oks + [ok], ledgers + [l], worlds + [w])
  {
    var ts, os, ls, ws := tasks + [t], oks + [ok], ledgers + [l], worlds + [w];
    forall i | 0 <= i < |ts|
      ensures ls[i + 1] == Mark(ls[i], ts[i], os[i]) && step(ls[i], ts[i], ws[i], ws[i + 1], os[i])
    {
      if i < |tasks| {
        assert ts[i] == tasks[i] && os[i] == oks[i] && ls[i] == ledgers[i] && ls[i + 1] == ledgers[i + 1];
        assert ws[i] == worlds[i] && ws[i + 1] == worlds[i + 1];
      } else {
        assert ts[i] == t && os[i] == ok && ls[i] == ledgers[|tasks|] && ls[i + 1] == l;
        assert ws[i] == worlds[|tasks|] && ws[i + 1] == w;
      }
    }
  }

  /** The ledger a run reaches after `k` lines is LedgerOf those lines. */
  lemma {:induction false} RunLedger(step: StepRel, tasks: seq<TaskLine>, oks: seq<bool>, ledgers: seq<map<string, bool>>,
                                     worlds: seq<World>, k: nat)
    requires Run(step, tasks, oks, ledgers, worlds) && k <= |tasks|
    ensures ledgers[k] == LedgerOf(ledgers[0], tasks[..k], oks[..k])
    decreases k
  {
    if k > 0 {
      RunLedger(step, tasks, oks, ledgers, worlds, k - 1);
      assert tasks[..k][..k - 1] == tasks[..k - 1] && oks[..k][..k - 1] == oks[..k - 1];
    }
  }

  /** Line `i` of a run of the worker steps by LineStep. */
  lemma RunAt(s: Services, tasks: seq<TaskLine>, oks: seq<bool>, ledgers: seq<map<string, bool>>, worlds: seq<World>, i: nat)
    requires Run(StepOf(s), tasks, oks, ledgers, worlds) && i < |tasks|
    ensures LineStep(s, ledgers[i], tasks[i], worlds[i], worlds[i + 1], oks[i])
  {
    assert StepOf(s)(ledgers[i], tasks[i], worlds[i], worlds[i + 1], oks[i]);
  }

  /** In a run of the worker, every line that must succeed did. */
  lemma RunMustSucceed(s: Services, tasks: seq<TaskLine>, oks: seq<bool>, ledgers: seq<map<string, bool>>, worlds: seq<World>)
    requires Run(StepOf(s), tasks, oks, ledgers, worlds)
    ensures forall i :: 0 <= i < |tasks| && MustSucceed(tasks[i]) ==> oks[i]
  {
    forall i | 0 <= i < |tasks| && MustSucceed(tasks[i])
      ensures oks[i]
    {
      RunAt(s, tasks, oks, ledgers, worlds, i);
      MustStep(s, ledgers[i], tasks[i], worlds[i], worlds[i + 1], oks[i]);
    }
  }

  lemma MustStep(s: Services, l: map<string, bool>, t: TaskLine, a: World, b: World, ok: bool)
    requires LineStep(s, l, t, a, b, ok) && MustSucceed(t)
    ensures ok
  {
  }

  /** In a run of the worker where every line is skipped from the start, no line changes the ledger or the world. */
  lemma {:induction false} SkippedPrefix(s: Services, tasks: seq<TaskLine>, oks: seq<bool>, ledgers: seq<map<string, bool>>,
                                         worlds: seq<World>, k: nat)
    requires Run(StepOf(s), tasks, oks, ledgers, worlds) && k <= |tasks|
    requires forall i :: 0 <= i < |tasks| ==> Skipped(ledgers[0], tasks[i])
    ensures ledgers[k] == ledgers[0] && worlds[k] == worlds[0]
    decreases k
  {
    if k > 0 {
      SkippedPrefix(s, tasks, oks, ledgers, worlds, k - 1);
      SkippedAt(s, tasks, oks, ledgers, worlds, k - 1);
    }
  }

  /** A skipped line of a run leaves the ledger and the world as they were. */
  lemma SkippedAt(s: Services, tasks: seq<TaskLine>, oks: seq<bool>, ledgers: seq<map<string, bool>>, worlds: seq<World>, i: nat)
    requires Run(StepOf(s), tasks, oks, ledgers, worlds) && i < |tasks| && Skipped(ledgers[i], tasks[i])
    ensures ledgers[i + 1] == ledgers[i] && worlds[i + 1] == worlds[i]
  {
    RunAt(s, tasks, oks, ledgers, worlds, i);
    SkipStep(s, ledgers[i], tasks[i], worlds[i], worlds[i + 1], oks[i]);
  }

  /** A skipped line leaves the ledger and the world as they were. */
  lemma SkipStep(s: Services, l: map<string, bool>, t: TaskLine, a: World, b: World, ok: bool)
    requires Skipped(l, t) && LineStep(s, l, t, a, b, ok)
    ensures Mark(l, t, ok) == l && b == a
  {
  }

  /**
   * Reading the same log again after a run in which every task either was
   * already marked or succeeded runs no handler: the second run leaves the
   * items, posts and plans, and the ledger, as they were.
   */
  lemma SecondRunIdle(s: Services, processed: map<string, bool>, tasks: seq<TaskLine>, oks: seq<bool>,
                      oks2: seq<bool>, ledgers: seq<map<string, bool>>, worlds: seq<World>)
    requires |oks| == |tasks|
    requires forall i :: 0 <= i < |tasks| && tasks[i].Task? ==> oks[i] || DE.Marked(processed, tasks[i].id)
    requires Run(StepOf(s), tasks, oks2, ledgers, worlds) && ledgers[0] == LedgerOf(processed, tasks, oks)
    ensures worlds[|tasks|] == worlds[0] && ledgers[|tasks|] == ledgers[0]
  {
    forall i | 0 <= i < |tasks|
      ensures Skipped(ledgers[0], tasks[i])
    {
      if tasks[i].Task? {
        LedgerMarks(processed, tasks, oks, tasks[i].id);
        if oks[i] {
          assert Succeeded(tasks, oks, tasks[i].id);
        }
      }
    }
    SkippedPrefix(s, tasks, oks2, ledgers, worlds, |tasks|);
  }

  /** Lines 34-68 for one line: skip it, or dispatch its task and mark it when its handler succeeded. */
  method HandleLine(db: Db, poster: Poster, s: Services, processed: map<string, bool>, t: TaskLine)
    returns (next: map<string, bool>, ok: bool)
    modifies db, poster
    ensures next == Mark(processed, t, ok)
    ensures LineStep(s, processed, t, World(old(db.items), old(db.posts), old(poster.planned)), World(db.items, db.posts, poster.planned), ok)
    ensures MustSucceed(t) ==> ok
  {
    next, ok := processed, true;
    if t.Task? && !DE.Marked(processed, t.id) {
      ok := Dispatch(db, poster, s, KindOf(t.kind), PayloadOf(t.payload));
      if ok {
        next := processed[t.id := true];
      }
    }
  }

  /**
   * The loop of lines 33-69 over the parsed lines, from the ledger
   * `processed`: the ghost `oks`, `ledgers` and `worlds` record the run, each
   * line's outcome being that of the handler it ran.
   */
  method ProcessTasks(db: Db, poster: Poster, s: Services, processed: map<string, bool>, tasks: seq<TaskLine>)
    returns (final: map<string, bool>, ghost oks: seq<bool>, ghost ledgers: seq<map<string, bool>>, ghost worlds: seq<World>)
    modifies db, poster
    ensures Run(StepOf(s), tasks, oks, ledgers, worlds)
    ensures ledgers[0] == processed && ledgers[|tasks|] == final && final == LedgerOf(processed, tasks, oks)
    ensures worlds[0] == World(old(db.items), old(db.posts), old(poster.planned))
    ensures worlds[|tasks|] == World(db.items, db.posts, poster.planned)
    ensures forall i :: 0 <= i < |tasks| && MustSucceed(tasks[i]) ==> oks[i]
  {
    final, oks, ledgers, worlds := processed, [], [processed], [World(db.items, db.posts, poster.planned)];
    for i := 0 to |tasks|
      invariant Run(StepOf(s), tasks[..i], oks, ledgers, worlds)
      invariant ledgers[0] == processed && ledgers[i] == final
      invariant worlds[0] == World(old(db.items), old(db.posts), old(poster.planned))
      invariant worlds[i] == World(db.items, db.posts, poster.planned)
    {
      ghost var before := World(db.items, db.posts, poster.planned);
      var next, ok := HandleLine(db, poster, s, final, tasks[i]);
      StepOfHolds(s, final, tasks[i], before, World(db.items, db.posts, poster.planned), ok);
      assert tasks[..i + 1] == tasks[..i] + [tasks[i]];
      RunSnoc(StepOf(s), tasks[..i], oks, ledgers, worlds, tasks[i], ok, next, World(db.items, db.posts, poster.planned));
      final := next;
      oks := oks + [ok];
      ledgers := ledgers + [next];
      worlds := worlds + [World(db.items, db.posts, poster.planned)];
    }
    assert tasks[..|tasks|] == tasks && oks[..|oks|] == oks;
    RunLedger(StepOf(s), tasks, oks, ledgers, worlds, |tasks|);
    RunMustSucceed(s, tasks, oks, ledgers, worlds);
  }

  lemma StepOfHolds(s: Services, l: map<string, bool>, t: TaskLine, a: World, b: World, ok: bool)
    requires LineStep(s, l, t, a, b, ok)
    ensures StepOf(s)(l, t, a, b, ok)
  {
  }

  /**
   * `processOnce()`: the lines of the log are parsed and run from the saved
   * ledger, each line changing the items, posts and plans as its handler
   * did (a skipped line not at all); the ledger the run ends with is written
   * once at `now`; a dispatched task of an unknown type, and every
   * publishTop and distributeRecent task, succeeds.
   */
  method ProcessOnce(store: Store<map<string, bool>>, file: Option<string>, db: Db, poster: Poster, s: Services,
                     parse: string -> TaskLine, now: int)
    returns (ghost oks: seq<bool>, ghost ledgers: seq<map<string, bool>>, ghost worlds: seq<World>)
    modifies store, db, poster
    ensures var tasks := ParseTasks(DE.LinesOf(file), parse);
      && Run(StepOf(s), tasks, oks, ledgers, worlds)
      && ledgers[0] == ProcessedOf(old(store.docs))
      && worlds[0] == World(old(db.items), old(db.posts), old(poster.planned))
      && worlds[|tasks|] == World(db.items, db.posts, poster.planned)
      && ledgers[|tasks|] == LedgerOf(ProcessedOf(old(store.docs)), tasks, oks)
      && store.docs == old(store.docs)[StateFile := Doc(now, Some(ledgers[|tasks|]))]
      && forall i :: 0 <= i < |tasks| && MustSucceed(tasks[i]) ==> oks[i]
  {
    var tasks := ParseTasks(DE.LinesOf(file), parse);
    var final;
    final, oks, ledgers, worlds := ProcessTasks(db, poster, s, ProcessedOf(store.docs), tasks);
    store.docs := store.docs[StateFile := Doc(now, Some(final))];
  }
}
