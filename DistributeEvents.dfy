/**
 * `processOnce` of the publish-event worker (apps/worker/distribute-events.ts):
 * each line of the event log names a published post; every event id not yet
 * in the processed ledger is planned for Twitter once and then marked, and the
 * ledger is written back once at the end. The log's text is `events` (`None`
 * when it cannot be read), `JSON.parse` of one line is `parse`, and the
 * ledger file is a document of the `Store`.
 */
module DistributeEvents {
  import opened Wrappers
  import opened JsText
  import opened Files
  import opened Ports
  import opened Distribute

  const StateFile: string := "events/distributed.json"
  const DefaultOrigin: string := "http://localhost:3000"
  const EventPlatform: string := "twitter"

  // ---- readLines ----

  /** One `\r` removed from the end. */
  function DropCr(s: string): (r: string)
    ensures r == s || r + "\r" == s
    ensures forall c :: c in r ==> c in s
  {
    if s != [] && s[|s| - 1] == '\r' then s[..|s| - 1] else s
  }

  /** `raw.split(/\r?\n/)`: the pieces between line breaks, where a break is `\n` or `\r\n`. */
  function Pieces(raw: string): (r: seq<string>)
    ensures |r| >= 1
    ensures forall i :: 0 <= i < |r| ==> '\n' !in r[i]
  {
    var parts := Split(raw, '\n');
    seq(|parts|, i requires 0 <= i < |parts| => if i < |parts| - 1 then DropCr(parts[i]) else parts[i])
  }

  /** `.filter(Boolean)`: the non-empty strings, in order. */
  function NonEmpty(parts: seq<string>): (r: seq<string>)
    ensures |r| <= |parts|
    ensures forall i :: 0 <= i < |r| ==> r[i] != ""
    ensures forall x :: x in r ==> x in parts
    ensures (forall i :: 0 <= i < |parts| ==> parts[i] != "") ==> r == parts
    decreases |parts|
  {
    if parts == [] then []
    else
      var rest := NonEmpty(parts[1..]);
      assert forall i :: 0 < i < |parts| ==> parts[i] == parts[1..][i - 1];
      assert parts == [parts[0]] + parts[1..];
      if parts[0] == "" then rest else [parts[0]] + rest
  }

  /** `readLines`: the log's non-blank lines; an unreadable log has none. */
  function LinesOf(file: Option<string>): (lines: seq<string>)
    ensures forall i :: 0 <= i < |lines| ==> lines[i] != "" && '\n' !in lines[i]
  {
    if file.None? then []
    else
      var p := Pieces(file.value);
      var r := NonEmpty(p);
      assert forall i :: 0 <= i < |r| ==> r[i] in p;
      r
  }

  /** Pieces of a text split into `parts`: each `\r` before a `\n` is dropped, the last piece is kept whole. */
  lemma PiecesOfParts(raw: string, parts: seq<string>, lines: seq<string>)
    requires Split(raw, '\n') == parts && |parts| == |lines|
    requires forall i :: 0 <= i < |parts| - 1 ==> DropCr(parts[i]) == lines[i]
    requires parts[|parts| - 1] == lines[|lines| - 1]
    ensures Pieces(raw) == lines
  {
    var p := Pieces(raw);
    forall i | 0 <= i < |p|
      ensures p[i] == lines[i]
    {
      if i < |p| - 1 {
        assert p[i] == DropCr(parts[i]);
      }
    }
  }

  lemma PiecesOfJoin(raw: string, parts: seq<string>, lines: seq<string>)
    requires raw == Join(parts, "\n")
    requires |parts| == |lines| && parts != []
    requires forall i :: 0 <= i < |parts| ==> '\n' !in parts[i]
    requires forall i :: 0 <= i < |parts| - 1 ==> DropCr(parts[i]) == lines[i]
    requires parts[|parts| - 1] == lines[|lines| - 1]
    ensures Pieces(raw) == lines
  {
    assert "\n" == ['\n'];
    JoinSplit(parts, '\n');
    PiecesOfParts(raw, parts, lines);
  }

  /** `\r` appended to every line but the last. */
  function WithCr(lines: seq<string>): (r: seq<string>)
    ensures |r| == |lines|
    ensures forall i :: 0 <= i < |lines| - 1 ==> r[i] == lines[i] + "\r"
    ensures lines != [] ==> r[|lines| - 1] == lines[|lines| - 1]
  {
    seq(|lines|, i requires 0 <= i < |lines| => if i < |lines| - 1 then lines[i] + "\r" else lines[i])
  }

  lemma {:induction false} JoinCrLf(lines: seq<string>)
    ensures Join(lines, "\r\n") == Join(WithCr(lines), "\n")
    decreases |lines|
  {
    if |lines| >= 2 {
      JoinCrLf(lines[1..]);
      assert WithCr(lines)[1..] == WithCr(lines[1..]);
      assert lines[0] + "\r\n" == lines[0] + "\r" + "\n";
    }
  }

  /** An empty log has no lines. */
  lemma EmptyLog()
    ensures LinesOf(Some("")) == []
  {
    assert Split("", '\n') == [""];
    assert NonEmpty([""]) == [];
  }

  /** Non-empty lines are kept whole by `.filter(Boolean)`. */
  lemma LinesOfPieces(raw: string, lines: seq<string>)
    requires Pieces(raw) == lines
    requires forall i :: 0 <= i < |lines| ==> lines[i] != ""
    ensures LinesOf(Some(raw)) == lines
  {
  }

  /** Non-empty lines without `\n` or a final `\r`, joined with `\n`, read back as those lines. */
  lemma LinesRoundTrip(lines: seq<string>)
    requires forall i :: 0 <= i < |lines| ==> lines[i] != "" && '\n' !in lines[i]
    requires forall i :: 0 <= i < |lines| ==> lines[i][|lines[i]| - 1] != '\r'
    ensures LinesOf(Some(Join(lines, "\n"))) == lines
  {
    if lines == [] {
      EmptyLog();
    } else {
      PiecesOfJoin(Join(lines, "\n"), lines, lines);
      LinesOfPieces(Join(lines, "\n"), lines);
    }
  }

  /** The `\r\n`-joined lines split back into the lines. */
  lemma CrLfPieces(lines: seq<string>)
    requires lines != []
    requires forall i :: 0 <= i < |lines| ==> '\n' !in lines[i]
    ensures Pieces(Join(lines, "\r\n")) == lines
  {
    JoinCrLf(lines);
    WithCrParts(lines);
    PiecesOfJoin(Join(lines, "\r\n"), WithCr(lines), lines);
  }

  /** With `\r` appended, the lines still hold no `\n`, and dropping the `\r` gives them back. */
  lemma WithCrParts(lines: seq<string>)
    requires forall i :: 0 <= i < |lines| ==> '\n' !in lines[i]
    ensures var parts := WithCr(lines);
      && (forall i :: 0 <= i < |parts| ==> '\n' !in parts[i])
      && (forall i :: 0 <= i < |parts| - 1 ==> DropCr(parts[i]) == lines[i])
  {
    var parts := WithCr(lines);
    forall i | 0 <= i < |parts| - 1
      ensures '\n' !in parts[i] && DropCr(parts[i]) == lines[i]
    {
      var x := lines[i] + "\r";
      assert parts[i] == x;
      assert x[..|lines[i]|] == lines[i];
      assert forall c :: c in x ==> c in lines[i] || c == '\r';
    }
  }

  /** Non-empty lines without `\n`, joined with `\r\n`, read back as those lines. */
  lemma CrLfRoundTrip(lines: seq<string>)
    requires forall i :: 0 <= i < |lines| ==> lines[i] != "" && '\n' !in lines[i]
    ensures LinesOf(Some(Join(lines, "\r\n"))) == lines
  {
    if lines == [] {
      EmptyLog();
    } else {
      CrLfPieces(lines);
      LinesOfPieces(Join(lines, "\r\n"), lines);
    }
  }

  // ---- the ledger ----

  /** `JSON.parse(line)`: it throws, gives a falsy value, or gives an event. */
  datatype Parsed = Unparsable | Falsy | Published(id: string, slug: string)

  /** `processed[id]` is truthy. */
  predicate Marked(processed: map<string, bool>, id: string) {
    id in processed && processed[id]
  }

  /** `process.env.SITE_ORIGIN || 'http://localhost:3000'`. */
  function OriginOf(env: Option<string>): (r: string)
    ensures r != ""
    ensures env.Some? && env.value != "" ==> r == env.value
  {
    if env.Some? && env.value != "" then env.value else DefaultOrigin
  }

  /** Lines 48-50: the plan for an event's post. */
  function PlanOf(post: Post, origin: string): Plan {
    var url := StripSlash(origin) + "/" + post.slug;
    Plan(EventPlatform, post.title + " " + url, url, MediaKey(post.ogImageKey))
  }

  /** The event worker plans what `distributeRecent` plans for Twitter, but does not trim the text. */
  lemma PlanOfMatchesDistribute(post: Post, origin: string)
    ensures PlanOf(post, origin).url == PlanFor(post, origin, EventPlatform).url
    ensures PlanOf(post, origin).mediaKey == PlanFor(post, origin, EventPlatform).mediaKey
    ensures PlanOf(post, origin).platform == PlanFor(post, origin, EventPlatform).platform
    ensures PlanFor(post, origin, EventPlatform).text == Trim(PlanOf(post, origin).text)
  {
    var url := StripSlash(origin) + "/" + post.slug;
    UrlMatches(origin, post.slug, url);
    var d := PlanFor(post, origin, EventPlatform);
    assert d.url == url;
    assert d.text == Trim(post.title + " " + url);
  }

  lemma UrlMatches(origin: string, slug: string, url: string)
    requires url == StripSlash(origin) + "/" + slug
    ensures JoinUrl(origin, "/" + slug) == url
  {
    assert StripSlash(origin) + "/" + slug == StripSlash(origin) + ("/" + slug);
  }

  /** The processed ledger, and the plans made so far with the event ids they were made for. */
  datatype Ledger = Ledger(processed: map<string, bool>, planned: seq<(string, Plan)>)

  /** Lines 43-52 for one parsed line. */
  function Step(l: Ledger, e: Parsed, posts: seq<Post>, origin: string): Ledger {
    match e
    case Published(id, slug) =>
      if Marked(l.processed, id) then l
      else
        var post := PostWithSlug(posts, slug);
        Ledger(l.processed[id := true], l.planned + if post.Some? then [(id, PlanOf(post.value, origin))] else [])
    case _ => l
  }

  /** The loop of lines 42-53 over all parsed lines. */
  function Replay(l: Ledger, events: seq<Parsed>, posts: seq<Post>, origin: string): Ledger
    decreases |events|
  {
    if events == [] then l else Step(Replay(l, events[..|events| - 1], posts, origin), events[|events| - 1], posts, origin)
  }

  lemma ReplaySnoc(l: Ledger, events: seq<Parsed>, i: nat, posts: seq<Post>, origin: string)
    requires i < |events|
    ensures Replay(l, events[..i + 1], posts, origin) == Step(Replay(l, events[..i], posts, origin), events[i], posts, origin)
  {
    assert events[..i + 1][..i] == events[..i];
  }

  /** An event whose post is missing is marked and planned for nothing. */
  lemma MissingPostMarked(l: Ledger, id: string, slug: string, posts: seq<Post>, origin: string)
    requires !Marked(l.processed, id)
    requires forall i :: 0 <= i < |posts| ==> posts[i].slug != slug
    ensures Marked(Step(l, Published(id, slug), posts, origin).processed, id)
    ensures Step(l, Published(id, slug), posts, origin).planned == l.planned
  {
  }

  /** The ledger only gains entries: a key stays, and a marked key stays marked; earlier plans stay. */
  lemma {:induction false} ReplayGrows(l: Ledger, events: seq<Parsed>, posts: seq<Post>, origin: string)
    ensures forall k :: k in l.processed ==> k in Replay(l, events, posts, origin).processed
    ensures forall k :: Marked(l.processed, k) ==> Marked(Replay(l, events, posts, origin).processed, k)
    ensures |l.planned| <= |Replay(l, events, posts, origin).planned|
    ensures Replay(l, events, posts, origin).planned[..|l.planned|] == l.planned
    decreases |events|
  {
    if events != [] {
      var r := Replay(l, events[..|events| - 1], posts, origin);
      ReplayGrows(l, events[..|events| - 1], posts, origin);
      var r' := Step(r, events[|events| - 1], posts, origin);
      assert r'.planned[..|r.planned|] == r.planned;
      assert r'.planned[..|l.planned|] == r.planned[..|r.planned|][..|l.planned|];
    }
  }

  /** Some parsed line is an event with this id. */
  predicate HasEvent(events: seq<Parsed>, id: string) {
    exists i :: 0 <= i < |events| && events[i].Published? && events[i].id == id
  }

  lemma HasEventSnoc(events: seq<Parsed>, id: string)
    requires events != []
    ensures HasEvent(events, id) <==>
      HasEvent(events[..|events| - 1], id) || (events[|events| - 1].Published? && events[|events| - 1].id == id)
  {
    var init := events[..|events| - 1];
    if HasEvent(events, id) {
      var i :| 0 <= i < |events| && events[i].Published? && events[i].id == id;
      if i < |init| {
        assert init[i] == events[i];
      }
    }
    if HasEvent(init, id) {
      var i :| 0 <= i < |init| && init[i].Published? && init[i].id == id;
      assert events[i] == init[i];
    }
  }

  /**
   * An id is marked after the run exactly when it was marked before or some
   * line is an event with that id; every other key of the ledger was there
   * before (unparsable and falsy lines mark nothing).
   */
  lemma {:induction false} ReplayMarks(l: Ledger, events: seq<Parsed>, posts: seq<Post>, origin: string, id: string)
    ensures Marked(Replay(l, events, posts, origin).processed, id) <==> Marked(l.processed, id) || HasEvent(events, id)
    ensures id in Replay(l, events, posts, origin).processed ==> id in l.processed || HasEvent(events, id)
    decreases |events|
  {
    if events != [] {
      ReplayMarks(l, events[..|events| - 1], posts, origin, id);
      HasEventSnoc(events, id);
    }
  }

  /**
   * Every plan made in a run is for an id that was not marked before the run
   * and is marked after it, and no id is planned twice in a run.
   */
  lemma {:induction false} ReplayPlansOnce(l: Ledger, events: seq<Parsed>, posts: seq<Post>, origin: string)
    ensures var r := Replay(l, events, posts, origin);
      forall j :: |l.planned| <= j < |r.planned| ==> Marked(r.processed, r.planned[j].0) && !Marked(l.processed, r.planned[j].0)
    ensures var r := Replay(l, events, posts, origin);
      forall j, j' :: |l.planned| <= j < j' < |r.planned| ==> r.planned[j].0 != r.planned[j'].0
    decreases |events|
  {
    ReplayGrows(l, events, posts, origin);
    if events != [] {
      var init := events[..|events| - 1];
      var r := Replay(l, init, posts, origin);
      ReplayPlansOnce(l, init, posts, origin);
      ReplayGrows(l, init, posts, origin);
      var r' := Step(r, events[|events| - 1], posts, origin);
      assert r' == Replay(l, events, posts, origin);
      forall j | |l.planned| <= j < |r'.planned|
        ensures Marked(r'.processed, r'.planned[j].0) && !Marked(l.processed, r'.planned[j].0)
      {
        if j < |r.planned| {
          assert r'.planned[j] == r.planned[j];
        }
      }
      forall j, j' | |l.planned| <= j < j' < |r'.planned|
        ensures r'.planned[j].0 != r'.planned[j'].0
      {
        if j' < |r.planned| {
          assert r'.planned[j] == r.planned[j] && r'.planned[j'] == r.planned[j'];
        } else {
          assert r'.planned[j] == r.planned[j];
        }
      }
    }
  }

  /** A second run over the ledger a first run saved plans no id the first run planned. */
  lemma NoReplanAcrossRuns(l: Ledger, first: seq<Parsed>, second: seq<Parsed>, posts: seq<Post>, posts': seq<Post>, origin: string, origin': string)
    ensures var r1 := Replay(l, first, posts, origin);
      var r2 := Replay(Ledger(r1.processed, []), second, posts', origin');
      forall j, j' :: |l.planned| <= j < |r1.planned| && 0 <= j' < |r2.planned| ==> r1.planned[j].0 != r2.planned[j'].0
  {
    var r1 := Replay(l, first, posts, origin);
    ReplayPlansOnce(l, first, posts, origin);
    ReplayPlansOnce(Ledger(r1.processed, []), second, posts', origin');
  }

  /** `JSON.parse` of every line. */
  function ParseAll(lines: seq<string>, parse: string -> Parsed): (r: seq<Parsed>)
    ensures |r| == |lines| && forall i :: 0 <= i < |lines| ==> r[i] == parse(lines[i])
  {
    seq(|lines|, i requires 0 <= i < |lines| => parse(lines[i]))
  }

  /** `readProcessed`: the saved ledger, or `{}` when it is missing or does not parse. */
  function ProcessedOf(docs: map<string, Doc<map<string, bool>>>): map<string, bool> {
    ReadJson(docs, StateFile).GetOr(map[])
  }

  function PlansOf(planned: seq<(string, Plan)>): (r: seq<Plan>)
    ensures |r| == |planned| && forall i :: 0 <= i < |planned| ==> r[i] == planned[i].1
  {
    seq(|planned|, i requires 0 <= i < |planned| => planned[i].1)
  }

  lemma PlansOfSnoc(planned: seq<(string, Plan)>, e: (string, Plan))
    ensures PlansOf(planned + [e]) == PlansOf(planned) + [e.1]
  {
  }

  /** The loop of lines 42-53 over the parsed lines, from the ledger `processed`. */
  method ProcessEvents(db: Db, poster: Poster, processed: map<string, bool>, evs: seq<Parsed>, origin: string)
    returns (final: map<string, bool>, ghost planned: seq<(string, Plan)>)
    modifies poster
    ensures Ledger(final, planned) == Replay(Ledger(processed, []), evs, db.posts, origin)
    ensures poster.planned == old(poster.planned) + PlansOf(planned)
  {
    final, planned := processed, [];
    for i := 0 to |evs|
      invariant Ledger(final, planned) == Replay(Ledger(processed, []), evs[..i], db.posts, origin)
      invariant poster.planned == old(poster.planned) + PlansOf(planned)
    {
      ReplaySnoc(Ledger(processed, []), evs, i, db.posts, origin);
      var ev := evs[i];
      if ev.Published? && !Marked(final, ev.id) {
        var post := db.PostBySlug(ev.slug);
        if post.Some? {
          var plan := PlanOf(post.value, origin);
          poster.PlanPost(plan);
          PlansOfSnoc(planned, (ev.id, plan));
          planned := planned + [(ev.id, plan)];
        }
        final := final[ev.id := true];
      }
    }
    assert evs[..|evs|] == evs;
  }

  /**
   * `processOnce()`: the plans Replay makes are handed to the poster in
   * order, and the ledger Replay ends with is written once, at `now`.
   */
  method ProcessOnce(store: Store<map<string, bool>>, events: Option<string>, db: Db, poster: Poster,
                     parse: string -> Parsed, siteOrigin: Option<string>, now: int)
    modifies store, poster
    ensures var r := Replay(Ledger(ProcessedOf(old(store.docs)), []), ParseAll(LinesOf(events), parse), db.posts, OriginOf(siteOrigin));
      && poster.planned == old(poster.planned) + PlansOf(r.planned)
      && store.docs == old(store.docs)[StateFile := Doc(now, Some(r.processed))]
  {
    var evs := ParseAll(LinesOf(events), parse);
    var final;
    ghost var planned;
    final, planned := ProcessEvents(db, poster, ProcessedOf(store.docs), evs, OriginOf(siteOrigin));
    store.docs := store.docs[StateFile := Doc(now, Some(final))];
  }
}
