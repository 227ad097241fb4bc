/**
 * The database and poster ports (packages/core/ports.ts) as in-memory
 * objects: the posts and source items a `DB` holds and the posts a `Poster`
 * has planned. The ranking `queueTopNForDraft` applies is the database's; here
 * it is the order in which `items` are kept.
 */
module Ports {
  import opened Wrappers
  import opened Types

  /** A post row: a draft until `publishPost` marks it published. */
  datatype Post = Post(
    id: string, niche: string, slug: string, title: string, summary: string,
    contentHtml: string, ogImageKey: Option<string>, published: bool)

  /** The argument of `poster.planPost`. */
  datatype Plan = Plan(platform: string, text: string, url: string, mediaKey: Option<string>)

  class Db {
    var items: seq<SourceItem>
    var posts: seq<Post>

    constructor (items0: seq<SourceItem>, posts0: seq<Post>)
      ensures items == items0 && posts == posts0
    {
      items := items0;
      posts := posts0;
    }

    /** `getPostBySlug(slug)` finds a post. */
    predicate HasSlug(slug: string)
      reads this
    {
      exists i :: 0 <= i < |posts| && posts[i].slug == slug
    }

    function Slugs(): (s: set<string>)
      reads this
      ensures forall slug :: slug in s <==> HasSlug(slug)
    {
      set i | 0 <= i < |posts| :: posts[i].slug
    }

    /** `getPostBySlug(slug)`: the post with that slug, or `null`. */
    function PostBySlug(slug: string): (r: Option<Post>)
      reads this
      ensures r.Some? <==> HasSlug(slug)
      ensures r.Some? ==> r.value in posts && r.value.slug == slug
    {
      PostWithSlug(posts, slug)
    }

    /** `listDrafts()`: the posts not yet published, in stored order. */
    function ListDrafts(): (r: seq<Post>)
      reads this
    {
      Drafts(posts)
    }

    /** `queueTopNForDraft(niche, 1)[0]`: the first item of the niche, if any. */
    function TopForDraft(niche: string): (r: Option<SourceItem>)
      reads this
      ensures r.Some? ==> r.value.niche == niche && r.value in items
      ensures r.None? ==> forall i :: 0 <= i < |items| ==> items[i].niche != niche
    {
      TopOf(items, niche)
    }

    /** `createDraftPost(p)`: one post appended. */
    method CreateDraftPost(p: Post) returns (slug: string)
      modifies this
      ensures posts == old(posts) + [p] && items == old(items)
      ensures slug == p.slug
    {
      posts := posts + [p];
      slug := p.slug;
    }

    /** `publishPost(id)`: the post with that id becomes published; nothing else changes. */
    method PublishPost(id: string)
      modifies this
      ensures posts == Published(old(posts), id) && items == old(items)
    {
      posts := Published(posts, id);
    }

    /** `upsertSourceItems(items)`: each item replaces the one with its id, or is appended. */
    method UpsertSourceItems(batch: seq<SourceItem>)
      modifies this
      ensures items == UpsertAll(old(items), batch) && posts == old(posts)
    {
      var i := 0;
      while i < |batch|
        invariant 0 <= i <= |batch|
        invariant items == UpsertAll(old(items), batch[..i]) && posts == old(posts)
      {
        assert batch[..i + 1] == batch[..i] + [batch[i]];
        items := Upsert(items, batch[i]);
        i := i + 1;
      }
      assert batch[..i] == batch;
    }
  }

  function TopOf(items: seq<SourceItem>, niche: string): (r: Option<SourceItem>)
    ensures r.Some? ==> r.value.niche == niche && r.value in items
    ensures r.None? ==> forall i :: 0 <= i < |items| ==> items[i].niche != niche
  {
    if items == [] then None
    else if items[0].niche == niche then Some(items[0])
    else
      var r := TopOf(items[1..], niche);
      assert forall i :: 0 < i < |items| ==> items[i] == items[1..][i - 1];
      r
  }

  function PostWithSlug(posts: seq<Post>, slug: string): (r: Option<Post>)
    ensures r.Some? <==> exists i :: 0 <= i < |posts| && posts[i].slug == slug
    ensures r.Some? ==> r.value in posts && r.value.slug == slug
  {
    if posts == [] then None
    else if posts[0].slug == slug then Some(posts[0])
    else
      var r := PostWithSlug(posts[1..], slug);
      assert forall i :: 0 < i < |posts| ==> posts[i] == posts[1..][i - 1];
      r
  }

  /** The unpublished posts, in order. */
  function Drafts(posts: seq<Post>): (r: seq<Post>)
    ensures forall i :: 0 <= i < |r| ==> !r[i].published && r[i] in posts
    ensures forall i :: 0 <= i < |posts| && !posts[i].published ==> posts[i] in r
    decreases |posts|
  {
    if posts == [] then []
    else
      var rest := Drafts(posts[1..]);
      assert forall i :: 0 < i < |posts| ==> posts[i] == posts[1..][i - 1];
      if posts[0].published then rest else [posts[0]] + rest
  }

  function MarkPublished(p: Post, id: string): Post {
    if p.id == id then p.(published := true) else p
  }

  function Published(posts: seq<Post>, id: string): (r: seq<Post>)
    ensures |r| == |posts|
    ensures forall i :: 0 <= i < |posts| ==> r[i] == MarkPublished(posts[i], id)
  {
    seq(|posts|, i requires 0 <= i < |posts| => MarkPublished(posts[i], id))
  }

  /** After `publishPost(id)`, that post is published and every other post is as it was. */
  lemma PublishFacts(posts: seq<Post>, id: string, i: nat)
    requires i < |posts|
    ensures posts[i].id == id ==> Published(posts, id)[i].published
    ensures posts[i].id == id ==> Published(posts, id)[i].(published := posts[i].published) == posts[i]
    ensures posts[i].id != id ==> Published(posts, id)[i] == posts[i]
  {
  }

  function Upsert(items: seq<SourceItem>, it: SourceItem): (r: seq<SourceItem>)
    ensures |r| == |items| || r == items + [it]
  {
    if exists k :: 0 <= k < |items| && items[k].id == it.id then
      seq(|items|, k requires 0 <= k < |items| => if items[k].id == it.id then it else items[k])
    else items + [it]
  }

  function UpsertAll(items: seq<SourceItem>, batch: seq<SourceItem>): seq<SourceItem>
    decreases |batch|
  {
    if batch == [] then items else Upsert(UpsertAll(items, batch[..|batch| - 1]), batch[|batch| - 1])
  }

  /** After an upsert the item is stored under its id, and every item of another id is untouched. */
  lemma UpsertFacts(items: seq<SourceItem>, it: SourceItem)
    ensures it in Upsert(items, it)
    ensures forall k :: 0 <= k < |items| && items[k].id != it.id ==> items[k] == Upsert(items, it)[k]
    ensures forall k :: 0 <= k < |Upsert(items, it)| ==> Upsert(items, it)[k] == it || Upsert(items, it)[k] in items
  {
    var r := Upsert(items, it);
    if exists k :: 0 <= k < |items| && items[k].id == it.id {
      var k :| 0 <= k < |items| && items[k].id == it.id;
      assert r[k] == it;
    } else {
      assert r[|items|] == it;
    }
  }

  class Poster {
    var planned: seq<Plan>

    constructor ()
      ensures planned == []
    {
      planned := [];
    }

    /** `planPost(p)`: one planned post recorded. */
    method PlanPost(p: Plan)
      modifies this
      ensures planned == old(planned) + [p]
    {
      planned := planned + [p];
    }
  }
}
