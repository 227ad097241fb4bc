/**
 * `distributeRecent` and `joinUrl` (packages/factory/distribute/index.ts):
 * every post the database lists as published within the window becomes one
 * planned social post, in listing order, and the posts' slugs are returned.
 * `listPublishedSince` depends on the clock and on publication times the
 * model does not keep, so it is the parameter `listing`, given the stored
 * posts and the window in minutes.
 */
module Distribute {
  import opened Wrappers
  import opened JsText
  import opened Ports

  const DefaultSince: real := 1440.0
  const DefaultPlatform: string := "twitter"

  /** `base.replace(/\/$/, "")`: at most one trailing `/` removed. */
  function StripSlash(base: string): (b: string)
    ensures b == base || b + "/" == base
    ensures b != base <==> base != [] && base[|base| - 1] == '/'
  {
    if base != [] && base[|base| - 1] == '/' then base[..|base| - 1] else base
  }

  /** `joinUrl(base, path)`: the base without one trailing `/`, then the path. */
  function JoinUrl(base: string, path: string): (r: string)
    ensures |r| >= |path| && r[|r| - |path|..] == path
    ensures r[..|r| - |path|] == base || r[..|r| - |path|] + "/" == base
    ensures base == [] || base[|base| - 1] != '/' ==> r == base + path
  {
    var b := StripSlash(base);
    assert (b + path)[..|b|] == b;
    b + path
  }

  /** Only one `/` is removed: a base ending in `//` keeps one of them. */
  lemma OneSlashOnly(b: string, path: string)
    ensures JoinUrl(b + "//", path) == b + "/" + path
  {
    assert (b + "//")[..|b| + 1] == b + "/";
  }

  /** A base with or without its trailing `/` gives the same URL. */
  lemma TrailingSlashIgnored(base: string, path: string)
    requires base == [] || base[|base| - 1] != '/'
    ensures JoinUrl(base + "/", path) == JoinUrl(base, path)
  {
    assert (base + "/")[..|base|] == base;
  }

  /** `opts.sinceMinutes ?? Number(env || 1440)`. */
  function SinceOf(minutes: Option<JsNumber>, env: Option<string>): (r: JsNumber)
    ensures minutes.Some? ==> r == minutes.value
    ensures minutes.None? && (env.None? || env.value == "") ==> r == Num(DefaultSince)
    ensures minutes.None? && env.Some? && env.value != "" ==> r == NumberOf(env.value)
  {
    if minutes.Some? then minutes.value
    else if env.Some? && env.value != "" then NumberOf(env.value)
    else Num(DefaultSince)
  }

  /** An environment value written as a plain decimal gives that many minutes. */
  lemma SinceFromEnv(n: nat)
    requires n > 0
    ensures SinceOf(None, Some(Decimal(n))) == Num(n as real)
  {
    RadixDigits(n);
    NumberOfDecimal(n);
  }

  /** `opts.platform || "twitter"`. */
  function PlatformOf(platform: Option<string>): (r: string)
    ensures r != ""
    ensures platform.Some? && platform.value != "" ==> r == platform.value
    ensures platform.None? || platform.value == "" ==> r == DefaultPlatform
  {
    if platform.Some? && platform.value != "" then platform.value else DefaultPlatform
  }

  /** `p.ogImageKey || undefined`. */
  function MediaKey(key: Option<string>): (r: Option<string>)
    ensures r.None? <==> key.None? || key.value == ""
    ensures r.Some? ==> r == key
  {
    if key.Some? && key.value != "" then key else None
  }

  /** Lines 15-17: the plan for one post. */
  function PlanFor(p: Post, origin: string, platform: string): (r: Plan)
    ensures r.platform == platform
    ensures r.url == JoinUrl(origin, "/" + p.slug)
    ensures r.text == Trim(p.title + " " + r.url)
    ensures r.mediaKey == MediaKey(p.ogImageKey)
  {
    var url := JoinUrl(origin, "/" + p.slug);
    Plan(platform, Trim(p.title + " " + url), url, MediaKey(p.ogImageKey))
  }

  /** A title and slug without surrounding white space are planned as the title, a space and the URL. */
  lemma PlanTextUntrimmed(p: Post, origin: string, platform: string)
    requires p.title != [] && !IsSpace(p.title[0])
    requires p.slug != [] && !IsSpace(p.slug[|p.slug| - 1])
    ensures PlanFor(p, origin, platform).text == p.title + " " + PlanFor(p, origin, platform).url
  {
    var url := JoinUrl(origin, "/" + p.slug);
    var t := p.title + " " + url;
    assert t[0] == p.title[0];
    assert url[|url| - 1] == ("/" + p.slug)[|p.slug|];
    assert t[|t| - 1] == url[|url| - 1];
    TrimOfTrimmed(t);
  }

  function Plans(posts: seq<Post>, origin: string, platform: string): (r: seq<Plan>)
    ensures |r| == |posts|
    ensures forall i :: 0 <= i < |posts| ==> r[i] == PlanFor(posts[i], origin, platform)
  {
    seq(|posts|, i requires 0 <= i < |posts| => PlanFor(posts[i], origin, platform))
  }

  lemma PlansStep(posts: seq<Post>, i: nat, origin: string, platform: string)
    requires i < |posts|
    ensures Plans(posts[..i + 1], origin, platform) == Plans(posts[..i], origin, platform) + [PlanFor(posts[i], origin, platform)]
  {
    assert Plans(posts[..i + 1], origin, platform)[..i] == Plans(posts[..i], origin, platform);
  }

  function SlugsOf(posts: seq<Post>): (r: seq<string>)
    ensures |r| == |posts|
    ensures forall i :: 0 <= i < |posts| ==> r[i] == posts[i].slug
  {
    seq(|posts|, i requires 0 <= i < |posts| => posts[i].slug)
  }

  /**
   * `distributeRecent(opts)`: one `planPost` per listed post, in order, and
   * the listed posts' slugs returned in the same order. `env` is
   * `DISTRIBUTE_SINCE_MINUTES`.
   */
  method DistributeRecent(db: Db, poster: Poster, listing: (seq<Post>, JsNumber) -> seq<Post>, siteOrigin: string,
                          sinceMinutes: Option<JsNumber>, env: Option<string>, platform: Option<string>)
    returns (slugs: seq<string>)
    modifies poster
    ensures poster.planned == old(poster.planned) + Plans(listing(db.posts, SinceOf(sinceMinutes, env)), siteOrigin, PlatformOf(platform))
    ensures slugs == SlugsOf(listing(db.posts, SinceOf(sinceMinutes, env)))
  {
    var since := SinceOf(sinceMinutes, env);
    var plat := PlatformOf(platform);
    var posts := listing(db.posts, since);
    for i := 0 to |posts|
      invariant poster.planned == old(poster.planned) + Plans(posts[..i], siteOrigin, plat)
    {
      PlansStep(posts, i, siteOrigin, plat);
      poster.PlanPost(PlanFor(posts[i], siteOrigin, plat));
    }
    assert posts[..|posts|] == posts;
    slugs := SlugsOf(posts);
  }
}
