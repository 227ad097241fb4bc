/**
 * `toSourceItems` (packages/plugins/emoji/lib/normalize.ts): context tweets
 * become source items, one per row and in row order. `now` is the time
 * `new Date()` reads and `parseDate` what `new Date(created_at)` makes of a
 * timestamp, both in epoch milliseconds.
 */
module Normalize {
  import opened Wrappers
  import opened JsText
  import opened Types
  import opened TextUtil

  /** The tweet's `public_metrics`, each count optional. */
  datatype Metrics = Metrics(likeCount: Option<int>, retweetCount: Option<int>, replyCount: Option<int>)

  /** An `EmojiContextTweet` (packages/plugins/emoji/lib/context.ts); a field that may be absent at run time is an `Option`. */
  datatype ContextTweet = ContextTweet(
    id: Option<string>, emoji: string, text: Option<string>, url: string,
    createdAt: Option<string>, metrics: Option<Metrics>, lang: Option<string>)

  const TextLimit: int := 200

  /** `r.lang || 'en'`. */
  function LangOf(lang: Option<string>): (l: string)
    ensures l != ""
    ensures lang.Some? && lang.value != "" ==> l == lang.value
  {
    if lang.Some? && lang.value != "" then lang.value else "en"
  }

  /** `r.metrics?.<field> ?? 0`. */
  function CountOf(m: Option<Metrics>, field: Metrics -> Option<int>): int {
    if m.Some? then field(m.value).GetOr(0) else 0
  }

  function Likes(m: Metrics): Option<int> { m.likeCount }
  function Retweets(m: Metrics): Option<int> { m.retweetCount }
  function Replies(m: Metrics): Option<int> { m.replyCount }

  /** The item built for row `r` at index `i`. */
  function ItemOf(r: ContextTweet, i: nat, now: int, parseDate: string -> int): SourceItem {
    SourceItem(
      id := "tw:" + (if r.id.Some? then r.id.value else Decimal(i)),
      niche := "emoji",
      term := r.emoji,
      lang := LangOf(r.lang),
      text := Clip(ScrubPII(r.text.GetOr("")), TextLimit),
      sourceUrl := r.url,
      likes := CountOf(r.metrics, Likes),
      shares := CountOf(r.metrics, Retweets),
      comments := CountOf(r.metrics, Replies),
      firstSeenAt := if r.createdAt.Some? && r.createdAt.value != "" then parseDate(r.createdAt.value) else now,
      mediaUrl := None)
  }

  /** `toSourceItems(rows)`. */
  function ToSourceItems(rows: seq<ContextTweet>, now: int, parseDate: string -> int): (items: seq<SourceItem>)
    ensures |items| == |rows|
  {
    seq(|rows|, i requires 0 <= i < |rows| => ItemOf(rows[i], i, now, parseDate))
  }

  /**
   * The item at index `i` comes from row `i`: its id is `tw:` and the row's id
   * (or the index), its text the scrubbed row text clipped to at most 200
   * characters, its language the row's or "en", and missing counts are 0.
   */
  lemma ItemFacts(rows: seq<ContextTweet>, now: int, parseDate: string -> int, i: nat)
    requires i < |rows|
    ensures var it, r := ToSourceItems(rows, now, parseDate)[i], rows[i];
      && it.id == "tw:" + (if r.id.Some? then r.id.value else Decimal(i))
      && it.niche == "emoji" && it.term == r.emoji && it.sourceUrl == r.url
      && it.lang != "" && (r.lang.Some? && r.lang.value != "" ==> it.lang == r.lang.value)
      && (r.lang.None? || r.lang.value == "" ==> it.lang == "en")
      && |it.text| <= TextLimit && it.text == Clip(ScrubPII(r.text.GetOr("")), TextLimit)
      && (r.metrics.None? ==> it.likes == 0 && it.shares == 0 && it.comments == 0)
      && (r.metrics.Some? ==> it.likes == r.metrics.value.likeCount.GetOr(0))
      && (r.metrics.Some? ==> it.shares == r.metrics.value.retweetCount.GetOr(0))
      && (r.metrics.Some? ==> it.comments == r.metrics.value.replyCount.GetOr(0))
      && it.firstSeenAt == (if r.createdAt.Some? && r.createdAt.value != "" then parseDate(r.createdAt.value) else now)
      && it.mediaUrl.None?
  {
  }

  /** Text that fits and holds no `@` and no digit is kept as it is. */
  lemma PlainTextKept(rows: seq<ContextTweet>, now: int, parseDate: string -> int, i: nat)
    requires i < |rows| && rows[i].text.Some?
    requires var s := rows[i].text.value;
      |s| <= TextLimit && '@' !in s && forall k :: 0 <= k < |s| ==> !IsDigit(s[k])
    ensures ToSourceItems(rows, now, parseDate)[i].text == rows[i].text.value
  {
    ScrubPlainText(rows[i].text.value);
  }

  /** Rows without an id get ids from their distinct indexes, so those ids are distinct. */
  lemma IndexIdsDistinct(rows: seq<ContextTweet>, now: int, parseDate: string -> int, i: nat, j: nat)
    requires i < j < |rows| && rows[i].id.None? && rows[j].id.None?
    ensures ToSourceItems(rows, now, parseDate)[i].id != ToSourceItems(rows, now, parseDate)[j].id
  {
    var a, b := "tw:" + Decimal(i), "tw:" + Decimal(j);
    if a == b {
      assert Decimal(i) == a[3..] && Decimal(j) == b[3..];
      RadixInjective(i, j, 10);
    }
  }
}
