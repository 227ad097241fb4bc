/**
 * The records that flow between the pipeline stages (packages/plugins/emoji/types.ts,
 * packages/core/types.ts and the zod shapes of packages/core/ports.ts).
 * An optional field is an `Option`; timestamps are epoch milliseconds.
 */
module Types {
  import opened Wrappers

  /** One row of the reservoir. A row without a URL has the empty string as `url`. */
  datatype ReservoirRow = ReservoirRow(text: string, url: string, lang: Option<string>, createdAt: Option<string>)

  /** A validated source item, the shape the `SourceItem` schema produces. */
  datatype SourceItem = SourceItem(
    id: string, niche: string, term: string, lang: string, text: string, sourceUrl: string,
    likes: int, shares: int, comments: int, firstSeenAt: int, mediaUrl: Option<string>)

  /** The sections of an explainer draft (the `DraftExplainer` schema). */
  datatype Sections = Sections(
    meaning: string, origin: string, usage: seq<string>,
    variants: Option<seq<string>>, notes: Option<string>)

  datatype DraftExplainer = DraftExplainer(title: string, summary: string, sections: Sections)

  /** The set of URLs of some rows. */
  function Urls(rows: seq<ReservoirRow>): (u: set<string>)
    ensures forall i :: 0 <= i < |rows| ==> rows[i].url in u
  {
    if rows == [] then {}
    else
      var init := rows[..|rows| - 1];
      var u := Urls(init) + {rows[|rows| - 1].url};
      assert forall i :: 0 <= i < |init| ==> init[i] == rows[i];
      u
  }

  /** Every URL in `Urls(rows)` is the URL of one of the rows. */
  lemma {:induction false} UrlsSound(rows: seq<ReservoirRow>, x: string)
    requires x in Urls(rows)
    ensures exists i :: 0 <= i < |rows| && rows[i].url == x
    decreases |rows|
  {
    var init := rows[..|rows| - 1];
    if x != rows[|rows| - 1].url {
      UrlsSound(init, x);
      var i :| 0 <= i < |init| && init[i].url == x;
      assert rows[i] == init[i];
    }
  }

  /** A URL that no row has is not in `Urls(rows)`. */
  lemma {:induction false} UrlsAbsent(rows: seq<ReservoirRow>, x: string)
    requires forall i :: 0 <= i < |rows| ==> rows[i].url != x
    ensures x !in Urls(rows)
    decreases |rows|
  {
    if rows != [] {
      var init := rows[..|rows| - 1];
      assert forall i :: 0 <= i < |init| ==> init[i] == rows[i];
      UrlsAbsent(init, x);
    }
  }
}
