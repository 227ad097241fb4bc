/**
 * The pure part of the OpenAI adapter (packages/adapters/llm/openai.ts): how
 * a reply's text is cut down to its JSON, how the parsed value is repaired
 * into an explainer draft, and how a failed request is classified. The
 * request itself is an input: its reply content or its failure.
 */
module OpenAi {
  import opened Wrappers
  import opened JsText
  import opened Seqs
  import opened Types

  // ---- extractJson ----

  /** Three backticks start at `k`. */
  predicate IsFence(t: string, k: nat) {
    k + 3 <= |t| && t[k] == '`' && t[k + 1] == '`' && t[k + 2] == '`'
  }

  /** The first backtick fence at or after `k`. */
  function NextFence(t: string, k: nat): (r: Option<nat>)
    ensures r.Some? ==> k <= r.value && IsFence(t, r.value)
    ensures r.Some? ==> forall m :: k <= m < r.value ==> !IsFence(t, m)
    ensures r.None? ==> forall m :: k <= m ==> !IsFence(t, m)
    decreases |t| - k
  {
    if k + 3 > |t| then None else if IsFence(t, k) then Some(k) else NextFence(t, k + 1)
  }

  /** `json` at `k`, letters compared without case (the `i` flag). */
  predicate IsJsonTag(t: string, k: nat) {
    k + 4 <= |t| && LowerChar(t[k]) == 'j' && LowerChar(t[k + 1]) == 's'
    && LowerChar(t[k + 2]) == 'o' && LowerChar(t[k + 3]) == 'n'
  }

  /**
   * The match of /```(?:json)?\n([\s\S]*?)```/ starting at `p`, as the
   * bounds of its captured body: the tagged form is tried first, and the body
   * ends at the first fence after it.
   */
  function FenceAt(t: string, p: nat): (r: Option<(nat, nat)>)
    ensures r.Some? ==> IsFence(t, p) && p + 4 <= r.value.0 <= r.value.1 && IsFence(t, r.value.1)
    ensures r.Some? ==> t[r.value.0 - 1] == '\n' && forall m :: r.value.0 <= m < r.value.1 ==> !IsFence(t, m)
  {
    if !IsFence(t, p) then None
    else if IsJsonTag(t, p + 3) && p + 7 < |t| && t[p + 7] == '\n' && NextFence(t, p + 8).Some? then
      Some((p + 8, NextFence(t, p + 8).value))
    else if p + 3 < |t| && t[p + 3] == '\n' && NextFence(t, p + 4).Some? then
      Some((p + 4, NextFence(t, p + 4).value))
    else None
  }

  /** The leftmost match at or after `p`: where it starts and the bounds of its body. */
  function FirstFence(t: string, p: nat): (r: Option<(nat, nat, nat)>)
    ensures r.Some? ==> p <= r.value.0 && FenceAt(t, r.value.0) == Some((r.value.1, r.value.2))
    ensures r.Some? ==> forall m :: p <= m < r.value.0 ==> FenceAt(t, m).None?
    ensures r.None? ==> forall m :: p <= m ==> FenceAt(t, m).None?
    decreases |t| - p
  {
    if p + 3 > |t| then None
    else match FenceAt(t, p)
      case Some(be) => Some((p, be.0, be.1))
      case None => FirstFence(t, p + 1)
  }

  lemma {:induction false} FirstFenceNone(t: string, p: nat)
    requires forall m :: 0 <= m < |t| ==> FenceAt(t, m).None?
    ensures FirstFence(t, p).None?
    decreases |t| - p
  {
    if p + 3 <= |t| {
      assert FenceAt(t, p).None?;
      FirstFenceNone(t, p + 1);
    }
  }

  /** A `{` occurs, a `}` occurs, and the last `}` comes after the first `{`. */
  predicate HasBraces(t: string) {
    '{' in t && '}' in t && LastIndexOf(t, '}') > IndexOf(t, '{')
  }

  /** `extractJson(text)`. */
  function ExtractJson(t: string): string {
    match FirstFence(t, 0)
    case Some(f) => Trim(t[f.1..f.2])
    case None =>
      if HasBraces(t) then t[IndexOf(t, '{')..LastIndexOf(t, '}') + 1] else Trim(t)
  }

  /**
   * With a fenced block, the result is the trimmed body of the leftmost one;
   * the body holds no fence of its own.
   */
  lemma ExtractFenced(t: string, p: nat, b: nat, e: nat)
    requires FenceAt(t, p) == Some((b, e)) && forall m :: 0 <= m < p ==> FenceAt(t, m).None?
    ensures ExtractJson(t) == Trim(t[b..e])
    ensures forall m :: b <= m < e ==> !IsFence(t, m)
  {
    var f := FirstFence(t, 0);
    assert f.Some? && f.value.0 == p;
  }

  /**
   * With no fenced block but a `{` before a later `}`, the result is the span
   * from the first `{` to the last `}`: it starts with `{`, ends with `}`, and
   * no `{` comes before it or `}` after it.
   */
  lemma ExtractBraces(t: string)
    requires forall m :: 0 <= m < |t| ==> FenceAt(t, m).None?
    requires HasBraces(t)
    ensures var r, i := ExtractJson(t), IndexOf(t, '{');
      && i + |r| <= |t| && r == t[i..i + |r|] && '{' !in t[..i] && '}' !in t[i + |r|..]
    ensures var r := ExtractJson(t); |r| >= 2 && r[0] == '{' && r[|r| - 1] == '}'
  {
    FirstFenceNone(t, 0);
    BracesResult(t);
  }

  lemma BracesResult(t: string)
    requires FirstFence(t, 0).None? && HasBraces(t)
    ensures var r, i := ExtractJson(t), IndexOf(t, '{');
      && i + |r| <= |t| && r == t[i..i + |r|] && '{' !in t[..i] && '}' !in t[i + |r|..]
    ensures var r := ExtractJson(t); |r| >= 2 && r[0] == '{' && r[|r| - 1] == '}'
  {
    var r := t[IndexOf(t, '{')..LastIndexOf(t, '}') + 1];
    ExtractUnfenced(t);
    assert ExtractJson(t) == r;
    BracesSpan(t);
  }

  lemma ExtractUnfenced(t: string)
    requires FirstFence(t, 0).None?
    ensures ExtractJson(t) == if HasBraces(t) then t[IndexOf(t, '{')..LastIndexOf(t, '}') + 1] else Trim(t)
  {
  }

  /** The span from the first `{` to the last `}`. */
  lemma BracesSpan(t: string)
    requires HasBraces(t)
    ensures var i, j := IndexOf(t, '{'), LastIndexOf(t, '}'); var r := t[i..j + 1];
      && i + |r| <= |t| && r == t[i..i + |r|] && '{' !in t[..i] && '}' !in t[i + |r|..]
      && |r| >= 2 && r[0] == '{' && r[|r| - 1] == '}'
  {
  }

  /** With neither a fenced block nor a `{` before a later `}`, the result is the trimmed text. */
  lemma ExtractPlain(t: string)
    requires forall m :: 0 <= m < |t| ==> FenceAt(t, m).None?
    requires !HasBraces(t)
    ensures ExtractJson(t) == Trim(t)
  {
    FirstFenceNone(t, 0);
    ExtractUnfenced(t);
  }

  lemma NoBacktickNoFence(t: string)
    requires '`' !in t
    ensures forall m :: 0 <= m < |t| ==> FenceAt(t, m).None?
  {
    forall m | 0 <= m < |t| ensures t[m] != '`' {
      assert t[m] in t;
    }
  }

  /** A bare object text (it starts with `{`, ends with `}` and has no backtick) is returned as it is. */
  lemma ExtractObject(t: string)
    requires '`' !in t && |t| >= 2 && t[0] == '{' && t[|t| - 1] == '}'
    ensures ExtractJson(t) == t
  {
    NoBacktickNoFence(t);
    IndexOfAt(t, '{', 0);
    assert t[|t| - 1..] == [t[|t| - 1]];
    assert LastIndexOf(t, '}') == |t| - 1;
    FirstFenceNone(t, 0);
    assert t[0..|t|] == t;
  }

  /** A body wrapped in a tagged fence comes back trimmed, whatever backtick-free text comes before the fence. */
  lemma ExtractFromFence(before: string, body: string, after: string)
    requires '`' !in before && '`' !in body
    ensures ExtractJson(before + "```json\n" + body + "```" + after) == Trim(body)
  {
    var t := before + "```json\n" + body + "```" + after;
    var p := |before|;
    WrappedParts(t, before, body, after);
    NoFenceBefore(t, before);
    FenceOfWrapped(t, p, body);
    ExtractFenced(t, p, p + 8, p + 8 + |body|);
  }

  lemma WrappedParts(t: string, before: string, body: string, after: string)
    requires t == before + "```json\n" + body + "```" + after
    ensures var p := |before|;
      && p + 11 + |body| <= |t|
      && t[..p] == before && t[p..p + 8] == "```json\n"
      && t[p + 8..p + 8 + |body|] == body && t[p + 8 + |body|..p + 11 + |body|] == "```"
  {
  }

  lemma NoFenceBefore(t: string, before: string)
    requires |before| <= |t| && t[..|before|] == before && '`' !in before
    ensures forall m :: 0 <= m < |before| ==> FenceAt(t, m).None?
  {
    forall m | 0 <= m < |before| ensures !IsFence(t, m) {
      assert t[m] == before[m];
    }
  }

  lemma FenceOfWrapped(t: string, p: nat, body: string)
    requires p + 11 + |body| <= |t| && '`' !in body
    requires t[p..p + 8] == "```json\n" && t[p + 8..p + 8 + |body|] == body && t[p + 8 + |body|..p + 11 + |body|] == "```"
    ensures FenceAt(t, p) == Some((p + 8, p + 8 + |body|))
  {
    var e := p + 8 + |body|;
    forall m | p + 8 <= m < e ensures !IsFence(t, m) {
      assert t[m] == body[m - p - 8];
    }
    assert t[e] == t[p + 8 + |body|..p + 11 + |body|][0];
    assert t[e + 1] == t[p + 8 + |body|..p + 11 + |body|][1];
    assert t[e + 2] == t[p + 8 + |body|..p + 11 + |body|][2];
    assert IsFence(t, e);
    assert NextFence(t, p + 8) == Some(e);
    assert forall k :: 0 <= k < 8 ==> t[p + k] == "```json\n"[k];
    assert IsFence(t, p) && IsJsonTag(t, p + 3);
  }

  // ---- parsed JSON values ----

  /** A value `JSON.parse` can produce; a number is held as the text `String()` gives for it. */
  datatype Json =
    | JNull
    | JBool(b: bool)
    | JNum(repr: string)
    | JStr(s: string)
    | JArr(items: seq<Json>)
    | JObj(fields: map<string, Json>)

  /** `String(v)`: arrays are joined with `,` (null elements give the empty string), objects give "[object Object]". */
  function ToStr(v: Json): string
    decreases v
  {
    match v
    case JNull => "null"
    case JBool(b) => if b then "true" else "false"
    case JNum(r) => r
    case JStr(s) => s
    case JArr(items) =>
      Join(seq(|items|, i requires 0 <= i < |items| => if items[i].JNull? then "" else ToStr(items[i])), ",")
    case JObj(_) => "[object Object]"
  }

  /** A property read: `None` is `undefined`. */
  function Field(f: map<string, Json>, k: string): Option<Json> {
    if k in f then Some(f[k]) else None
  }

  /** JavaScript truthiness of a property read. */
  predicate Truthy(o: Option<Json>) {
    o.Some? && match o.value
      case JNull => false
      case JBool(b) => b
      case JNum(r) => r != "0"
      case JStr(s) => s != ""
      case _ => true
  }

  /** `x == null`: undefined or null. */
  predicate Nullish(o: Option<Json>) {
    o.None? || o.value.JNull?
  }

  /** `String(x ?? "")`. */
  function StrOr(o: Option<Json>): (r: string)
    ensures Nullish(o) ==> r == ""
  {
    if Nullish(o) then "" else ToStr(o.value)
  }

  /** `typeof x !== "string" ? String(x ?? "") : x`. */
  function AsString(o: Option<Json>): (r: string)
    ensures o.Some? && o.value.JStr? ==> r == o.value.s
    ensures Nullish(o) ==> r == ""
  {
    if o.Some? && o.value.JStr? then o.value.s else StrOr(o)
  }

  /** `items.map(x => String(x))`. */
  function StrItems(items: seq<Json>): (r: seq<string>)
    ensures |r| == |items| && forall i :: 0 <= i < |items| ==> r[i] == ToStr(items[i])
  {
    seq(|items|, i requires 0 <= i < |items| => ToStr(items[i]))
  }

  /** What the explainer schema rejects, and the `TypeError` of setting a property on a primitive (module code is strict). */
  datatype LlmError = TypeError | SchemaFailed

  /** The repair when `sections` is missing or falsy: built from top-level `meaning`, `origin` and `usage`. */
  function RepairSections(f: map<string, Json>): Json {
    var usage := Field(f, "usage");
    var items := if usage.Some? && usage.value.JArr? then SliceTo(StrItems(usage.value.items), 3) else [];
    JObj(map[
      "meaning" := JStr(StrOr(Field(f, "meaning"))),
      "origin" := JStr(StrOr(Field(f, "origin"))),
      "usage" := JArr(seq(|items|, i requires 0 <= i < |items| => JStr(items[i])))])
  }

  /** Lines 66-68: a truthy non-array becomes a one-element list, a falsy value the empty list, then strings, at most 3. */
  function NormalizeUsage(u: Option<Json>): (r: seq<string>)
    ensures |r| <= 3
    ensures !Truthy(u) ==> r == []
    ensures Truthy(u) && !u.value.JArr? ==> r == [ToStr(u.value)]
    ensures Truthy(u) && u.value.JArr? ==> r == SliceTo(StrItems(u.value.items), 3)
  {
    var list := if !Truthy(u) then [] else if u.value.JArr? then u.value.items else [JStr(ToStr(u.value))];
    SliceTo(StrItems(list), 3)
  }

  /** An optional list of strings: null or undefined is absent, a list of strings is kept, anything else fails. */
  function OptStrings(o: Option<Json>): (r: Result<Option<seq<string>>, LlmError>)
    ensures r.Ok? && r.value.None? <==> Nullish(o)
    ensures r.Ok? && r.value.Some? ==> o.Some? && o.value.JArr? && |r.value.value| == |o.value.items|
    ensures r.Ok? && r.value.Some? ==> forall i :: 0 <= i < |o.value.items| ==> o.value.items[i] == JStr(r.value.value[i])
  {
    if Nullish(o) then Ok(None)
    else if o.value.JArr? && forall i :: 0 <= i < |o.value.items| ==> o.value.items[i].JStr? then
      Ok(Some(StrItems(o.value.items)))
    else Err(SchemaFailed)
  }

  /** An optional string: null or undefined is absent, a string is kept, anything else fails. */
  function OptString(o: Option<Json>): (r: Result<Option<string>, LlmError>)
    ensures r.Ok? <==> Nullish(o) || o.value.JStr?
    ensures Nullish(o) ==> r == Ok(None)
    ensures o.Some? && o.value.JStr? ==> r == Ok(Some(o.value.s))
  {
    if Nullish(o) then Ok(None) else if o.value.JStr? then Ok(Some(o.value.s)) else Err(SchemaFailed)
  }

  /** Lines 66-73 on a sections object, then the schema's check of it. */
  function NormalizeSections(sf: map<string, Json>): (r: Result<Sections, LlmError>)
    ensures r.Ok? <==> OptStrings(Field(sf, "variants")).Ok? && OptString(Field(sf, "notes")).Ok?
    ensures r.Ok? ==> |r.value.usage| <= 3
  {
    var variants := OptStrings(Field(sf, "variants"));
    var notes := OptString(Field(sf, "notes"));
    if variants.Err? || notes.Err? then Err(SchemaFailed)
    else
      Ok(Sections(AsString(Field(sf, "meaning")), AsString(Field(sf, "origin")),
                  NormalizeUsage(Field(sf, "usage")), variants.value, notes.value))
  }

  /** The sections the repair step leaves: the value given when truthy, the repaired one otherwise. */
  function SectionsOf(f: map<string, Json>): Json {
    if Truthy(Field(f, "sections")) then f["sections"] else RepairSections(f)
  }

  /** `normalizeAndValidate(raw)`. */
  function NormalizeAndValidate(raw: Json): (r: Result<DraftExplainer, LlmError>)
    ensures r.Ok? ==> |r.value.sections.usage| <= 3
  {
    match raw
    case JObj(f) =>
      (match SectionsOf(f)
       case JObj(sf) =>
         (match NormalizeSections(sf)
          case Ok(s) => Ok(DraftExplainer(AsString(Field(f, "title")), AsString(Field(f, "summary")), s))
          case Err(e) => Err(e))
       case JArr(_) => Err(SchemaFailed)
       case _ => Err(TypeError))
    case JArr(_) => Err(SchemaFailed)
    case _ => Err(TypeError)
  }

  lemma RepairedFields(f: map<string, Json>)
    ensures var sec := RepairSections(f);
      && sec.JObj? && Field(sec.fields, "variants").None? && Field(sec.fields, "notes").None?
      && Field(sec.fields, "meaning") == Some(JStr(StrOr(Field(f, "meaning"))))
      && Field(sec.fields, "origin") == Some(JStr(StrOr(Field(f, "origin"))))
  {
  }

  /** An object's sections fail only on a malformed `variants` or `notes`; a primitive fails on a property write, an array on the schema. */
  lemma NormalizeErrors(raw: Json)
    ensures NormalizeAndValidate(raw).Err? <==>
      || !raw.JObj?
      || !SectionsOf(raw.fields).JObj?
      || !OptStrings(Field(SectionsOf(raw.fields).fields, "variants")).Ok?
      || !OptString(Field(SectionsOf(raw.fields).fields, "notes")).Ok?
  {
  }

  /** A missing `sections` is rebuilt from the top-level fields and never fails. */
  lemma RepairNeverFails(f: map<string, Json>)
    requires !Truthy(Field(f, "sections"))
    ensures NormalizeAndValidate(JObj(f)).Ok?
    ensures var d := NormalizeAndValidate(JObj(f)).value;
      && d.sections.meaning == StrOr(Field(f, "meaning")) && d.sections.origin == StrOr(Field(f, "origin"))
      && d.sections.variants.None? && d.sections.notes.None?
  {
    RepairedFields(f);
  }

  /** The draft of empty strings that `{}` becomes. */
  const EmptyDraft: DraftExplainer := DraftExplainer("", "", Sections("", "", [], None, None))

  /** An empty object is a valid, empty draft. */
  lemma NormalizeEmptyObject()
    ensures NormalizeAndValidate(JObj(map[])) == Ok(EmptyDraft)
  {
    var f: map<string, Json> := map[];
    RepairNeverFails(f);
    var sec := RepairSections(f);
    assert Field(sec.fields, "usage") == Some(JArr([]));
  }

  /** A list of strings as a JSON array. */
  function EncodeStrings(s: seq<string>): Json {
    JArr(seq(|s|, i requires 0 <= i < |s| => JStr(s[i])))
  }

  function EncodeSections(s: Sections): map<string, Json> {
    var base := map["meaning" := JStr(s.meaning), "origin" := JStr(s.origin), "usage" := EncodeStrings(s.usage)];
    var withVariants := if s.variants.Some? then base["variants" := EncodeStrings(s.variants.value)] else base;
    if s.notes.Some? then withVariants["notes" := JStr(s.notes.value)] else withVariants
  }

  /** The JSON object a draft is written as; absent optional fields are left out. */
  function Encode(d: DraftExplainer): (v: Json)
    ensures v.JObj? && Field(v.fields, "sections") == Some(JObj(EncodeSections(d.sections)))
    ensures Field(v.fields, "title") == Some(JStr(d.title)) && Field(v.fields, "summary") == Some(JStr(d.summary))
  {
    JObj(map["title" := JStr(d.title), "summary" := JStr(d.summary), "sections" := JObj(EncodeSections(d.sections))])
  }

  lemma EncodeSectionsFields(s: Sections)
    ensures var sf := EncodeSections(s);
      && Field(sf, "meaning") == Some(JStr(s.meaning)) && Field(sf, "origin") == Some(JStr(s.origin))
      && Field(sf, "usage") == Some(EncodeStrings(s.usage))
      && Field(sf, "variants") == (if s.variants.Some? then Some(EncodeStrings(s.variants.value)) else None)
      && Field(sf, "notes") == (if s.notes.Some? then Some(JStr(s.notes.value)) else None)
  {
  }

  lemma StrItemsEncode(s: seq<string>)
    ensures StrItems(EncodeStrings(s).items) == s
  {
  }

  lemma OptStringsEncode(s: seq<string>)
    ensures OptStrings(Some(EncodeStrings(s))) == Ok(Some(s))
  {
    StrItemsEncode(s);
  }

  lemma NormalizeUsageEncode(s: seq<string>)
    requires |s| <= 3
    ensures NormalizeUsage(Some(EncodeStrings(s))) == s
  {
    StrItemsEncode(s);
  }

  lemma NormalizeSectionsEncode(s: Sections)
    requires |s.usage| <= 3
    ensures NormalizeSections(EncodeSections(s)) == Ok(s)
  {
    EncodeSectionsFields(s);
    NormalizeUsageEncode(s.usage);
    if s.variants.Some? {
      OptStringsEncode(s.variants.value);
    }
  }

  /** A draft the schema accepts comes back unchanged from its JSON: normalization changes nothing valid. */
  lemma NormalizeEncode(d: DraftExplainer)
    requires |d.sections.usage| <= 3
    ensures NormalizeAndValidate(Encode(d)) == Ok(d)
  {
    NormalizeSectionsEncode(d.sections);
    assert SectionsOf(Encode(d).fields) == JObj(EncodeSections(d.sections));
  }

  /** Normalizing is idempotent: what it returns normalizes to itself. */
  lemma NormalizeIdempotent(raw: Json)
    requires NormalizeAndValidate(raw).Ok?
    ensures NormalizeAndValidate(Encode(NormalizeAndValidate(raw).value)) == NormalizeAndValidate(raw)
  {
    NormalizeEncode(NormalizeAndValidate(raw).value);
  }

  // ---- one reply ----

  /** `res.choices?.[0]?.message?.content || "{}"`. */
  function ContentOr(content: Option<string>): (r: string)
    ensures content.Some? && content.value != "" ==> r == content.value
  {
    if content.Some? && content.value != "" then content.value else "{}"
  }

  /**
   * A reply's content through `extractJson`, `JSON.parse` (the `parse`
   * argument; `None` when it throws, which leaves `{}`) and
   * `normalizeAndValidate`.
   */
  function DraftOfReply(content: Option<string>, parse: string -> Option<Json>): Result<DraftExplainer, LlmError> {
    NormalizeAndValidate(RawOfReply(content, parse))
  }

  /** What `parsed` holds before normalizing: the parsed extract of the content, or `{}` when parsing throws. */
  function RawOfReply(content: Option<string>, parse: string -> Option<Json>): Json {
    var parsed := parse(ExtractJson(ContentOr(content)));
    if parsed.Some? then parsed.value else JObj(map[])
  }

  /** An unparsable reply is not an error: it becomes the empty draft. */
  lemma UnparsableReply(content: Option<string>, parse: string -> Option<Json>)
    requires parse(ExtractJson(ContentOr(content))).None?
    ensures DraftOfReply(content, parse) == Ok(EmptyDraft)
  {
    NormalizeEmptyObject();
  }

  /** A missing or empty reply is read as `{}`. */
  lemma EmptyReply(parse: string -> Option<Json>)
    ensures DraftOfReply(None, parse) == DraftOfReply(Some(""), parse)
    ensures ExtractJson(ContentOr(None)) == "{}"
  {
    ExtractObject("{}");
  }

  // ---- failures ----

  /** What a failed request reports: `status`, `code`, `error.code`, and its message (`err.message || String(err)`). */
  datatype Failure = Failure(status: Option<int>, code: Option<string>, errorCode: Option<string>, message: string)

  /** `err?.code || err?.error?.code`. */
  function CodeOf(f: Failure): Option<string> {
    if f.code.Some? && f.code.value != "" then f.code else f.errorCode
  }

  datatype Handling = RetryWithoutSchema | QuotaExceeded | Rethrow

  /** The catch block's tests, in order: a rejected schema is retried without it, then the quota tests, else the error is passed on. */
  function Classify(f: Failure): (h: Handling)
    ensures h == RetryWithoutSchema <==> ContainsIgnoreCase(f.message, "Invalid schema for response_format")
    ensures h == QuotaExceeded <==>
      !ContainsIgnoreCase(f.message, "Invalid schema for response_format")
      && (f.status == Some(429) || CodeOf(f) == Some("insufficient_quota") || ContainsIgnoreCase(f.message, "quota"))
  {
    if ContainsIgnoreCase(f.message, "Invalid schema for response_format") then RetryWithoutSchema
    else if f.status == Some(429) || CodeOf(f) == Some("insufficient_quota") || ContainsIgnoreCase(f.message, "quota") then QuotaExceeded
    else Rethrow
  }

  /** Status 429 is a quota error whatever the code, unless the message reports a rejected schema. */
  lemma RateLimitIsQuota(f: Failure)
    requires f.status == Some(429) && !ContainsIgnoreCase(f.message, "Invalid schema for response_format")
    ensures Classify(f) == QuotaExceeded
  {
  }

  /** The nested `error.code` is read only when `code` is missing or empty. */
  lemma NestedCode(f: Failure)
    requires f.code.None? || f.code == Some("")
    ensures CodeOf(f) == f.errorCode
  {
  }

  /** A failure of no known kind is passed on. */
  lemma OtherFailure(f: Failure)
    requires !ContainsIgnoreCase(f.message, "Invalid schema for response_format") && !ContainsIgnoreCase(f.message, "quota")
    requires f.status != Some(429) && CodeOf(f) != Some("insufficient_quota")
    ensures Classify(f) == Rethrow
  {
  }

  /** How one `draftExplainer` (or `draftExplainerFromPrompt`) call ends. */
  datatype Outcome = Drafted(d: DraftExplainer) | Invalid(e: LlmError) | Quota | Raised(f: Failure)

  function OfDraft(r: Result<DraftExplainer, LlmError>): Outcome {
    if r.Ok? then Drafted(r.value) else Invalid(r.error)
  }

  const SchemaFailedPrefix: string := "OpenAI JSON failed schema: "

  /**
   * The message of the error `normalizeAndValidate(raw)` throws: the schema
   * failure's prefix and the validator's report, or the engine's own message
   * for a property written on a primitive. `text` gives the part the model
   * does not compute (the validator's report, the engine's wording).
   */
  function NormalizeMessage(e: LlmError, raw: Json, text: Json -> string): string {
    if e == SchemaFailed then SchemaFailedPrefix + text(raw) else text(raw)
  }

  /**
   * What reaches the catch block of the first attempt: the request's own
   * failure, or the error normalizing the first reply throws, which carries
   * no status and no code; `None` when the first reply is a valid draft.
   */
  function FirstFailure(first: Result<Option<string>, Failure>, parse: string -> Option<Json>, text: Json -> string): Option<Failure> {
    if first.Err? then Some(first.error)
    else
      var r := DraftOfReply(first.value, parse);
      if r.Ok? then None else Some(Failure(None, None, None, NormalizeMessage(r.error, RawOfReply(first.value, parse), text)))
  }

  /**
   * The call, given the first request's result `first` and the result
   * `retry` of the schema-less request made when the first attempt is
   * rejected for its schema. A valid first reply is the draft. A failure of
   * the first attempt, from the request or from normalizing its reply, is
   * classified: a rejected schema retries once, and neither that retry's
   * failure nor its own normalization error is classified; a quota failure
   * becomes `Quota`; anything else is thrown on as it was.
   */
  function Draft(first: Result<Option<string>, Failure>, retry: Result<Option<string>, Failure>,
                 parse: string -> Option<Json>, text: Json -> string): (o: Outcome)
    ensures FirstFailure(first, parse, text).None? ==>
      first.Ok? && DraftOfReply(first.value, parse).Ok? && o == Drafted(DraftOfReply(first.value, parse).value)
    ensures var f := FirstFailure(first, parse, text);
      f.Some? && Classify(f.value) == QuotaExceeded ==> o == Quota
    ensures var f := FirstFailure(first, parse, text);
      f.Some? && Classify(f.value) == Rethrow ==>
        o == if first.Err? then Raised(first.error) else Invalid(DraftOfReply(first.value, parse).error)
    ensures var f := FirstFailure(first, parse, text);
      f.Some? && Classify(f.value) == RetryWithoutSchema ==>
        o == if retry.Ok? then OfDraft(DraftOfReply(retry.value, parse)) else Raised(retry.error)
  {
    match FirstFailure(first, parse, text)
    case None => OfDraft(DraftOfReply(first.value, parse))
    case Some(f) =>
      match Classify(f)
      case RetryWithoutSchema =>
        (match retry
         case Ok(content) => OfDraft(DraftOfReply(content, parse))
         case Err(g) => Raised(g))
      case QuotaExceeded => Quota
      case Rethrow => if first.Err? then Raised(f) else OfDraft(DraftOfReply(first.value, parse))
  }

  /** The second request is made only after a schema rejection: otherwise its result plays no part. */
  lemma RetryOnlyOnSchema(first: Result<Option<string>, Failure>, r1: Result<Option<string>, Failure>, r2: Result<Option<string>, Failure>,
                          parse: string -> Option<Json>, text: Json -> string)
    requires FirstFailure(first, parse, text).None? || Classify(FirstFailure(first, parse, text).value) != RetryWithoutSchema
    ensures Draft(first, r1, parse, text) == Draft(first, r2, parse, text)
  {
  }

  /**
   * A first reply that is a bare string fails to normalize, and when the
   * message of that failure names a quota, the call ends as a quota error,
   * not as an invalid draft.
   */
  lemma QuotaInFirstReply(content: Option<string>, retry: Result<Option<string>, Failure>,
                          parse: string -> Option<Json>, text: Json -> string, v: string)
    requires parse(ExtractJson(ContentOr(content))) == Some(JStr(v))
    requires ContainsIgnoreCase(text(JStr(v)), "quota") && !ContainsIgnoreCase(text(JStr(v)), "Invalid schema for response_format")
    ensures Draft(Ok(content), retry, parse, text) == Quota
  {
    NormalizeErrors(JStr(v));
    assert DraftOfReply(content, parse).Err?;
  }

  /** A first reply that fails to normalize with a message naming neither a schema rejection nor a quota throws that error on. */
  lemma FirstReplyErrorThrown(content: Option<string>, retry: Result<Option<string>, Failure>,
                              parse: string -> Option<Json>, text: Json -> string)
    requires DraftOfReply(content, parse).Err?
    requires var m := NormalizeMessage(DraftOfReply(content, parse).error, RawOfReply(content, parse), text);
      !ContainsIgnoreCase(m, "Invalid schema for response_format") && !ContainsIgnoreCase(m, "quota")
    ensures Draft(Ok(content), retry, parse, text) == Invalid(DraftOfReply(content, parse).error)
  {
  }
}
