/**
 * The text handling of packages/lib/render/og.ts: the card's title and
 * summary are shortened, then escaped for the SVG markup. Rendering the SVG
 * to PNG is not part of this model.
 */
module Og {
  import opened Wrappers
  import opened Seqs
  import opened TextUtil

  const TitleLimit: int := 100
  const SummaryLimit: int := 180

  /** The suffix written on og.ts:33: the UTF-8 bytes of U+2026 read as three Windows-1252 characters. */
  const MisencodedEllipsis: string := "â€¦"

  /** `truncate(s, n)` exactly as written, with the mis-encoded three-character suffix. */
  function TruncateAsWritten(s: string, n: int): (r: string)
    ensures |s| <= n ==> r == s
    ensures |s| > n >= 1 ==> r == s[..n - 1] + MisencodedEllipsis
  {
    if |s| > n then SliceTo(s, n - 1) + MisencodedEllipsis else s
  }

  /** As written, a string longer than the limit comes out two characters longer than the limit. */
  lemma TruncateOverflows(s: string, n: int)
    requires |s| > n >= 1
    ensures |TruncateAsWritten(s, n)| == n + 2
  {
  }

  /** A concrete case: a 101-character title becomes 102 characters. */
  lemma TruncateOverflowsTitle(s: string)
    requires |s| == 101
    ensures |TruncateAsWritten(s, TitleLimit)| == TitleLimit + 2
  {
  }

  /** The intended `truncate`: the same cut, with the single character U+2026, which keeps the result within the limit. */
  function Truncate(s: string, n: int): (r: string)
    ensures |s| <= n ==> r == s
    ensures |s| > n >= 1 ==> |r| == n && r == s[..n - 1] + [Ellipsis]
    ensures n >= 1 ==> |r| <= n
  {
    Clip(s, n)
  }

  /** `s.replace(/c/g, rep)` for a one-character pattern `c`. */
  function ReplaceChar(s: string, c: char, rep: string): string
    decreases |s|
  {
    if s == [] then [] else (if s[0] == c then rep else [s[0]]) + ReplaceChar(s[1..], c, rep)
  }

  lemma {:induction false} ReplaceCharConcat(a: string, b: string, c: char, rep: string)
    ensures ReplaceChar(a + b, c, rep) == ReplaceChar(a, c, rep) + ReplaceChar(b, c, rep)
    decreases |a|
  {
    if a == [] {
      assert a + b == b;
    } else {
      var h := if a[0] == c then rep else [a[0]];
      assert (a + b)[0] == a[0] && (a + b)[1..] == a[1..] + b;
      ReplaceCharConcat(a[1..], b, c, rep);
      calc {
        ReplaceChar(a + b, c, rep);
        h + ReplaceChar(a[1..] + b, c, rep);
        h + (ReplaceChar(a[1..], c, rep) + ReplaceChar(b, c, rep));
        (h + ReplaceChar(a[1..], c, rep)) + ReplaceChar(b, c, rep);
      }
    }
  }

  lemma {:induction false} ReplaceCharAbsent(s: string, c: char, rep: string)
    requires c !in s
    ensures ReplaceChar(s, c, rep) == s
    decreases |s|
  {
    if s != [] {
      ReplaceCharAbsent(s[1..], c, rep);
      assert s == [s[0]] + s[1..];
    }
  }

  lemma ReplaceCharSingle(x: char, c: char, rep: string)
    ensures ReplaceChar([x], c, rep) == if x == c then rep else [x]
  {
    assert [x][1..] == [];
  }

  /** A list of replaces, each a character and the entity standing for it, applied in list order. */
  type Table = seq<(char, string)>

  /** The replaces of `escapeHtml`, in the order it chains them. */
  const Entities: Table := [('&', "&amp;"), ('<', "&lt;"), ('>', "&gt;"), ('"', "&quot;"), ('\'', "&#039;")]

  /** The chained `.replace` calls: one global replace per table entry, first entry first. */
  function Passes(s: string, t: Table): string
    decreases |t|
  {
    if t == [] then s else Passes(ReplaceChar(s, t[0].0, t[0].1), t[1..])
  }

  /** `escapeHtml(s)`. */
  function EscapeHtml(s: string): string {
    Passes(s, Entities)
  }

  /** The entity of the first entry for `c`, or `c` itself when no entry is for it. */
  function Lookup(c: char, t: Table): string
    decreases |t|
  {
    if t == [] then [c] else if t[0].0 == c then t[0].1 else Lookup(c, t[1..])
  }

  /** The reference definition: every character replaced by its entity, independently of the others. */
  function EscapeEach(s: string, t: Table): string
    decreases |s|
  {
    if s == [] then [] else Lookup(s[0], t) + EscapeEach(s[1..], t)
  }

  /**
   * What makes the chain of replaces a per-character escape that can be
   * decoded: distinct characters; no entity holds a character replaced after
   * it (so `&` must come first); every entity has at least two characters,
   * starts with the first entry's character and differs from the others in
   * its second one.
   */
  predicate Codec(t: Table) {
    && t != []
    && Ordered(t)
    && (forall i :: 0 <= i < |t| ==> |t[i].1| >= 2 && t[i].1[0] == t[0].0)
    && (forall i, j :: 0 <= i < j < |t| ==> t[i].1[1] != t[j].1[1])
  }

  lemma EntitiesOrdered()
    ensures Ordered(Entities)
  {
    var t := Entities;
    forall i, j | 0 <= i < j < |t| ensures t[i].0 != t[j].0 && t[j].0 !in t[i].1 {
      EntityFacts(i);
      EntityFacts(j);
    }
  }

  /** The five entries written out. */
  lemma EntityFacts(i: nat)
    requires i < |Entities|
    ensures var e := Entities[i].1; |e| >= 2 && e[0] == '&'
    ensures i == 0 ==> Entities[i] == ('&', "&amp;")
    ensures i == 1 ==> Entities[i] == ('<', "&lt;") && Entities[i].1[1] == 'l'
    ensures i == 2 ==> Entities[i] == ('>', "&gt;") && Entities[i].1[1] == 'g'
    ensures i == 3 ==> Entities[i] == ('"', "&quot;") && Entities[i].1[1] == 'q'
    ensures i == 4 ==> Entities[i] == ('\'', "&#039;") && Entities[i].1[1] == '#'
    ensures i == 0 ==> Entities[i].1[1] == 'a'
  {
  }

  lemma EntitiesCodec()
    ensures Codec(Entities)
  {
    var t := Entities;
    EntitiesOrdered();
    forall i | 0 <= i < |t| ensures |t[i].1| >= 2 && t[i].1[0] == t[0].0 {
      EntityFacts(i);
      EntityFacts(0);
    }
    forall i, j | 0 <= i < j < |t| ensures t[i].1[1] != t[j].1[1] {
      EntityFacts(i);
      EntityFacts(j);
    }
  }

  lemma {:induction false} PassesConcat(a: string, b: string, t: Table)
    ensures Passes(a + b, t) == Passes(a, t) + Passes(b, t)
    decreases |t|
  {
    if t != [] {
      ReplaceCharConcat(a, b, t[0].0, t[0].1);
      PassesConcat(ReplaceChar(a, t[0].0, t[0].1), ReplaceChar(b, t[0].0, t[0].1), t[1..]);
    }
  }

  lemma {:induction false} PassesAbsent(s: string, t: Table)
    requires forall i :: 0 <= i < |t| ==> t[i].0 !in s
    ensures Passes(s, t) == s
    decreases |t|
  {
    if t != [] {
      assert t[0].0 !in s;
      ReplaceCharAbsent(s, t[0].0, t[0].1);
      assert forall i :: 0 <= i < |t[1..]| ==> t[1..][i] == t[i + 1];
      PassesAbsent(s, t[1..]);
    }
  }

  lemma {:induction false} PassesEmpty(t: Table)
    ensures Passes([], t) == []
    decreases |t|
  {
    if t != [] {
      PassesEmpty(t[1..]);
    }
  }

  /** What the passes need of the table: distinct characters, and no entity holding a character replaced after it. */
  predicate Ordered(t: Table) {
    forall i, j :: 0 <= i < j < |t| ==> t[i].0 != t[j].0 && t[j].0 !in t[i].1
  }

  lemma OrderedTail(t: Table)
    requires t != [] && Ordered(t)
    ensures Ordered(t[1..])
    ensures forall i :: 0 <= i < |t[1..]| ==> t[1..][i].0 !in t[0].1 && t[1..][i].0 != t[0].0
  {
    forall i, j | 0 <= i < j < |t| - 1
      ensures t[1..][i].0 != t[1..][j].0 && t[1..][j].0 !in t[1..][i].1
    {
      assert t[1..][i] == t[i + 1] && t[1..][j] == t[j + 1];
    }
    forall i | 0 <= i < |t| - 1
      ensures t[1..][i].0 !in t[0].1 && t[1..][i].0 != t[0].0
    {
      assert t[1..][i] == t[i + 1];
    }
  }

  /** One character goes through the passes as `Lookup` says. */
  lemma {:induction false} PassesSingle(x: char, t: Table)
    requires Ordered(t)
    ensures Passes([x], t) == Lookup(x, t)
    decreases |t|
  {
    if t != [] {
      OrderedTail(t);
      ReplaceCharSingle(x, t[0].0, t[0].1);
      if x == t[0].0 {
        PassesAbsent(t[0].1, t[1..]);
      } else {
        PassesSingle(x, t[1..]);
      }
    }
  }

  /** The chain of replaces equals the per-character escape. */
  lemma {:induction false} PassesIsEach(s: string, t: Table)
    requires Ordered(t)
    ensures Passes(s, t) == EscapeEach(s, t)
    decreases |s|
  {
    if s == [] {
      PassesEmpty(t);
    } else {
      assert s == [s[0]] + s[1..];
      PassesConcat([s[0]], s[1..], t);
      PassesSingle(s[0], t);
      PassesIsEach(s[1..], t);
    }
  }

  lemma EscapeIsEach(s: string)
    ensures EscapeHtml(s) == EscapeEach(s, Entities)
  {
    EntitiesOrdered();
    PassesIsEach(s, Entities);
  }

  /** A string without any of `& < > " '` is left as it is. */
  lemma EscapeIdentity(s: string)
    requires forall k :: 0 <= k < |s| ==> s[k] !in "&<>\"'"
    ensures EscapeHtml(s) == s
  {
    var t := Entities;
    forall i | 0 <= i < |t| ensures t[i].0 !in s {
      assert t[i].0 in "&<>\"'";
    }
    PassesAbsent(s, t);
  }

  /** Either `c` has an entry and `Lookup` gives its entity, or it has none and stays itself. */
  lemma {:induction false} LookupCases(c: char, t: Table)
    ensures || (exists i :: 0 <= i < |t| && t[i].0 == c && Lookup(c, t) == t[i].1)
            || ((forall i :: 0 <= i < |t| ==> t[i].0 != c) && Lookup(c, t) == [c])
    decreases |t|
  {
    if t != [] && t[0].0 != c {
      LookupCases(c, t[1..]);
      assert forall i :: 0 <= i < |t[1..]| ==> t[1..][i] == t[i + 1];
      if exists i :: 0 <= i < |t[1..]| && t[1..][i].0 == c && Lookup(c, t[1..]) == t[1..][i].1 {
        var i :| 0 <= i < |t[1..]| && t[1..][i].0 == c && Lookup(c, t[1..]) == t[1..][i].1;
        assert t[i + 1].0 == c && Lookup(c, t) == t[i + 1].1;
      } else {
        forall i | 0 <= i < |t| ensures t[i].0 != c {
          if i > 0 {
            assert t[i] == t[1..][i - 1];
          }
        }
      }
    }
  }

  predicate Unsafe(c: char) {
    c == '<' || c == '>' || c == '"' || c == '\''
  }

  lemma EntitySafe(c: char)
    ensures forall k :: 0 <= k < |Lookup(c, Entities)| ==> !Unsafe(Lookup(c, Entities)[k])
  {
    var t := Entities;
    LookupCases(c, t);
    assert t[0].1 == "&amp;" && t[1].1 == "&lt;" && t[2].1 == "&gt;" && t[3].1 == "&quot;" && t[4].1 == "&#039;";
    if forall i :: 0 <= i < |t| ==> t[i].0 != c {
      assert t[1].0 != c && t[2].0 != c && t[3].0 != c && t[4].0 != c;
    }
  }

  lemma {:induction false} EscapeEachSafe(s: string)
    ensures forall k :: 0 <= k < |EscapeEach(s, Entities)| ==> !Unsafe(EscapeEach(s, Entities)[k])
    decreases |s|
  {
    if s != [] {
      EscapeEachSafe(s[1..]);
      EntitySafe(s[0]);
      var h, t := Lookup(s[0], Entities), EscapeEach(s[1..], Entities);
      assert EscapeEach(s, Entities) == h + t;
    }
  }

  /** The escaped text holds none of `< > " '`. */
  lemma EscapeSafe(s: string)
    ensures forall k :: 0 <= k < |EscapeHtml(s)| ==> !Unsafe(EscapeHtml(s)[k])
  {
    EscapeIsEach(s);
    EscapeEachSafe(s);
  }

  /** `p` is a non-empty prefix of `s`. */
  predicate IsPrefix(p: string, s: string) {
    0 < |p| <= |s| && s[..|p|] == p
  }

  /** The first entry whose entity starts `s`. */
  function Match(s: string, t: Table): (r: Option<nat>)
    ensures r.Some? ==> r.value < |t| && IsPrefix(t[r.value].1, s)
    ensures r.Some? ==> forall j :: 0 <= j < r.value ==> !IsPrefix(t[j].1, s)
    ensures r.None? ==> forall j :: 0 <= j < |t| ==> !IsPrefix(t[j].1, s)
    decreases |t|
  {
    if t == [] then None
    else if IsPrefix(t[0].1, s) then Some(0)
    else
      var m := Match(s, t[1..]);
      assert forall j :: 0 < j < |t| ==> t[j] == t[1..][j - 1];
      if m.None? then None else Some(m.value + 1)
  }

  /** Decoding: each entity at the front becomes its character; any other character stands for itself. */
  function Decode(s: string, t: Table): string
    decreases |s|
  {
    if s == [] then []
    else
      var m := Match(s, t);
      if m.Some? then [t[m.value].0] + Decode(s[|t[m.value].1|..], t) else [s[0]] + Decode(s[1..], t)
  }

  /** Decoding of the five entities `escapeHtml` writes. */
  function Unescape(s: string): string {
    Decode(s, Entities)
  }

  lemma DecodeStep(x: char, rest: string, t: Table)
    requires Codec(t)
    ensures Decode(Lookup(x, t) + rest, t) == [x] + Decode(rest, t)
  {
    var e := Lookup(x, t) + rest;
    LookupCases(x, t);
    if exists i :: 0 <= i < |t| && t[i].0 == x && Lookup(x, t) == t[i].1 {
      var i :| 0 <= i < |t| && t[i].0 == x && Lookup(x, t) == t[i].1;
      assert e[..|t[i].1|] == t[i].1;
      assert e[1] == t[i].1[1];
      forall j | 0 <= j < |t| && j != i ensures !IsPrefix(t[j].1, e) {
        assert t[j].1[1] != t[i].1[1];
      }
      assert Match(e, t) == Some(i);
      assert e[|t[i].1|..] == rest;
    } else {
      assert e[0] == x && e[1..] == rest;
      forall j | 0 <= j < |t| ensures !IsPrefix(t[j].1, e) {
        assert t[j].1[0] == t[0].0 != x;
      }
    }
  }

  lemma {:induction false} DecodeEach(s: string, t: Table)
    requires Codec(t)
    ensures Decode(EscapeEach(s, t), t) == s
    decreases |s|
  {
    if s != [] {
      DecodeEach(s[1..], t);
      DecodeEachStep(s, t);
    }
  }

  lemma DecodeEachStep(s: string, t: Table)
    requires Codec(t) && s != [] && Decode(EscapeEach(s[1..], t), t) == s[1..]
    ensures Decode(EscapeEach(s, t), t) == s
  {
    var rest := EscapeEach(s[1..], t);
    assert EscapeEach(s, t) == Lookup(s[0], t) + rest;
    DecodeStep(s[0], rest, t);
    assert s == [s[0]] + s[1..];
  }

  /** Because `&` is replaced first, decoding the five entities gives back the original text. */
  lemma EscapeRoundTrip(s: string)
    ensures Unescape(EscapeHtml(s)) == s
  {
    EntitiesCodec();
    EscapeIsEach(s);
    DecodeEach(s, Entities);
  }

  /**
   * The title and summary placed in the card as written: shortened by the
   * as-written `truncate`, so a long title comes out at 102 characters and a
   * long summary at 182, then escaped.
   */
  function CardText(title: string, summary: string): (r: (string, string))
    ensures Unescape(r.0) == TruncateAsWritten(title, TitleLimit)
    ensures Unescape(r.1) == TruncateAsWritten(summary, SummaryLimit)
    ensures |title| <= TitleLimit ==> Unescape(r.0) == title
    ensures |title| > TitleLimit ==> |Unescape(r.0)| == TitleLimit + 2
    ensures |summary| <= SummaryLimit ==> Unescape(r.1) == summary
    ensures |summary| > SummaryLimit ==> |Unescape(r.1)| == SummaryLimit + 2
    ensures forall k :: 0 <= k < |r.0| ==> !Unsafe(r.0[k])
    ensures forall k :: 0 <= k < |r.1| ==> !Unsafe(r.1[k])
  {
    var t, u := TruncateAsWritten(title, TitleLimit), TruncateAsWritten(summary, SummaryLimit);
    EscapeRoundTrip(t);
    EscapeRoundTrip(u);
    EscapeSafe(t);
    EscapeSafe(u);
    (EscapeHtml(t), EscapeHtml(u))
  }

  /** The intended card text: shortened by the corrected `truncate` to at most 100 and 180 characters, then escaped. */
  function CorrectedCardText(title: string, summary: string): (r: (string, string))
    ensures Unescape(r.0) == Truncate(title, TitleLimit) && |Unescape(r.0)| <= TitleLimit
    ensures Unescape(r.1) == Truncate(summary, SummaryLimit) && |Unescape(r.1)| <= SummaryLimit
    ensures |title| <= TitleLimit ==> Unescape(r.0) == title
    ensures |summary| <= SummaryLimit ==> Unescape(r.1) == summary
    ensures forall k :: 0 <= k < |r.0| ==> !Unsafe(r.0[k])
    ensures forall k :: 0 <= k < |r.1| ==> !Unsafe(r.1[k])
  {
    var t, u := Truncate(title, TitleLimit), Truncate(summary, SummaryLimit);
    EscapeRoundTrip(t);
    EscapeRoundTrip(u);
    EscapeSafe(t);
    EscapeSafe(u);
    (EscapeHtml(t), EscapeHtml(u))
  }
}
