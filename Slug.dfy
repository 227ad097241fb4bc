/**
 * `slugFromEmoji` (packages/plugins/emoji/util/slug.ts): a fixed name for the
 * emoji of a lookup table, otherwise one built from the term's code points in
 * hexadecimal. The table's keys are stored mis-encoded in the source, so the
 * table is a parameter here: `table[term]` is the name listed for `term`.
 */
module Slug {
  import opened JsText

  const Prefix: string := "what-does-"
  const Suffix: string := "-mean"
  const FallbackTag: string := "emoji-u"

  /** `(ch.codePointAt(0) || 0).toString(16)`. */
  function CodePointHex(c: char): string {
    Radix(c as nat, 16)
  }

  /** `Array.from(term).map(...)`: one piece per code point. */
  function HexCodes(term: string): (r: seq<string>)
    ensures |r| == |term| && forall i :: 0 <= i < |r| ==> r[i] == Radix(term[i] as nat, 16)
  {
    seq(|term|, i requires 0 <= i < |term| => CodePointHex(term[i]))
  }

  function Fallback(term: string): string {
    FallbackTag + Join(HexCodes(term), "-")
  }

  /** `if (map[term])`: the term is listed with a non-empty name. */
  predicate Listed(table: map<string, string>, term: string) {
    term in table && table[term] != ""
  }

  /** `slugFromEmoji(term)` for the lookup table `table`. */
  function SlugFromEmoji(term: string, table: map<string, string>): (r: string)
    ensures |r| >= |Prefix| + |Suffix| && r[..|Prefix|] == Prefix && r[|r| - |Suffix|..] == Suffix
    ensures r[|Prefix|..|r| - |Suffix|] == if Listed(table, term) then table[term] else Fallback(term)
  {
    var middle := if Listed(table, term) then table[term] else Fallback(term);
    var r := Prefix + middle + Suffix;
    assert r[|Prefix|..|r| - |Suffix|] == middle;
    r
  }

  /** The empty term, which no table lists, gets "what-does-emoji-u-mean". */
  lemma EmptyTermSlug(table: map<string, string>)
    requires !Listed(table, "")
    ensures SlugFromEmoji("", table) == "what-does-emoji-u-mean"
  {
    assert HexCodes("") == [];
  }

  /** Hexadecimal digits never include the `-` that separates the pieces. */
  lemma {:induction false} HexHasNoDash(n: nat)
    ensures '-' !in Radix(n, 16)
    decreases n
  {
    if n >= 16 {
      HexHasNoDash(n / 16);
      assert Radix(n, 16) == Radix(n / 16, 16) + [DigitChar(n % 16)];
    }
  }

  /** Two unlisted, non-empty terms with the same slug are the same term: the code-point slug can be read back. */
  lemma FallbackInjective(a: string, b: string, table: map<string, string>)
    requires a != [] && b != [] && !Listed(table, a) && !Listed(table, b)
    requires SlugFromEmoji(a, table) == SlugFromEmoji(b, table)
    ensures a == b
  {
    var ja, jb := Join(HexCodes(a), "-"), Join(HexCodes(b), "-");
    assert Fallback(a) == Fallback(b);
    assert ja == Fallback(a)[|FallbackTag|..] && jb == Fallback(b)[|FallbackTag|..];
    forall i | 0 <= i < |a| ensures '-' !in HexCodes(a)[i] {
      HexHasNoDash(a[i] as nat);
    }
    forall i | 0 <= i < |b| ensures '-' !in HexCodes(b)[i] {
      HexHasNoDash(b[i] as nat);
    }
    JoinSplit(HexCodes(a), '-');
    JoinSplit(HexCodes(b), '-');
    assert HexCodes(a) == HexCodes(b);
    forall i | 0 <= i < |a| ensures a[i] == b[i] {
      RadixInjective(a[i] as nat, b[i] as nat, 16);
    }
  }
}
