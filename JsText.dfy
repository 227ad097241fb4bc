/**
 * The JavaScript string operations the pipeline relies on, written out with
 * their JavaScript meaning: the `\s` and `\w` character classes, `trim`,
 * `split` on one character, `join`, ASCII `toLowerCase`, `Number.prototype.toString(radix)`
 * and the `Number(string)` conversion for decimal integers, and `Math.round`.
 *
 * A Dafny `char` is one Unicode code point and lengths are counted in code
 * points. JavaScript counts UTF-16 code units; the two agree on every text
 * without characters beyond U+FFFF (most emoji are beyond it).
 */
module JsText {

  /** The characters of the regular expression class `\s`, which are also the ones `trim` removes. */
  predicate IsSpace(c: char) {
    c == ' ' || c == '\t' || c == '\n' || c == '\U{000B}' || c == '\U{000C}' || c == '\r'
    || c == '\U{00A0}' || c == '\U{1680}' || ('\U{2000}' <= c <= '\U{200A}')
    || c == '\U{2028}' || c == '\U{2029}' || c == '\U{202F}' || c == '\U{205F}'
    || c == '\U{3000}' || c == '\U{FEFF}'
  }

  predicate IsDigit(c: char) { '0' <= c <= '9' }
  predicate IsUpper(c: char) { 'A' <= c <= 'Z' }
  predicate IsLower(c: char) { 'a' <= c <= 'z' }

  /** The regular expression class `\w` (without the `u` flag): ASCII letters, digits and `_`. */
  predicate IsWordChar(c: char) { IsUpper(c) || IsLower(c) || IsDigit(c) || c == '_' }

  predicate AllDigits(s: string) { forall i :: 0 <= i < |s| ==> IsDigit(s[i]) }

  function LowerChar(c: char): (r: char)
    ensures IsUpper(c) ==> IsLower(r)
    ensures !IsUpper(c) ==> r == c
  {
    if IsUpper(c) then (c as int - 'A' as int + 'a' as int) as char else c
  }

  /** `toLowerCase` on the ASCII letters; every other character is left as it is. */
  function LowerAscii(s: string): (r: string)
    ensures |r| == |s|
    ensures forall i :: 0 <= i < |s| ==> r[i] == LowerChar(s[i])
  {
    if s == [] then [] else [LowerChar(s[0])] + LowerAscii(s[1..])
  }

  function TrimStart(s: string): (r: string)
    ensures |r| <= |s| && r == s[|s| - |r|..]
    ensures r == [] || !IsSpace(r[0])
    ensures forall i :: 0 <= i < |s| - |r| ==> IsSpace(s[i])
  {
    if s != [] && IsSpace(s[0]) then TrimStart(s[1..]) else s
  }

  function TrimEnd(s: string): (r: string)
    ensures |r| <= |s| && r == s[..|r|]
    ensures r == [] || !IsSpace(r[|r| - 1])
    ensures forall i :: |r| <= i < |s| ==> IsSpace(s[i])
  {
    if s != [] && IsSpace(s[|s| - 1]) then TrimEnd(s[..|s| - 1]) else s
  }

  /** `String.prototype.trim`: the input with its leading and trailing `\s` characters removed. */
  function Trim(s: string): (r: string)
    ensures r == [] || (!IsSpace(r[0]) && !IsSpace(r[|r| - 1]))
    ensures |r| <= |s|
  {
    TrimEnd(TrimStart(s))
  }

  lemma {:induction false} TrimOfTrimmed(s: string)
    requires s == [] || (!IsSpace(s[0]) && !IsSpace(s[|s| - 1]))
    ensures Trim(s) == s
  {
  }

  /** A string with no `\s` character at either end is its own trim; so `Trim` is idempotent. */
  lemma TrimIdempotent(s: string)
    ensures Trim(Trim(s)) == Trim(s)
  {
    TrimOfTrimmed(Trim(s));
  }

  /** Index of the first occurrence of `c` in `s`. */
  function IndexOf(s: string, c: char): (k: nat)
    requires c in s
    ensures k < |s| && s[k] == c && c !in s[..k]
  {
    if s[0] == c then 0 else 1 + IndexOf(s[1..], c)
  }

  lemma IndexOfAt(s: string, c: char, k: nat)
    requires k < |s| && s[k] == c && c !in s[..k]
    ensures IndexOf(s, c) == k
  {
  }

  /** Index of the last occurrence of `c` in `s`. */
  function LastIndexOf(s: string, c: char): (k: nat)
    requires c in s
    ensures k < |s| && s[k] == c && c !in s[k + 1..]
  {
    if s[|s| - 1] == c then |s| - 1
    else
      assert c in s[..|s| - 1];
      var k := LastIndexOf(s[..|s| - 1], c);
      assert s[k + 1..] == s[..|s| - 1][k + 1..] + [s[|s| - 1]];
      k
  }

  /** `s.split(c)` for a one-character separator: always at least one piece, none holding `c`. */
  function Split(s: string, c: char): (r: seq<string>)
    ensures |r| >= 1
    ensures forall i :: 0 <= i < |r| ==> c !in r[i]
    decreases |s|
  {
    if c !in s then [s]
    else
      var k := IndexOf(s, c);
      [s[..k]] + Split(s[k + 1..], c)
  }

  /** `parts.join(sep)`. */
  function Join(parts: seq<string>, sep: string): string {
    if parts == [] then ""
    else if |parts| == 1 then parts[0]
    else parts[0] + sep + Join(parts[1..], sep)
  }

  /** Splitting on `c` and joining with `c` gives the string back. */
  lemma {:induction false} SplitJoin(s: string, c: char)
    ensures Join(Split(s, c), [c]) == s
    decreases |s|
  {
    if c in s {
      var k := IndexOf(s, c);
      var rest := s[k + 1..];
      var tail := Split(rest, c);
      SplitJoin(rest, c);
      assert Split(s, c) == [s[..k]] + tail;
      assert Join([s[..k]] + tail, [c]) == s[..k] + [c] + Join(tail, [c]) by {
        assert ([s[..k]] + tail)[1..] == tail;
      }
      assert s == s[..k] + [c] + rest;
    }
  }

  /** Joining pieces free of `c` with `c` and splitting on `c` gives the pieces back. */
  lemma {:induction false} JoinSplit(parts: seq<string>, c: char)
    requires parts != []
    requires forall i :: 0 <= i < |parts| ==> c !in parts[i]
    ensures Split(Join(parts, [c]), c) == parts
    decreases |parts|
  {
    if |parts| == 1 {
      assert Join(parts, [c]) == parts[0];
      assert parts == [parts[0]];
    } else {
      var p, tail := parts[0], parts[1..];
      assert c !in p;
      var rest := Join(tail, [c]);
      var s := p + [c] + rest;
      assert Join(parts, [c]) == s;
      assert s[..|p|] == p && s[|p|] == c;
      IndexOfAt(s, c, |p|);
      assert s[|p| + 1..] == rest;
      assert Split(s, c) == [p] + Split(rest, c);
      forall i | 0 <= i < |tail|
        ensures c !in tail[i]
      {
        assert tail[i] == parts[i + 1];
      }
      JoinSplit(tail, c);
      assert parts == [p] + tail;
    }
  }

  /** The configuration-list idiom `s.split(',').map(x => x.trim()).filter(Boolean)`. */
  function ListSetting(s: string): (r: seq<string>)
    ensures forall i :: 0 <= i < |r| ==> r[i] != ""
  {
    TrimmedNonEmpty(Split(s, ','))
  }

  function TrimmedNonEmpty(parts: seq<string>): (r: seq<string>)
    ensures forall i :: 0 <= i < |r| ==> r[i] != ""
  {
    if parts == [] then []
    else
      var t := Trim(parts[0]);
      (if t == "" then [] else [t]) + TrimmedNonEmpty(parts[1..])
  }

  /** Parts that are non-empty and already trimmed pass through unchanged. */
  lemma {:induction false} TrimmedNonEmptyKeeps(parts: seq<string>)
    requires forall i :: 0 <= i < |parts| ==> parts[i] != "" && Trim(parts[i]) == parts[i]
    ensures TrimmedNonEmpty(parts) == parts
    decreases |parts|
  {
    if parts != [] {
      assert forall i :: 0 <= i < |parts[1..]| ==> parts[1..][i] == parts[i + 1];
      TrimmedNonEmptyKeeps(parts[1..]);
      assert parts == [parts[0]] + parts[1..];
    }
  }

  // ---- digits and radix conversion ----

  function DigitChar(d: nat): (c: char)
    requires d < 16
  {
    "0123456789abcdef"[d]
  }

  function DigitValue(c: char): nat {
    if '0' <= c <= '9' then c as nat - '0' as nat
    else if 'a' <= c <= 'f' then c as nat - 'a' as nat + 10
    else 0
  }

  lemma DigitRoundTrip(d: nat)
    requires d < 16
    ensures DigitValue(DigitChar(d)) == d
  {
  }

  /** `n.toString(radix)` for a non-negative integer: lower-case digits, no padding, no sign. */
  function Radix(n: nat, radix: nat): (r: string)
    requires 2 <= radix <= 16
    ensures |r| >= 1
    decreases n
  {
    if n < radix then [DigitChar(n)] else Radix(n / radix, radix) + [DigitChar(n % radix)]
  }

  /** Reads back a digit string written in `radix`. */
  function RadixValue(s: string, radix: nat): nat {
    if s == [] then 0 else RadixValue(s[..|s| - 1], radix) * radix + DigitValue(s[|s| - 1])
  }

  lemma DivStep(n: nat, radix: nat)
    requires 2 <= radix
    ensures (n / radix) * radix + n % radix == n
    ensures n > 0 ==> n / radix < n
  {
  }

  lemma RadixSingle(n: nat, radix: nat)
    requires 2 <= radix <= 16 && n < radix
    ensures RadixValue(Radix(n, radix), radix) == n
  {
    DigitRoundTrip(n);
    assert Radix(n, radix) == [DigitChar(n)];
    assert Radix(n, radix)[..0] == [];
  }

  lemma RadixLast(n: nat, radix: nat)
    requires 2 <= radix <= 16 && n >= radix
    ensures RadixValue(Radix(n, radix), radix)
            == RadixValue(Radix(n / radix, radix), radix) * radix + DigitValue(DigitChar(n % radix))
  {
    var r := Radix(n, radix);
    assert r[..|r| - 1] == Radix(n / radix, radix);
  }

  /** Writing `n` in a radix and reading it back gives `n`. */
  lemma {:induction false} RadixRoundTrip(n: nat, radix: nat)
    requires 2 <= radix <= 16
    ensures RadixValue(Radix(n, radix), radix) == n
    decreases n
  {
    if n < radix {
      RadixSingle(n, radix);
    } else {
      var q, d := n / radix, n % radix;
      RadixLast(n, radix);
      DivStep(n, radix);
      RadixRoundTrip(q, radix);
      DigitRoundTrip(d);
    }
  }

  /** Distinct numbers have distinct spellings. */
  lemma RadixInjective(a: nat, b: nat, radix: nat)
    requires 2 <= radix <= 16
    requires Radix(a, radix) == Radix(b, radix)
    ensures a == b
  {
    RadixRoundTrip(a, radix);
    RadixRoundTrip(b, radix);
  }

  /** Decimal spelling of a non-negative integer, as template literals write it. */
  function Decimal(n: nat): (r: string)
    ensures |r| >= 1
  {
    Radix(n, 10)
  }

  lemma {:induction false} RadixDigits(n: nat)
    ensures AllDigits(Radix(n, 10))
    decreases n
  {
    if n >= 10 { RadixDigits(n / 10); }
  }

  // ---- Number(string) ----

  /** A JavaScript number as far as the pipeline inspects it: a value, or `NaN`. */
  datatype JsNumber = Num(v: real) | NaN

  function DecimalValue(s: string): nat {
    RadixValue(s, 10)
  }

  /**
   * `Number(s)` for strings that spell an optionally signed decimal integer,
   * surrounded by any `\s` characters; the empty (or all-space) string is 0.
   */
  function NumberOf(s: string): JsNumber {
    var t := Trim(s);
    if t == "" then Num(0.0)
    else if |t| > 1 && t[0] == '+' && AllDigits(t[1..]) then Num(DecimalValue(t[1..]) as real)
    else if |t| > 1 && t[0] == '-' && AllDigits(t[1..]) then Num(-(DecimalValue(t[1..]) as real))
    else if AllDigits(t) then Num(DecimalValue(t) as real)
    else NaN
  }

  /** `Number(String(n))` is `n` for every non-negative integer. */
  lemma NumberOfDecimal(n: nat)
    ensures NumberOf(Decimal(n)) == Num(n as real)
  {
    var d := Decimal(n);
    RadixDigits(n);
    RadixRoundTrip(n, 10);
    assert d[0] != '+' && d[0] != '-' && !IsSpace(d[0]) && !IsSpace(d[|d| - 1]);
    TrimOfTrimmed(d);
  }

  // ---- words ----

  /** Length of the run of `\w` characters that starts `s`. */
  function WordRun(s: string): (n: nat)
    ensures n <= |s|
    ensures forall k :: 0 <= k < n ==> IsWordChar(s[k])
    ensures n == |s| || !IsWordChar(s[n])
  {
    if s == [] || !IsWordChar(s[0]) then 0 else 1 + WordRun(s[1..])
  }

  /** `s.split(/\W+/).filter(Boolean)`: the maximal runs of `\w` characters, in order. */
  function Words(s: string): (r: seq<string>)
    ensures forall i :: 0 <= i < |r| ==> r[i] != []
    ensures forall i, k :: 0 <= i < |r| && 0 <= k < |r[i]| ==> IsWordChar(r[i][k])
    decreases |s|
  {
    if s == [] then []
    else if !IsWordChar(s[0]) then Words(s[1..])
    else
      var n := WordRun(s);
      [s[..n]] + Words(s[n..])
  }

  lemma {:induction false} WordRunIs(s: string, n: nat)
    requires n <= |s| && (forall k :: 0 <= k < n ==> IsWordChar(s[k])) && (n == |s| || !IsWordChar(s[n]))
    ensures WordRun(s) == n
    decreases n
  {
    if n > 0 {
      WordRunIs(s[1..], n - 1);
    }
  }

  /** A `\w` run of length `n` at the front of `s` is its first word. */
  lemma WordsFront(s: string, n: nat)
    requires 0 < n <= |s| && (forall k :: 0 <= k < n ==> IsWordChar(s[k])) && (n == |s| || !IsWordChar(s[n]))
    ensures Words(s) == [s[..n]] + Words(s[n..])
  {
    WordRunIs(s, n);
  }

  /** A string without `\w` characters has no words. */
  lemma {:induction false} WordsNone(s: string)
    requires forall k :: 0 <= k < |s| ==> !IsWordChar(s[k])
    ensures Words(s) == []
    decreases |s|
  {
    if s != [] {
      WordsNone(s[1..]);
    }
  }

  /** A string holding a `\w` character has at least one word. */
  lemma {:induction false} WordsNonEmpty(s: string, i: nat)
    requires i < |s| && IsWordChar(s[i])
    ensures Words(s) != []
    decreases |s|
  {
    if !IsWordChar(s[0]) {
      WordsNonEmpty(s[1..], i - 1);
    }
  }

  /** `Math.round`: the nearest integer, halves rounded up. */
  function Round(x: real): (n: int)
    ensures x - 0.5 < n as real <= x + 0.5
  {
    (x + 0.5).Floor
  }

  // ---- prefixes and case-insensitive search ----

  predicate StartsWith(s: string, prefix: string) {
    |prefix| <= |s| && s[..|prefix|] == prefix
  }

  /** `needle` occurs in `s` when ASCII letters are compared without case (a regular expression with the `i` flag). */
  predicate ContainsIgnoreCase(s: string, needle: string)
    decreases |s|
  {
    (|needle| <= |s| && LowerAscii(s[..|needle|]) == LowerAscii(needle))
    || (s != [] && ContainsIgnoreCase(s[1..], needle))
  }
}
