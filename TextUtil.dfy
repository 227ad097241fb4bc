/**
 * The text helpers of packages/plugins/emoji/util/text.ts: `clip` and the
 * email and phone scrubbing of `scrubPII`, with each regular expression's
 * global replacement written out as the leftmost, greedy matcher it is.
 */
module TextUtil {
  import opened JsText
  import opened Seqs

  const Ellipsis: char := '\U{2026}'

  /** `clip(s, n)`: a string longer than `n` keeps `s.slice(0, n - 1)` and gets an ellipsis. */
  function Clip(s: string, n: int): (r: string)
    ensures |s| <= n ==> r == s
    ensures |s| > n ==> exists k :: 0 <= k <= |s| && r == s[..k] + [Ellipsis]
    ensures |s| > n >= 1 ==> |r| == n && r == s[..n - 1] + [Ellipsis]
    ensures n >= 1 ==> |r| <= n
  {
    if |s| > n then
      var p := SliceTo(s, n - 1);
      assert p == s[..|p|];
      p + [Ellipsis]
    else s
  }

  /** Clipping a clipped string again changes nothing. */
  lemma ClipIdempotent(s: string, n: int)
    requires n >= 1
    ensures Clip(Clip(s, n), n) == Clip(s, n)
  {
  }

  /** For `n <= 0` the negative end of `slice` counts from the back, so the result is longer than `n`. */
  lemma ClipNonPositive(s: string, n: int)
    requires n <= 0 && s != []
    ensures |Clip(s, n)| > n
    ensures n == 0 ==> Clip(s, n) == s[..|s| - 1] + [Ellipsis]
  {
  }

  // ---- global replacement ----

  /**
   * `t.replace(re, rep)` for a global `re` that never matches the empty
   * string: `m(u)` is the length of the match `re` finds at the start of `u`,
   * 0 when it finds none. The scan resumes after each match.
   */
  function ReplaceAll(t: string, m: string -> nat, rep: string): string
    decreases |t|
  {
    if t == [] then []
    else
      var k := m(t);
      if 0 < k <= |t| then rep + ReplaceAll(t[k..], m, rep)
      else [t[0]] + ReplaceAll(t[1..], m, rep)
  }

  /** Where `re` matches at no position, the replacement is the identity. */
  lemma {:induction false} ReplaceAllNone(t: string, m: string -> nat, rep: string)
    requires forall i :: 0 <= i < |t| ==> m(t[i..]) == 0
    ensures ReplaceAll(t, m, rep) == t
    decreases |t|
  {
    if t != [] {
      assert m(t[0..]) == 0;
      assert t[0..] == t;
      forall i | 0 <= i < |t| - 1 ensures m(t[1..][i..]) == 0 {
        assert t[1..][i..] == t[i + 1..];
      }
      ReplaceAllNone(t[1..], m, rep);
    }
  }

  // ---- the two regular expressions ----

  predicate IsAsciiLetter(c: char) { IsUpper(c) || IsLower(c) }

  /** `[A-Z0-9._%+-]` under the `i` flag. */
  predicate IsLocalChar(c: char) {
    IsAsciiLetter(c) || IsDigit(c) || c == '.' || c == '_' || c == '%' || c == '+' || c == '-'
  }

  /** `[A-Z0-9.-]` under the `i` flag. */
  predicate IsDomainChar(c: char) { IsAsciiLetter(c) || IsDigit(c) || c == '.' || c == '-' }

  /** `[\d\s().-]`. */
  predicate IsPhoneChar(c: char) { IsDigit(c) || IsSpace(c) || c == '(' || c == ')' || c == '.' || c == '-' }

  /** The length of the longest prefix of `t` whose characters all satisfy `p`. */
  function Run(t: string, p: char -> bool): (n: nat)
    ensures n <= |t|
    ensures forall i :: 0 <= i < n ==> p(t[i])
    ensures n < |t| ==> !p(t[n])
    decreases |t|
  {
    if t != [] && p(t[0]) then
      var n := 1 + Run(t[1..], p);
      assert forall i :: 1 <= i < n ==> t[i] == t[1..][i - 1];
      n
    else 0
  }

  /**
   * The greedy `[A-Z0-9.-]+` before `\.[A-Z]{2,}` backs off from length `j`:
   * the largest `q` in 1..j with a dot at `q` and two letters after it, or 0.
   */
  function LastTld(d: string, j: nat): (q: nat)
    ensures q <= j && (q > 0 ==> TldAt(d, q))
    decreases j
  {
    if j == 0 then 0
    else if TldAt(d, j) then j
    else LastTld(d, j - 1)
  }

  /** A dot at `q` followed by two or more letters. */
  predicate TldAt(d: string, q: nat) {
    q < |d| && d[q] == '.' && Run(d[q + 1..], IsAsciiLetter) >= 2
  }

  /**
   * The match of `/[A-Z0-9._%+-]+@[A-Z0-9.-]+\.[A-Z]{2,}/i` at the start of `u`.
   * The local part is the whole run before `@` (no local character is `@`),
   * the domain the longest one a dot and two letters can end, and the
   * top-level part every letter after that dot.
   */
  function EmailMatch(u: string): (r: nat)
    ensures r <= |u|
    ensures r > 0 ==> '@' in u[..r]
  {
    var a := Run(u, IsLocalChar);
    if a == 0 || a >= |u| || u[a] != '@' then 0
    else
      var n := DomainEnd(u[a + 1..]);
      if n == 0 then 0
      else
        assert u[..a + 1 + n][a] == '@';
        a + 1 + n
  }

  /** The length of `[A-Z0-9.-]+\.[A-Z]{2,}` at the start of `d`, or 0 when it does not match there. */
  function DomainEnd(d: string): (n: nat)
    ensures n <= |d|
  {
    var q := LastTld(d, Run(d, IsDomainChar));
    if q == 0 then 0 else 1 + q + Run(d[q + 1..], IsAsciiLetter)
  }

  /** The greedy `[\d\s().-]{7,}` before the final `\d` backs off from length `j`: the largest `j' >= 7` at which a digit follows, or -1. */
  function LastDigit(t: string, j: nat): (k: int)
    ensures k == -1 || (7 <= k <= j && k < |t| && IsDigit(t[k]))
    decreases j
  {
    if j < 7 then -1
    else if j < |t| && IsDigit(t[j]) then j
    else LastDigit(t, j - 1)
  }

  /** The match of `/\+?\d[\d\s().-]{7,}\d/` at the start of `u`: an optional plus, a digit, seven or more phone characters, a digit. */
  function PhoneMatch(u: string): (r: nat)
    ensures r <= |u|
    ensures r > 0 ==> exists i :: 0 <= i < r && IsDigit(u[i])
  {
    var d := if u != [] && u[0] == '+' then 1 else 0;
    if d >= |u| || !IsDigit(u[d]) then 0
    else
      var rest := u[d + 1..];
      var k := LastDigit(rest, Run(rest, IsPhoneChar));
      if k < 0 then 0 else d + k + 2
  }

  /** `scrubPII(s)`: emails are replaced first, phone numbers second. */
  function ScrubPII(s: string): string {
    ReplaceAll(ReplaceAll(s, EmailMatch, "[email]"), PhoneMatch, "[phone]")
  }

  lemma NoAtNoEmail(u: string)
    requires '@' !in u
    ensures EmailMatch(u) == 0
  {
    var r := EmailMatch(u);
    assert r > 0 ==> '@' in u;
  }

  lemma NoDigitNoPhone(u: string)
    requires forall i :: 0 <= i < |u| ==> !IsDigit(u[i])
    ensures PhoneMatch(u) == 0
  {
  }

  /** Text with no `@` and no digit is left unchanged. */
  lemma ScrubPlainText(s: string)
    requires '@' !in s
    requires forall i :: 0 <= i < |s| ==> !IsDigit(s[i])
    ensures ScrubPII(s) == s
  {
    forall i | 0 <= i < |s| ensures EmailMatch(s[i..]) == 0 {
      assert '@' !in s[i..];
      NoAtNoEmail(s[i..]);
    }
    ReplaceAllNone(s, EmailMatch, "[email]");
    forall i | 0 <= i < |s| ensures PhoneMatch(s[i..]) == 0 {
      assert forall k :: 0 <= k < |s[i..]| ==> s[i..][k] == s[i + k];
      NoDigitNoPhone(s[i..]);
    }
    ReplaceAllNone(s, PhoneMatch, "[phone]");
  }

  lemma {:induction false} RunIs(t: string, p: char -> bool, n: nat)
    requires n <= |t| && (forall i :: 0 <= i < n ==> p(t[i])) && (n == |t| || !p(t[n]))
    ensures Run(t, p) == n
    decreases n
  {
    if n > 0 {
      assert forall i :: 0 <= i < n - 1 ==> t[1..][i] == t[i + 1];
      RunIs(t[1..], p, n - 1);
    }
  }

  /** Positions above `q` that hold no dot are skipped by the back-off. */
  lemma {:induction false} LastTldSkip(d: string, j: nat, q: nat)
    requires q <= j
    requires forall k :: q < k <= j && k < |d| ==> d[k] != '.'
    ensures LastTld(d, j) == LastTld(d, q)
    decreases j
  {
    if j > q {
      LastTldStep(d, j);
      LastTldSkip(d, j - 1, q);
    }
  }

  lemma LastTldStep(d: string, j: nat)
    requires j > 0 && (j < |d| ==> d[j] != '.')
    ensures LastTld(d, j) == LastTld(d, j - 1)
  {
    assert !TldAt(d, j);
  }

  predicate AllChars(s: string, p: char -> bool) {
    forall i :: 0 <= i < |s| ==> p(s[i])
  }

  /** The whole run of local characters before the `@` is the local part. */
  lemma LocalPart(local: string, d: string)
    requires AllChars(local, IsLocalChar)
    ensures var u := local + ['@'] + d; Run(u, IsLocalChar) == |local| && u[|local|] == '@' && u[|local| + 1..] == d
  {
    var u := local + ['@'] + d;
    assert forall i :: 0 <= i < |local| ==> u[i] == local[i];
    RunIs(u, IsLocalChar, |local|);
  }

  /** After `host.tld`, with no dot in the host, the back-off stops at that dot and takes every letter of the top-level part. */
  lemma DomainPart(host: string, tld: string, rest: string)
    requires host != [] && AllChars(host, IsDomainChar) && '.' !in host
    requires |tld| >= 2 && AllChars(tld, IsAsciiLetter)
    requires rest == [] || !IsDomainChar(rest[0])
    ensures var d := host + ['.'] + tld + rest;
      LastTld(d, Run(d, IsDomainChar)) == |host| && Run(d[|host| + 1..], IsAsciiLetter) == |tld|
  {
    var d := host + ['.'] + tld + rest;
    var b := |host| + 1 + |tld|;
    DomainRun(d, host, tld, rest);
    TldLetters(d, host, tld, rest);
    NoDotAfterHost(d, host, tld, rest);
    DotAfterHost(d, host, tld, rest);
    BackOffTo(d, |host|, b);
  }

  /** The back-off from `b` stops at the last dot with two letters after it. */
  lemma BackOffTo(d: string, q: nat, b: nat)
    requires 0 < q <= b && q < |d| && d[q] == '.' && Run(d[q + 1..], IsAsciiLetter) >= 2
    requires forall k :: q < k <= b && k < |d| ==> d[k] != '.'
    ensures LastTld(d, b) == q
  {
    LastTldSkip(d, b, q);
    assert TldAt(d, q);
  }

  lemma DotAfterHost(d: string, host: string, tld: string, rest: string)
    requires d == host + ['.'] + tld + rest
    ensures |host| < |d| && d[|host|] == '.'
  {
  }

  lemma NoDotAfterHost(d: string, host: string, tld: string, rest: string)
    requires d == host + ['.'] + tld + rest && AllChars(tld, IsAsciiLetter)
    requires rest == [] || !IsDomainChar(rest[0])
    ensures forall k :: |host| < k <= |host| + 1 + |tld| && k < |d| ==> d[k] != '.'
  {
    forall k | |host| < k <= |host| + 1 + |tld| && k < |d| ensures d[k] != '.' {
      if k < |host| + 1 + |tld| {
        assert d[k] == tld[k - |host| - 1];
      } else {
        assert d[k] == rest[0];
      }
    }
  }

  lemma DomainRun(d: string, host: string, tld: string, rest: string)
    requires d == host + ['.'] + tld + rest
    requires AllChars(host, IsDomainChar) && AllChars(tld, IsAsciiLetter)
    requires rest == [] || !IsDomainChar(rest[0])
    ensures Run(d, IsDomainChar) == |host| + 1 + |tld|
  {
    var b := |host| + 1 + |tld|;
    assert forall i :: 0 <= i < |host| ==> d[i] == host[i];
    assert forall i :: |host| < i < b ==> d[i] == tld[i - |host| - 1];
    assert b < |d| ==> d[b] == rest[0];
    RunIs(d, IsDomainChar, b);
  }

  lemma TldLetters(d: string, host: string, tld: string, rest: string)
    requires d == host + ['.'] + tld + rest
    requires AllChars(tld, IsAsciiLetter)
    requires rest == [] || !IsDomainChar(rest[0])
    ensures Run(d[|host| + 1..], IsAsciiLetter) == |tld|
  {
    var t := d[|host| + 1..];
    assert t == tld + rest;
    assert forall i :: 0 <= i < |tld| ==> t[i] == tld[i];
    RunIs(t, IsAsciiLetter, |tld|);
  }

  /**
   * An address `local@host.tld` is matched whole when the host has no dot,
   * the top-level part has two or more letters and whatever follows cannot
   * continue the domain.
   */
  lemma EmailOfShape(local: string, host: string, tld: string, rest: string)
    requires local != [] && AllChars(local, IsLocalChar)
    requires host != [] && AllChars(host, IsDomainChar) && '.' !in host
    requires |tld| >= 2 && AllChars(tld, IsAsciiLetter)
    requires rest == [] || !IsDomainChar(rest[0])
    ensures EmailMatch(local + ['@'] + (host + ['.'] + tld + rest)) == |local| + 2 + |host| + |tld|
  {
    DomainPart(host, tld, rest);
    EmailFromParts(local, host + ['.'] + tld + rest, |host|, |tld|);
  }

  lemma EmailFromParts(local: string, d: string, q: nat, letters: nat)
    requires local != [] && AllChars(local, IsLocalChar)
    requires q > 0 && q < |d| && LastTld(d, Run(d, IsDomainChar)) == q && Run(d[q + 1..], IsAsciiLetter) == letters
    ensures EmailMatch(local + ['@'] + d) == |local| + 2 + q + letters
  {
    var u := local + ['@'] + d;
    LocalPart(local, d);
    EmailMatchAt(u, |local|, d);
    DomainEndIs(d, q, letters);
  }

  lemma DomainEndIs(d: string, q: nat, letters: nat)
    requires q > 0 && q < |d| && LastTld(d, Run(d, IsDomainChar)) == q && Run(d[q + 1..], IsAsciiLetter) == letters
    ensures DomainEnd(d) == 1 + q + letters
  {
  }

  /** The match, once the local part and the `@` are found. */
  lemma EmailMatchAt(u: string, a: nat, d: string)
    requires 0 < a < |u| && Run(u, IsLocalChar) == a && u[a] == '@' && u[a + 1..] == d
    ensures EmailMatch(u) == if DomainEnd(d) == 0 then 0 else a + 1 + DomainEnd(d)
  {
  }

  /** A match that covers the whole text replaces it whole. */
  lemma ReplaceWhole(u: string, m: string -> nat, rep: string)
    requires u != [] && m(u) == |u|
    ensures ReplaceAll(u, m, rep) == rep
  {
    assert u[|u|..] == [];
  }

  lemma NoPhoneInEmailTag()
    ensures ReplaceAll("[email]", PhoneMatch, "[phone]") == "[email]"
  {
    var e := "[email]";
    forall i | 0 <= i < |e| ensures PhoneMatch(e[i..]) == 0 {
      assert forall k :: 0 <= k < |e[i..]| ==> e[i..][k] == e[i + k];
      NoDigitNoPhone(e[i..]);
    }
    ReplaceAllNone(e, PhoneMatch, "[phone]");
  }

  /** Emails go first: an address, even one whose local part is a run of digits that would pass for a phone number, is scrubbed as one email. */
  lemma EmailsFirst(local: string, host: string, tld: string)
    requires local != [] && AllChars(local, IsLocalChar)
    requires host != [] && AllChars(host, IsDomainChar) && '.' !in host
    requires |tld| >= 2 && AllChars(tld, IsAsciiLetter)
    ensures ScrubPII(local + ['@'] + (host + ['.'] + tld)) == "[email]"
  {
    var u := local + ['@'] + (host + ['.'] + tld);
    EmailOfShape(local, host, tld, []);
    assert host + ['.'] + tld + [] == host + ['.'] + tld;
    ReplaceWhole(u, EmailMatch, "[email]");
    NoPhoneInEmailTag();
  }
}
