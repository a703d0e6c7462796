/** Character and string primitives shared by the sniffer and the transformers:
    the JavaScript whitespace class (the characters `\s` and `String.prototype.trim`
    both recognise), trimming, prefix tests and substring search. */
module Strings {

  datatype Option<+T> = None | Some(value: T)

  /** JavaScript's WhiteSpace and LineTerminator characters: what `\s` matches and
      what `trim`/`trimEnd` remove. U+FEFF (the byte-order mark) is one of them. */
  predicate IsWs(c: char) {
    c == '\t' || c == '\n' || c == '\U{B}' || c == '\U{C}' || c == '\r' || c == ' '
    || c == '\U{A0}' || c == '\U{1680}' || ('\U{2000}' <= c <= '\U{200A}')
    || c == '\U{2028}' || c == '\U{2029}' || c == '\U{202F}' || c == '\U{205F}'
    || c == '\U{3000}' || c == '\U{FEFF}'
  }

  predicate AllWs(s: string) {
    forall i :: 0 <= i < |s| ==> IsWs(s[i])
  }

  /** Length of the longest all-whitespace prefix of `s`. */
  function WsRun(s: string): (n: nat)
    ensures n <= |s|
    ensures AllWs(s[..n])
    ensures n < |s| ==> !IsWs(s[n])
  {
    if |s| > 0 && IsWs(s[0]) then
      var m := WsRun(s[1..]);
      assert s[..1 + m] == [s[0]] + s[1..][..m];
      1 + m
    else 0
  }

  /** Length of the longest all-whitespace suffix of `s`. */
  function TrailingWsRun(s: string): (n: nat)
    ensures n <= |s|
    ensures AllWs(s[|s| - n..])
    ensures n < |s| ==> !IsWs(s[|s| - n - 1])
  {
    if |s| > 0 && IsWs(s[|s| - 1]) then
      var t := s[..|s| - 1];
      var m := TrailingWsRun(t);
      assert s[|s| - (1 + m)..] == t[|t| - m..] + [s[|s| - 1]];
      1 + m
    else 0
  }

  /** `String.prototype.trimStart`. */
  function TrimStart(s: string): (r: string)
    ensures |r| <= |s| && r == s[|s| - |r|..]
    ensures AllWs(s[..|s| - |r|])
    ensures |r| > 0 ==> !IsWs(r[0])
  {
    s[WsRun(s)..]
  }

  /** `String.prototype.trimEnd`. */
  function TrimEnd(s: string): (r: string)
    ensures |r| <= |s| && r == s[..|r|]
    ensures AllWs(s[|r|..])
    ensures |r| > 0 ==> !IsWs(r[|r| - 1])
  {
    s[..|s| - TrailingWsRun(s)]
  }

  /** `String.prototype.trim`: whitespace removed at both ends. */
  function Trim(s: string): (r: string)
    ensures |r| > 0 ==> !IsWs(r[0]) && !IsWs(r[|r| - 1])
    ensures |r| <= |TrimStart(s)| && r == TrimStart(s)[..|r|]
    ensures AllWs(s[..|s| - |TrimStart(s)|]) && AllWs(TrimStart(s)[|r|..])
  {
    TrimEnd(TrimStart(s))
  }

  /** `text.replace(/^\uFEFF/, '')`: one leading byte-order mark removed. */
  function StripBom(s: string): string {
    if |s| > 0 && s[0] == '\U{FEFF}' then s[1..] else s
  }

  /** The normalisation every entry point applies first: BOM removed, then trimmed. */
  function Clean(s: string): string {
    Trim(StripBom(s))
  }

  /** Cleaned text neither starts nor ends with whitespace. */
  lemma CleanEdges(s: string)
    ensures var c := Clean(s); |c| > 0 ==> !IsWs(c[0]) && !IsWs(c[|c| - 1])
  {
    var c := Trim(StripBom(s));
    assert Clean(s) == c;
  }

  /** Because U+FEFF is itself whitespace, trimming already removes a leading
      byte-order mark: the explicit BOM strip never changes the cleaned text. */
  lemma CleanIsTrim(s: string)
    ensures Clean(s) == Trim(s)
  {
    if |s| > 0 && s[0] == '\U{FEFF}' {
      assert s[1..][WsRun(s[1..])..] == s[WsRun(s)..];
    }
  }

  function Repeat(s: string, n: nat): (r: string)
    ensures |r| == n * |s|
  {
    if n == 0 then "" else s + Repeat(s, n - 1)
  }

  predicate StartsWith(s: string, p: string) {
    |p| <= |s| && s[..|p|] == p
  }

  predicate EndsWith(s: string, p: string) {
    |p| <= |s| && s[|s| - |p|..] == p
  }

  predicate IsAsciiLetter(c: char) {
    'a' <= c <= 'z' || 'A' <= c <= 'Z'
  }

  function LowerAscii(c: char): char {
    if 'A' <= c <= 'Z' then (c as int + 32) as char else c
  }

  /** Equality under a regular expression's `i` flag without the `u` flag: only
      ASCII letters fold to each other (no non-ASCII character folds to ASCII). */
  predicate CharEqIgnoreCase(a: char, b: char) {
    a == b || (IsAsciiLetter(a) && IsAsciiLetter(b) && LowerAscii(a) == LowerAscii(b))
  }

  predicate StartsWithIgnoreCase(s: string, p: string) {
    |p| <= |s| && forall i :: 0 <= i < |p| ==> CharEqIgnoreCase(s[i], p[i])
  }

  /** One mismatching position rules out a case-insensitive prefix. */
  lemma MismatchIgnoreCase(s: string, p: string, i: nat, c: char)
    requires i < |p| && i < |s| && p[i] == c && !CharEqIgnoreCase(s[i], c)
    ensures !StartsWithIgnoreCase(s, p)
  {
  }

  predicate OccursAt(s: string, pat: string, j: nat) {
    j + |pat| <= |s| && s[j..j + |pat|] == pat
  }

  /** First index `i >= from` at which `pat` occurs in `s`. */
  function IndexOf(s: string, pat: string, from: nat): (r: Option<nat>)
    requires |pat| > 0
    decreases |s| - from
    ensures r.Some? ==> from <= r.value && OccursAt(s, pat, r.value)
    ensures r.Some? ==> forall j: nat :: from <= j < r.value ==> !OccursAt(s, pat, j)
    ensures r.None? ==> forall j: nat :: from <= j ==> !OccursAt(s, pat, j)
  {
    if from + |pat| > |s| then None
    else if s[from..from + |pat|] == pat then Some(from)
    else IndexOf(s, pat, from + 1)
  }

  /** Number of occurrences of `c` in `s`. */
  function Count(s: string, c: char): nat {
    if |s| == 0 then 0 else (if s[0] == c then 1 else 0) + Count(s[1..], c)
  }

  lemma {:induction false} CountConcat(a: string, b: string, c: char)
    ensures Count(a + b, c) == Count(a, c) + Count(b, c)
  {
    if |a| > 0 {
      assert (a + b)[1..] == a[1..] + b;
      CountConcat(a[1..], b, c);
    } else {
      assert a + b == b;
    }
  }

  /** `s` with every whitespace character removed, the rest in order. */
  function NonWs(s: string): (r: string)
    ensures |r| <= |s|
    ensures forall i :: 0 <= i < |r| ==> !IsWs(r[i])
  {
    if |s| == 0 then "" else (if IsWs(s[0]) then "" else [s[0]]) + NonWs(s[1..])
  }

  lemma {:induction false} NonWsConcat(a: string, b: string)
    ensures NonWs(a + b) == NonWs(a) + NonWs(b)
  {
    if |a| > 0 {
      assert (a + b)[1..] == a[1..] + b;
      NonWsConcat(a[1..], b);
    } else {
      assert a + b == b;
    }
  }

  lemma {:induction false} NonWsOfWs(w: string)
    requires AllWs(w)
    ensures NonWs(w) == ""
  {
    if |w| > 0 {
      assert AllWs(w[1..]) by {
        forall i | 0 <= i < |w[1..]| ensures IsWs(w[1..][i]) { assert w[1..][i] == w[i + 1]; }
      }
      NonWsOfWs(w[1..]);
    }
  }

  /** `s` with every occurrence of `c` removed, the rest in order. */
  function Without(s: string, c: char): (r: string)
    ensures |r| <= |s| && c !in r
  {
    if |s| == 0 then "" else (if s[0] == c then "" else [s[0]]) + Without(s[1..], c)
  }

  lemma {:induction false} WithoutConcat(a: string, b: string, c: char)
    ensures Without(a + b, c) == Without(a, c) + Without(b, c)
  {
    if |a| > 0 {
      assert (a + b)[1..] == a[1..] + b;
      WithoutConcat(a[1..], b, c);
    } else {
      assert a + b == b;
    }
  }

  /** Dropping whitespace and dropping one character commute. */
  lemma {:induction false} NonWsWithout(s: string, c: char)
    ensures Without(NonWs(s), c) == NonWs(Without(s, c))
  {
    if |s| > 0 {
      NonWsWithout(s[1..], c);
      var h := if IsWs(s[0]) then "" else [s[0]];
      var g := if s[0] == c then "" else [s[0]];
      WithoutConcat(h, NonWs(s[1..]), c);
      NonWsConcat(g, Without(s[1..], c));
      assert Without(h, c) == NonWs(g);
    }
  }

  /** Removing whitespace leaves the count of every other character alone. */
  lemma {:induction false} CountNonWs(s: string, c: char)
    requires !IsWs(c)
    ensures Count(NonWs(s), c) == Count(s, c)
  {
    if |s| > 0 {
      CountNonWs(s[1..], c);
      CountConcat(if IsWs(s[0]) then "" else [s[0]], NonWs(s[1..]), c);
    }
  }

  /** Removing `d` leaves the count of every other character alone. */
  lemma {:induction false} CountWithout(s: string, d: char, c: char)
    requires c != d
    ensures Count(Without(s, d), c) == Count(s, c)
  {
    if |s| > 0 {
      CountWithout(s[1..], d, c);
      CountConcat(if s[0] == d then "" else [s[0]], Without(s[1..], d), c);
    }
  }

  lemma {:induction false} CountZeroIffAbsent(s: string, c: char)
    ensures Count(s, c) == 0 <==> c !in s
  {
    if |s| > 0 {
      CountZeroIffAbsent(s[1..], c);
      assert s == [s[0]] + s[1..];
    }
  }

  /** Stated apart so that a proof can regroup three parts without the facts
      about how they were built in view. */
  lemma ConcatAssoc(a: string, b: string, c: string)
    ensures (a + b) + c == a + (b + c)
  {
  }
}
