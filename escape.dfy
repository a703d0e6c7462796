/** `escapeHTML` (content.js:220-222): the four global single-character
    replacements `&`, `<`, `>`, `"`, applied in that order. */
module Escape {

  /** `s.replace(/c/g, rep)` for a one-character pattern: every `c` becomes `rep`. */
  function ReplaceAll(s: string, c: char, rep: string): (r: string)
    ensures c !in rep ==> c !in r
  {
    if |s| == 0 then ""
    else (if s[0] == c then rep else [s[0]]) + ReplaceAll(s[1..], c, rep)
  }

  /** A replacement adds no character other than those of `rep`. */
  lemma {:induction false} ReplaceAllAddsNothing(s: string, c: char, rep: string, d: char)
    requires d != c && d !in rep
    ensures d in ReplaceAll(s, c, rep) <==> d in s
  {
    if |s| > 0 {
      ReplaceAllAddsNothing(s[1..], c, rep, d);
      assert s == [s[0]] + s[1..];
    }
  }

  /** The chain exactly as written: `&` first, then `<`, `>` and `"`. */
  function EscapeHtml(s: string): string {
    ReplaceAll(ReplaceAll(ReplaceAll(ReplaceAll(s, '&', "&amp;"), '<', "&lt;"), '>', "&gt;"), '"', "&quot;")
  }

  // ---------------------------------------------------------------------------
  // Reference definition: one character at a time

  function EscapeChar(c: char): string {
    if c == '&' then "&amp;"
    else if c == '<' then "&lt;"
    else if c == '>' then "&gt;"
    else if c == '"' then "&quot;"
    else [c]
  }

  function EscapeEach(s: string): string {
    if |s| == 0 then "" else EscapeChar(s[0]) + EscapeEach(s[1..])
  }

  lemma {:induction false} ReplaceAllConcat(a: string, b: string, c: char, rep: string)
    ensures ReplaceAll(a + b, c, rep) == ReplaceAll(a, c, rep) + ReplaceAll(b, c, rep)
  {
    if |a| > 0 {
      assert (a + b)[1..] == a[1..] + b;
      ReplaceAllConcat(a[1..], b, c, rep);
    } else {
      assert a + b == b;
    }
  }

  lemma ReplaceAllOther(s: string, c: char, rep: string)
    requires c !in s
    ensures ReplaceAll(s, c, rep) == s
  {
  }

  /** The chain rewrites each input character independently. */
  lemma EscapeHtmlConcat(a: string, b: string)
    ensures EscapeHtml(a + b) == EscapeHtml(a) + EscapeHtml(b)
  {
    var a1, b1 := ReplaceAll(a, '&', "&amp;"), ReplaceAll(b, '&', "&amp;");
    ReplaceAllConcat(a, b, '&', "&amp;");
    var a2, b2 := ReplaceAll(a1, '<', "&lt;"), ReplaceAll(b1, '<', "&lt;");
    ReplaceAllConcat(a1, b1, '<', "&lt;");
    var a3, b3 := ReplaceAll(a2, '>', "&gt;"), ReplaceAll(b2, '>', "&gt;");
    ReplaceAllConcat(a2, b2, '>', "&gt;");
    ReplaceAllConcat(a3, b3, '"', "&quot;");
  }

  /** On one character the chain agrees with the reference: because `&` goes
      first, the `&` that the later passes introduce is never rewritten again. */
  lemma EscapeHtmlChar(c: char)
    ensures EscapeHtml([c]) == EscapeChar(c)
  {
    if c == '&' {
      EscapeSpecial([c], c, "&amp;");
    } else if c == '<' {
      EscapeSpecial([c], c, "&lt;");
    } else if c == '>' {
      EscapeSpecial([c], c, "&gt;");
    } else if c == '"' {
      EscapeSpecial([c], c, "&quot;");
    } else {
      ReplaceAllOther([c], '&', "&amp;");
      ReplaceAllOther([c], '<', "&lt;");
      ReplaceAllOther([c], '>', "&gt;");
      ReplaceAllOther([c], '"', "&quot;");
    }
  }

  /** One special character becomes its entity, which no pass rewrites:
      each entity holds only `&`, letters and `;`, and `&` goes first. */
  lemma EscapeSpecial(s: string, c: char, e: string)
    requires s == [c] && e == EscapeChar(c) && c in "&<>\""
    ensures EscapeHtml(s) == e
  {
    assert '<' !in e && '>' !in e && '"' !in e;
    var s1 := ReplaceAll(s, '&', "&amp;");
    ReplaceOne(c, '&', "&amp;");
    var s2 := ReplaceAll(s1, '<', "&lt;");
    if c == '&' { ReplaceAllOther(s1, '<', "&lt;"); } else { ReplaceOne(c, '<', "&lt;"); }
    var s3 := ReplaceAll(s2, '>', "&gt;");
    if c in "&<" { ReplaceAllOther(s2, '>', "&gt;"); } else { ReplaceOne(c, '>', "&gt;"); }
    if c in "&<>" { ReplaceAllOther(s3, '"', "&quot;"); } else { ReplaceOne(c, '"', "&quot;"); }
  }

  lemma ReplaceOne(c: char, d: char, rep: string)
    ensures ReplaceAll([c], d, rep) == if c == d then rep else [c]
  {
    assert [c][1..] == [];
  }

  /** The replace chain equals the one-character-at-a-time reference. */
  lemma {:induction false} EscapeHtmlIsEscapeEach(s: string)
    ensures EscapeHtml(s) == EscapeEach(s)
  {
    if |s| > 0 {
      assert s == [s[0]] + s[1..];
      EscapeHtmlConcat([s[0]], s[1..]);
      EscapeHtmlChar(s[0]);
      EscapeHtmlIsEscapeEach(s[1..]);
    } else {
      assert ReplaceAll(s, '&', "&amp;") == "";
    }
  }

  // ---------------------------------------------------------------------------
  // Properties

  /** No raw `<`, `>` or `"` survives. */
  lemma EscapeHtmlNoSpecials(s: string)
    ensures '<' !in EscapeHtml(s) && '>' !in EscapeHtml(s) && '"' !in EscapeHtml(s)
  {
    var s1 := ReplaceAll(s, '&', "&amp;");
    var s2 := ReplaceAll(s1, '<', "&lt;");
    var s3 := ReplaceAll(s2, '>', "&gt;");
    var s4 := ReplaceAll(s3, '"', "&quot;");
    ReplaceAllAddsNothing(s2, '>', "&gt;", '<');
    ReplaceAllAddsNothing(s3, '"', "&quot;", '<');
    ReplaceAllAddsNothing(s3, '"', "&quot;", '>');
  }

  /** Reads one escaped character back: an entity or a plain character. */
  function Unescape(s: string): (r: string)
    ensures |r| <= |s|
  {
    if |s| == 0 then ""
    else if |s| >= 5 && s[..5] == "&amp;" then "&" + Unescape(s[5..])
    else if |s| >= 4 && s[..4] == "&lt;" then "<" + Unescape(s[4..])
    else if |s| >= 4 && s[..4] == "&gt;" then ">" + Unescape(s[4..])
    else if |s| >= 6 && s[..6] == "&quot;" then "\"" + Unescape(s[6..])
    else [s[0]] + Unescape(s[1..])
  }

  lemma UnescapeStep(c: char, rest: string)
    ensures Unescape(EscapeChar(c) + rest) == [c] + Unescape(rest)
  {
    var e := EscapeChar(c) + rest;
    if c == '&' {
      assert e[..5] == "&amp;" && e[5..] == rest;
    } else if c == '<' {
      assert e[..4] == "&lt;" && e[4..] == rest;
      assert !(|e| >= 5 && e[..5] == "&amp;") by { assert e[1] == 'l'; }
    } else if c == '>' {
      assert e[..4] == "&gt;" && e[4..] == rest;
      assert !(|e| >= 5 && e[..5] == "&amp;") by { assert e[1] == 'g'; }
      assert e[..4] != "&lt;" by { assert e[1] == 'g'; }
    } else if c == '"' {
      assert e[..6] == "&quot;" && e[6..] == rest;
      assert !(|e| >= 5 && e[..5] == "&amp;") by { assert e[1] == 'q'; }
      assert e[..4] != "&lt;" && e[..4] != "&gt;" by { assert e[1] == 'q'; }
    } else {
      assert e[0] == c && e[1..] == rest;
      assert !(|e| >= 4 && (e[..4] == "&lt;" || e[..4] == "&gt;")) by { if |e| >= 4 { assert e[..4][0] == c; } }
      assert !(|e| >= 5 && e[..5] == "&amp;") by { if |e| >= 5 { assert e[..5][0] == c; } }
      assert !(|e| >= 6 && e[..6] == "&quot;") by { if |e| >= 6 { assert e[..6][0] == c; } }
    }
  }

  /** Nothing is escaped twice: the original text is recovered exactly. */
  lemma {:induction false} EscapeHtmlRoundTrip(s: string)
    ensures Unescape(EscapeHtml(s)) == s
  {
    EscapeHtmlIsEscapeEach(s);
    EscapeEachRoundTrip(s);
  }

  lemma {:induction false} EscapeEachRoundTrip(s: string)
    ensures Unescape(EscapeEach(s)) == s
  {
    if |s| > 0 {
      UnescapeStep(s[0], EscapeEach(s[1..]));
      EscapeEachRoundTrip(s[1..]);
      assert s == [s[0]] + s[1..];
    }
  }
}
