/** The lexical XML minifier `minifyXMLString` (content.js:187-192) and the
    inter-tag whitespace pass it shares with the formatter (content.js:142). */
module XmlMinify {
  import opened Strings

  /** `t` opens with a non-empty whitespace run that is directly followed by `<`. */
  predicate WsThenAngle(t: string) {
    var n := WsRun(t);
    0 < n < |t| && t[n] == '<'
  }

  /** No `>` of `s` is followed by whitespace and then `<`: the text matches
      nothing of `/>\s+</`. */
  predicate NoWsBetweenTags(s: string) {
    forall i :: 0 <= i < |s| && s[i] == '>' ==> !WsThenAngle(s[i + 1..])
  }

  /** No two adjacent whitespace characters: the text matches nothing of `/\s{2,}/`. */
  predicate NoDoubleWs(s: string) {
    forall i :: 0 <= i < |s| - 1 ==> !(IsWs(s[i]) && IsWs(s[i + 1]))
  }

  /** No whitespace at either end. */
  predicate Trimmed(s: string) {
    |s| > 0 ==> !IsWs(s[0]) && !IsWs(s[|s| - 1])
  }

  /** `xml.replace(/>\s+</g, '><')` (written `/(>)\s+(<)/g` with `'$1$2'` in the
      formatter): every whitespace run that sits between a `>` and a `<` is deleted.
      A run after `>` that is not followed by `<` cannot match and is copied. */
  function StripInterTagWs(s: string): (r: string)
    ensures |s| > 0 ==> |r| > 0 && r[0] == s[0]
    ensures NoWsBetweenTags(r)
    decreases |s|
  {
    if |s| == 0 then ""
    else if s[0] == '>' then
      var t := s[1..];
      var n := WsRun(t);
      if 0 < n < |t| && t[n] == '<' then
        var b := StripInterTagWs(t[n..]);
        NoWsBetweenTagsConcat(">", b);
        ">" + b
      else
        var b := StripInterTagWs(t[n..]);
        WsRunConcat(t[..n], b);
        assert forall i :: 0 <= i < n ==> IsWs(t[..n][i]);
        NoWsBetweenTagsConcat(">" + t[..n], b);
        ">" + t[..n] + b
    else
      var b := StripInterTagWs(s[1..]);
      NoWsBetweenTagsConcat([s[0]], b);
      [s[0]] + b
  }

  /** `replace(/\s{2,}/g, ' ')`: each maximal run of two or more whitespace
      characters becomes one space; a lone whitespace character is kept as is. */
  function CollapseWs(s: string): (r: string)
    ensures |r| <= |s| && (|s| > 0 ==> |r| > 0)
    ensures |s| > 0 && !IsWs(s[0]) ==> r[0] == s[0]
    ensures |s| > 0 && IsWs(s[0]) ==> IsWs(r[0])
    ensures NoDoubleWs(r)
    decreases |s|
  {
    if |s| == 0 then ""
    else if IsWs(s[0]) then
      var n := WsRun(s);
      var b := CollapseWs(s[n..]);
      var a := if n >= 2 then " " else s[..1];
      NoDoubleWsConcat(a, b);
      a + b
    else
      var b := CollapseWs(s[1..]);
      NoDoubleWsConcat([s[0]], b);
      [s[0]] + b
  }

  /** `minifyXMLString`: inter-tag whitespace removed, then the ends trimmed
      (`/^\s+|\s+$/g` removes exactly what `trim` removes), then interior
      whitespace runs collapsed. */
  function MinifyXml(xml: string): (r: string)
    ensures Trimmed(r)
    ensures NoWsBetweenTags(r)
    ensures NoDoubleWs(r)
  {
    var u := Trim(StripInterTagWs(xml));
    TrimKeepsNoWsBetweenTags(StripInterTagWs(xml));
    CollapseKeepsNoWsBetweenTags(u);
    CollapseKeepsEnds(u);
    CollapseWs(u)
  }

  /** Minifying is idempotent. */
  lemma MinifyIdempotent(xml: string)
    ensures MinifyXml(MinifyXml(xml)) == MinifyXml(xml)
  {
    var m := MinifyXml(xml);
    StripIdentity(m);
    TrimIdentity(m);
    CollapseIdentity(m);
  }

  // ---------------------------------------------------------------------------
  // Helper lemmas

  lemma WsRunConcat(w: string, b: string)
    requires AllWs(w)
    ensures WsRun(w + b) == |w| + WsRun(b)
    decreases |w|
  {
    if |w| > 0 {
      assert (w + b)[1..] == w[1..] + b;
      WsRunConcat(w[1..], b);
    } else {
      assert w + b == b;
    }
  }

  /** The whitespace prefix is determined by where the first non-whitespace character is. */
  lemma WsRunIs(t: string, n: nat)
    requires n <= |t| && AllWs(t[..n]) && (n < |t| ==> !IsWs(t[n]))
    ensures WsRun(t) == n
  {
    var k := WsRun(t);
    assert forall i :: 0 <= i < n ==> IsWs(t[i]) by {
      forall i | 0 <= i < n ensures IsWs(t[i]) { assert t[..n][i] == t[i]; }
    }
    assert forall i :: 0 <= i < k ==> IsWs(t[i]) by {
      forall i | 0 <= i < k ensures IsWs(t[i]) { assert t[..k][i] == t[i]; }
    }
  }

  lemma NoWsBetweenTagsConcat(a: string, b: string)
    requires NoWsBetweenTags(b)
    requires forall i :: 0 <= i < |a| && a[i] == '>' ==> !WsThenAngle(a[i + 1..] + b)
    ensures NoWsBetweenTags(a + b)
  {
    var s := a + b;
    forall i | 0 <= i < |s| && s[i] == '>'
      ensures !WsThenAngle(s[i + 1..])
    {
      if i < |a| {
        assert s[i + 1..] == a[i + 1..] + b;
      } else {
        assert s[i + 1..] == b[i - |a| + 1..];
        assert b[i - |a|] == '>';
      }
    }
  }

  lemma NoDoubleWsConcat(a: string, b: string)
    requires NoDoubleWs(a) && NoDoubleWs(b)
    requires |a| > 0 && |b| > 0 ==> !(IsWs(a[|a| - 1]) && IsWs(b[0]))
    ensures NoDoubleWs(a + b)
  {
    var s := a + b;
    forall i | 0 <= i < |s| - 1
      ensures !(IsWs(s[i]) && IsWs(s[i + 1]))
    {
      if i + 1 < |a| {
        assert s[i] == a[i] && s[i + 1] == a[i + 1];
      } else if i >= |a| {
        assert s[i] == b[i - |a|] && s[i + 1] == b[i - |a| + 1];
      }
    }
  }

  lemma NoWsBetweenTagsSuffix(s: string, k: nat)
    requires k <= |s| && NoWsBetweenTags(s)
    ensures NoWsBetweenTags(s[k..])
  {
    var t := s[k..];
    forall i | 0 <= i < |t| && t[i] == '>'
      ensures !WsThenAngle(t[i + 1..])
    {
      assert s[k + i] == '>';
      assert t[i + 1..] == s[k + i + 1..];
    }
  }

  /** Cutting text short cannot create whitespace between tags. */
  lemma WsThenAnglePrefix(t: string, m: nat)
    requires m <= |t| && WsThenAngle(t[..m])
    ensures WsThenAngle(t)
  {
    var p := t[..m];
    var n := WsRun(p);
    assert p[..n] == t[..n];
    WsRunIs(t, n);
  }

  lemma NoWsBetweenTagsPrefix(s: string, m: nat)
    requires m <= |s| && NoWsBetweenTags(s)
    ensures NoWsBetweenTags(s[..m])
  {
    var t := s[..m];
    forall i | 0 <= i < |t| && t[i] == '>'
      ensures !WsThenAngle(t[i + 1..])
    {
      assert s[i] == '>';
      assert t[i + 1..] == s[i + 1..][..m - i - 1];
      if WsThenAngle(t[i + 1..]) {
        WsThenAnglePrefix(s[i + 1..], m - i - 1);
      }
    }
  }

  lemma TrimKeepsNoWsBetweenTags(s: string)
    requires NoWsBetweenTags(s)
    ensures NoWsBetweenTags(Trim(s))
  {
    var a := TrimStart(s);
    NoWsBetweenTagsSuffix(s, |s| - |a|);
    NoWsBetweenTagsPrefix(a, |TrimEnd(a)|);
  }

  /** Collapsing keeps the character that follows a whitespace run, so it cannot
      put `<` right after a run that was not followed by `<` before. */
  lemma CollapseWsThenAngle(t: string)
    requires WsThenAngle(CollapseWs(t))
    ensures WsThenAngle(t)
  {
    var c := CollapseWs(t);
    if |t| > 0 && IsWs(t[0]) {
      var n := WsRun(t);
      var b := CollapseWs(t[n..]);
      assert c == (if n >= 2 then " " else t[..1]) + b;
      assert AllWs(c[..1]);
      if |b| > 0 {
        assert c[1] == b[0] == t[n];
      }
      WsRunIs(c, 1);
    }
  }

  lemma {:induction false} CollapseKeepsNoWsBetweenTags(s: string)
    requires NoWsBetweenTags(s)
    ensures NoWsBetweenTags(CollapseWs(s))
    decreases |s|
  {
    if |s| == 0 {
    } else if IsWs(s[0]) {
      var n := WsRun(s);
      NoWsBetweenTagsSuffix(s, n);
      CollapseKeepsNoWsBetweenTags(s[n..]);
      var a := if n >= 2 then " " else s[..1];
      NoWsBetweenTagsConcat(a, CollapseWs(s[n..]));
    } else {
      NoWsBetweenTagsSuffix(s, 1);
      CollapseKeepsNoWsBetweenTags(s[1..]);
      if s[0] == '>' && WsThenAngle(CollapseWs(s[1..])) {
        CollapseWsThenAngle(s[1..]);
      }
      assert [s[0]][1..] + CollapseWs(s[1..]) == CollapseWs(s[1..]);
      NoWsBetweenTagsConcat([s[0]], CollapseWs(s[1..]));
    }
  }

  /** Collapsing keeps a non-whitespace last character. */
  lemma {:induction false} CollapseKeepsLast(s: string)
    requires |s| > 0 && !IsWs(s[|s| - 1])
    ensures |CollapseWs(s)| > 0 && CollapseWs(s)[|CollapseWs(s)| - 1] == s[|s| - 1]
    decreases |s|
  {
    if IsWs(s[0]) {
      var n := WsRun(s);
      assert n < |s|;
      CollapseKeepsLast(s[n..]);
    } else if |s| > 1 {
      CollapseKeepsLast(s[1..]);
    }
  }

  lemma CollapseKeepsEnds(s: string)
    requires Trimmed(s)
    ensures Trimmed(CollapseWs(s))
  {
    if |s| > 0 { CollapseKeepsLast(s); }
  }

  lemma {:induction false} StripIdentity(s: string)
    requires NoWsBetweenTags(s)
    ensures StripInterTagWs(s) == s
    decreases |s|
  {
    if |s| == 0 {
    } else if s[0] == '>' {
      var t := s[1..];
      var n := WsRun(t);
      assert !WsThenAngle(t);
      NoWsBetweenTagsSuffix(s, 1 + n);
      assert s[1 + n..] == t[n..];
      StripIdentity(t[n..]);
      StripAngleIdentity(s);
    } else {
      NoWsBetweenTagsSuffix(s, 1);
      StripIdentity(s[1..]);
      StripUnfoldOther(s);
      assert s == [s[0]] + s[1..];
    }
  }

  lemma StripAngleIdentity(s: string)
    requires |s| > 0 && s[0] == '>' && !WsThenAngle(s[1..])
    requires var t := s[1..]; StripInterTagWs(t[WsRun(t)..]) == t[WsRun(t)..]
    ensures StripInterTagWs(s) == s
  {
    StripUnfoldKeep(s);
    AngleSplit(s, WsRun(s[1..]));
  }

  lemma AngleSplit(s: string, n: nat)
    requires |s| > 0 && s[0] == '>' && n <= |s| - 1
    ensures s == ">" + (s[1..][..n] + s[1..][n..])
  {
    assert s[1..][..n] + s[1..][n..] == s[1..];
  }

  lemma {:induction false} CollapseIdentity(s: string)
    requires NoDoubleWs(s)
    ensures CollapseWs(s) == s
    decreases |s|
  {
    if |s| == 0 {
    } else {
      assert NoDoubleWs(s[1..]) by {
        forall i | 0 <= i < |s[1..]| - 1 ensures !(IsWs(s[1..][i]) && IsWs(s[1..][i + 1])) {
          assert s[1..][i] == s[i + 1] && s[1..][i + 1] == s[i + 2];
        }
      }
      CollapseIdentity(s[1..]);
      if IsWs(s[0]) {
        assert AllWs(s[..1]);
        WsRunIs(s, 1);
      }
      assert s == s[..1] + s[1..];
    }
  }

  lemma TrimIdentity(s: string)
    requires Trimmed(s)
    ensures Trim(s) == s
  {
    if |s| > 0 {
      WsRunIs(s, 0);
      assert TrailingWsRun(s) == 0;
    }
  }

  // ---------------------------------------------------------------------------
  // Order preservation: with whitespace removed, each pass returns its input.

  lemma TrimEndKeepsOrder(t: string)
    ensures NonWs(TrimEnd(t)) == NonWs(t)
  {
    var b := TrimEnd(t);
    assert t == b + t[|b|..];
    NonWsConcat(b, t[|b|..]);
    NonWsOfWs(t[|b|..]);
  }

  lemma TrimKeepsOrder(t: string)
    ensures NonWs(Trim(t)) == NonWs(t)
  {
    var a := TrimStart(t);
    assert t == t[..|t| - |a|] + a;
    NonWsConcat(t[..|t| - |a|], a);
    NonWsOfWs(t[..|t| - |a|]);
    TrimEndKeepsOrder(a);
  }

  lemma {:induction false} StripKeepsOrder(s: string)
    ensures NonWs(StripInterTagWs(s)) == NonWs(s)
    decreases |s|
  {
    if |s| > 0 {
      if s[0] == '>' {
        var t := s[1..];
        StripKeepsOrder(t[WsRun(t)..]);
        StripAngleKeepsOrder(s);
      } else {
        var b := StripInterTagWs(s[1..]);
        StripKeepsOrder(s[1..]);
        assert StripInterTagWs(s) == [s[0]] + b;
        NonWsConcat([s[0]], b);
        assert s == [s[0]] + s[1..];
        NonWsConcat([s[0]], s[1..]);
      }
    }
  }

  /** The step of `StripKeepsOrder` at a `>`: the whitespace run after it is
      kept or dropped, and either way holds nothing but whitespace. */
  lemma StripAngleKeepsOrder(s: string)
    requires |s| > 0 && s[0] == '>'
    requires var t := s[1..]; NonWs(StripInterTagWs(t[WsRun(t)..])) == NonWs(t[WsRun(t)..])
    ensures NonWs(StripInterTagWs(s)) == NonWs(s)
  {
    var t := s[1..];
    var n := WsRun(t);
    SkipWsKeepsOrder(t, n);
    ConsKeepsOrder(s, t);
    var b := StripInterTagWs(t[n..]);
    var kept := if 0 < n < |t| && t[n] == '<' then ">" else ">" + t[..n];
    assert StripInterTagWs(s) == kept + b;
    NonWsOfWs(t[..n]);
    NonWsConcat(">", t[..n]);
    WsGapKeepsOrder(kept, b, NonWs(">"));
  }

  lemma SkipWsKeepsOrder(t: string, n: nat)
    requires n <= |t| && AllWs(t[..n])
    ensures NonWs(t) == NonWs(t[n..])
  {
    assert t == t[..n] + t[n..];
    NonWsConcat(t[..n], t[n..]);
    NonWsOfWs(t[..n]);
  }

  lemma ConsKeepsOrder(s: string, t: string)
    requires |s| > 0 && s[0] == '>' && t == s[1..]
    ensures NonWs(s) == NonWs(">") + NonWs(t)
  {
    assert s == ">" + t;
    NonWsConcat(">", t);
  }

  lemma WsGapKeepsOrder(x: string, y: string, p: string)
    requires NonWs(x) == p
    ensures NonWs(x + y) == p + NonWs(y)
  {
    NonWsConcat(x, y);
  }

  lemma {:induction false} CollapseKeepsOrder(s: string)
    ensures NonWs(CollapseWs(s)) == NonWs(s)
    decreases |s|
  {
    if |s| > 0 {
      if IsWs(s[0]) {
        var n := WsRun(s);
        var b := CollapseWs(s[n..]);
        CollapseKeepsOrder(s[n..]);
        assert NonWs(CollapseWs(s)) == NonWs(b) by {
          var a := if n >= 2 then " " else s[..1];
          assert CollapseWs(s) == a + b;
          NonWsConcat(a, b);
          NonWsOfWs(a);
        }
        SkipWsKeepsOrder(s, n);
      } else {
        var b := CollapseWs(s[1..]);
        CollapseKeepsOrder(s[1..]);
        assert CollapseWs(s) == [s[0]] + b;
        NonWsConcat([s[0]], b);
        assert s == [s[0]] + s[1..];
        NonWsConcat([s[0]], s[1..]);
      }
    }
  }

  /** Minifying touches whitespace only: every other character survives, in the
      same order. */
  lemma MinifyKeepsOrder(xml: string)
    ensures NonWs(MinifyXml(xml)) == NonWs(xml)
  {
    StripKeepsOrder(xml);
    TrimKeepsOrder(StripInterTagWs(xml));
    CollapseKeepsOrder(Trim(StripInterTagWs(xml)));
  }

  /** Every character that is not whitespace occurs in the minified text exactly
      as often as in the input. */
  lemma MinifyKeepsContent(xml: string, c: char)
    requires !IsWs(c)
    ensures Count(MinifyXml(xml), c) == Count(xml, c)
  {
    MinifyKeepsOrder(xml);
    CountNonWs(MinifyXml(xml), c);
    CountNonWs(xml, c);
  }

  // ---------------------------------------------------------------------------
  // Whitespace shape: which whitespace runs each pass keeps.

  /** The text with each maximal whitespace run replaced by one space. Two texts
      with the same `Squeeze` differ only in the length and the characters of
      their whitespace runs, never in where a run is. */
  function Squeeze(s: string): (r: string)
    ensures |r| <= |s|
    ensures |s| > 0 ==> |r| > 0 && r[0] == (if IsWs(s[0]) then ' ' else s[0])
    decreases |s|
  {
    if |s| == 0 then ""
    else if IsWs(s[0]) then " " + Squeeze(s[WsRun(s)..])
    else [s[0]] + Squeeze(s[1..])
  }

  /** The text with the one space between each `>` and the `<` right after it
      removed: what `/>\s+</` leaves of a squeezed text. */
  function Tighten(q: string): (r: string)
    ensures |r| <= |q|
    ensures |q| > 0 ==> |r| > 0 && r[0] == q[0]
    decreases |q|
  {
    if |q| == 0 then ""
    else if |q| >= 3 && q[0] == '>' && q[1] == ' ' && q[2] == '<' then ">" + Tighten(q[2..])
    else [q[0]] + Tighten(q[1..])
  }

  /** Dropping the whitespace between tags keeps every other run: squeezed, the
      result is the squeezed input with the spaces between `>` and `<` removed. */
  lemma {:induction false} StripKeepsShape(s: string)
    ensures Squeeze(StripInterTagWs(s)) == Tighten(Squeeze(s))
    decreases |s|
  {
    if |s| > 0 {
      if s[0] == '>' {
        var t := s[1..];
        var n := WsRun(t);
        StripKeepsShape(t[n..]);
        if n == 0 {
          StripAngleNoGapShape(s);
        } else if n < |t| && t[n] == '<' {
          StripAngleGapShape(s);
        } else {
          StripAngleRunShape(s);
        }
      } else if IsWs(s[0]) {
        var m := WsRun(s);
        StripKeepsShape(s[m..]);
        StripWsShape(s);
      } else {
        StripKeepsShape(s[1..]);
        StripOtherShape(s);
      }
    }
  }

  /** `>` followed by a character that is not whitespace. */
  lemma StripAngleNoGapShape(s: string)
    requires |s| > 0 && s[0] == '>' && WsRun(s[1..]) == 0
    requires Squeeze(StripInterTagWs(s[1..])) == Tighten(Squeeze(s[1..]))
    ensures Squeeze(StripInterTagWs(s)) == Tighten(Squeeze(s))
  {
    StripUnfoldKeep(s);
    assert s[1..][..0] + StripInterTagWs(s[1..][0..]) == StripInterTagWs(s[1..]);
    OtherStep('>', StripInterTagWs(s[1..]), Squeeze(s[1..]));
  }

  /** `>`, a whitespace run, then `<`: the run goes. */
  lemma StripAngleGapShape(s: string)
    requires |s| > 0 && s[0] == '>'
    requires var t := s[1..]; var n := WsRun(t); 0 < n < |t| && t[n] == '<'
    requires var t := s[1..]; Squeeze(StripInterTagWs(t[WsRun(t)..])) == Tighten(Squeeze(t[WsRun(t)..]))
    ensures Squeeze(StripInterTagWs(s)) == Tighten(Squeeze(s))
  {
    var t := s[1..];
    var n := WsRun(t);
    StripUnfoldGap(s);
    SqueezeSplit(t, n);
    GapStep(StripInterTagWs(t[n..]), Squeeze(t[n..]));
  }

  /** `>`, a whitespace run, then something other than `<`: the run stays. */
  lemma StripAngleRunShape(s: string)
    requires |s| > 0 && s[0] == '>'
    requires var t := s[1..]; var n := WsRun(t); 0 < n && !(n < |t| && t[n] == '<')
    requires var t := s[1..]; Squeeze(StripInterTagWs(t[WsRun(t)..])) == Tighten(Squeeze(t[WsRun(t)..]))
    ensures Squeeze(StripInterTagWs(s)) == Tighten(Squeeze(s))
  {
    var t := s[1..];
    var n := WsRun(t);
    StripUnfoldKeep(s);
    SqueezeSplit(t, n);
    RunStep(t[..n], StripInterTagWs(t[n..]), Squeeze(t[n..]));
  }

  /** A whitespace run not after `>` is copied. */
  lemma StripWsShape(s: string)
    requires |s| > 0 && IsWs(s[0])
    requires Squeeze(StripInterTagWs(s[WsRun(s)..])) == Tighten(Squeeze(s[WsRun(s)..]))
    ensures Squeeze(StripInterTagWs(s)) == Tighten(Squeeze(s))
  {
    var m := WsRun(s);
    StripWsRun(s, m);
    WsStep(s[..m], StripInterTagWs(s[m..]), Squeeze(s[m..]));
  }

  /** Any other character is copied. */
  lemma StripOtherShape(s: string)
    requires |s| > 0 && s[0] != '>' && !IsWs(s[0])
    requires Squeeze(StripInterTagWs(s[1..])) == Tighten(Squeeze(s[1..]))
    ensures Squeeze(StripInterTagWs(s)) == Tighten(Squeeze(s))
  {
    StripUnfoldOther(s);
    OtherStep(s[0], StripInterTagWs(s[1..]), Squeeze(s[1..]));
  }

  lemma StripUnfoldOther(s: string)
    requires |s| > 0 && s[0] != '>'
    ensures StripInterTagWs(s) == [s[0]] + StripInterTagWs(s[1..])
  {
  }

  lemma StripUnfoldGap(s: string)
    requires |s| > 0 && s[0] == '>'
    requires var t := s[1..]; var n := WsRun(t); 0 < n < |t| && t[n] == '<'
    ensures var t := s[1..]; StripInterTagWs(s) == ">" + StripInterTagWs(t[WsRun(t)..])
  {
  }

  lemma StripUnfoldKeep(s: string)
    requires |s| > 0 && s[0] == '>'
    requires var t := s[1..]; var n := WsRun(t); !(0 < n < |t| && t[n] == '<')
    ensures var t := s[1..]; var n := WsRun(t);
      StripInterTagWs(s) == ">" + (t[..n] + StripInterTagWs(t[n..]))
  {
    var t := s[1..];
    var n := WsRun(t);
    ConcatAssoc(">", t[..n], StripInterTagWs(t[n..]));
  }

  /** A whitespace run at the front passes through the inter-tag pass unchanged. */
  lemma {:induction false} StripWsRun(s: string, m: nat)
    requires m <= |s| && AllWs(s[..m])
    ensures StripInterTagWs(s) == s[..m] + StripInterTagWs(s[m..])
    decreases m
  {
    if m == 0 {
      assert s[..0] + StripInterTagWs(s[0..]) == StripInterTagWs(s);
    } else {
      ShiftRun(s, m, StripInterTagWs(s[m..]));
      StripWsRun(s[1..], m - 1);
      StripUnfoldOther(s);
    }
  }

  /** Index bookkeeping for `StripWsRun`, kept apart from the pass itself. */
  lemma ShiftRun(s: string, m: nat, y: string)
    requires 0 < m <= |s| && AllWs(s[..m])
    ensures AllWs(s[1..][..m - 1]) && s[1..][m - 1..] == s[m..]
    ensures [s[0]] + (s[1..][..m - 1] + y) == s[..m] + y
  {
    var u := s[1..][..m - 1];
    forall i | 0 <= i < |u| ensures IsWs(u[i]) {
      assert u[i] == s[..m][i + 1];
    }
    assert [s[0]] + s[1..][..m - 1] == s[..m];
  }

  lemma OtherStep(c: char, b: string, q: string)
    requires !IsWs(c) && (c != '>' || |q| == 0 || q[0] != ' ')
    requires Squeeze(b) == Tighten(q)
    ensures Squeeze([c] + b) == Tighten([c] + q)
  {
    SqueezeOtherCons(c, b);
    TightenOtherCons(c, q);
  }

  lemma GapStep(b: string, q: string)
    requires |q| > 0 && q[0] == '<' && Squeeze(b) == Tighten(q)
    ensures Squeeze(">" + b) == Tighten(">" + (" " + q))
  {
    SqueezeOtherCons('>', b);
    TightenGap(q);
  }

  lemma RunStep(w: string, b: string, q: string)
    requires |w| > 0 && AllWs(w) && (|b| > 0 ==> !IsWs(b[0]))
    requires (|q| > 0 ==> q[0] != '<') && Squeeze(b) == Tighten(q)
    ensures Squeeze(">" + (w + b)) == Tighten(">" + (" " + q))
  {
    SqueezeOtherCons('>', w + b);
    SqueezeWsPrefix(w, b);
    TightenNoGap(q);
  }

  lemma WsStep(w: string, b: string, q: string)
    requires |w| > 0 && AllWs(w) && (|b| > 0 ==> !IsWs(b[0]))
    requires Squeeze(b) == Tighten(q)
    ensures Squeeze(w + b) == Tighten(" " + q)
  {
    SqueezeWsPrefix(w, b);
    TightenSpaceCons(q);
  }

  /** Collapsing runs changes no run's place: squeezed, it is the identity. */
  lemma {:induction false} CollapseKeepsShape(s: string)
    ensures Squeeze(CollapseWs(s)) == Squeeze(s)
    decreases |s|
  {
    if |s| > 0 {
      if IsWs(s[0]) {
        var n := WsRun(s);
        var b := CollapseWs(s[n..]);
        CollapseKeepsShape(s[n..]);
        var a := if n >= 2 then " " else s[..1];
        assert CollapseWs(s) == a + b;
        SqueezeWsPrefix(a, b);
      } else {
        var b := CollapseWs(s[1..]);
        CollapseKeepsShape(s[1..]);
        assert CollapseWs(s) == [s[0]] + b;
        SqueezeOtherCons(s[0], b);
        assert s == [s[0]] + s[1..];
        SqueezeOtherCons(s[0], s[1..]);
      }
    }
  }

  /** Trimming and squeezing commute. */
  lemma TrimKeepsShape(y: string)
    ensures Squeeze(Trim(y)) == Trim(Squeeze(y))
  {
    var w1, w2 := TrimSplit(y);
    ShapeAround(w1, Trim(y), w2);
  }

  /** A text is its trimmed core between two whitespace runs. */
  lemma TrimSplit(y: string) returns (w1: string, w2: string)
    ensures AllWs(w1) && AllWs(w2) && y == w1 + Trim(y) + w2
  {
    var a := TrimStart(y);
    w1 := y[..|y| - |a|];
    w2 := a[|Trim(y)|..];
    SplitAround(y, a, Trim(y));
  }

  lemma SplitAround(y: string, a: string, c: string)
    requires |a| <= |y| && a == y[|y| - |a|..] && |c| <= |a| && c == a[..|c|]
    ensures y == y[..|y| - |a|] + c + a[|c|..]
  {
    assert a == c + a[|c|..];
    assert y == y[..|y| - |a|] + a;
  }

  lemma ShapeAround(w1: string, c: string, w2: string)
    requires AllWs(w1) && AllWs(w2) && Trimmed(c)
    ensures Squeeze(c) == Trim(Squeeze(w1 + c + w2))
  {
    if |c| == 0 {
      assert w1 + c + w2 == w1 + w2;
      AllWsConcat(w1, w2);
      SqueezeAllWs(w1 + w2);
      TrimOfWs(Squeeze(w1 + w2));
    } else if |w1| > 0 {
      assert w1 + c + w2 == w1 + (c + w2);
      ShapeAroundLead(w1, c, w2);
    } else {
      assert w1 + c + w2 == c + w2;
      ShapeAroundTail(c, w2);
    }
  }

  lemma ShapeAroundLead(w1: string, c: string, w2: string)
    requires |w1| > 0 && AllWs(w1) && AllWs(w2) && |c| > 0 && Trimmed(c)
    ensures Squeeze(c) == Trim(Squeeze(w1 + (c + w2)))
  {
    SqueezeWsSuffix(c, w2);
    SqueezeLast(c);
    SqueezeWsPrefix(w1, c + w2);
    TrimSpaced(" ", Squeeze(c), |w2| > 0, Squeeze(w1 + (c + w2)));
  }

  lemma ShapeAroundTail(c: string, w2: string)
    requires AllWs(w2) && |c| > 0 && Trimmed(c)
    ensures Squeeze(c) == Trim(Squeeze(c + w2))
  {
    SqueezeWsSuffix(c, w2);
    SqueezeLast(c);
    TrimTailSpaced(Squeeze(c), |w2| > 0, Squeeze(c + w2));
  }

  lemma TrimTailSpaced(q: string, tail: bool, z: string)
    requires |q| > 0 && !IsWs(q[0]) && !IsWs(q[|q| - 1])
    requires z == q + if tail then " " else ""
    ensures Trim(z) == q
  {
    TrimSpaced("", q, tail, z);
  }

  /** A squeezed text with its edges: at most one space on each side. */
  lemma TrimSpaced(lead: string, q: string, tail: bool, z: string)
    requires lead == "" || lead == " "
    requires |q| > 0 && !IsWs(q[0]) && !IsWs(q[|q| - 1])
    requires z == lead + (q + if tail then " " else "")
    ensures Trim(z) == q
  {
    var e := if tail then " " else "";
    assert z == lead + q + e;
    TrimAround(lead, q, e, z);
  }

  /** The minified text, squeezed, is the squeezed input with the spaces between
      tags removed and the ends trimmed. Since the minified text has no two
      adjacent whitespace characters, this fixes where each of its whitespace
      characters is: a run survives exactly when it is interior and not
      between `>` and `<`. */
  lemma MinifyShape(xml: string)
    ensures Squeeze(MinifyXml(xml)) == Trim(Tighten(Squeeze(xml)))
  {
    var u := StripInterTagWs(xml);
    CollapseKeepsShape(Trim(u));
    TrimKeepsShape(u);
    StripKeepsShape(xml);
  }

  // ---------------------------------------------------------------------------
  // Which character each run becomes.

  /** No whitespace run straddles the seam between `x` and `y`. */
  predicate SeamOutsideRun(x: string, y: string) {
    |x| == 0 || |y| == 0 || !IsWs(x[|x| - 1]) || !IsWs(y[0])
  }

  /** Collapsing works run by run: it can be done on either side of a seam
      that no whitespace run straddles. */
  lemma {:induction false} CollapseSplit(x: string, y: string)
    requires SeamOutsideRun(x, y)
    ensures CollapseWs(x + y) == CollapseWs(x) + CollapseWs(y)
    decreases |x|
  {
    if |x| == 0 {
      assert x + y == y;
    } else {
      var k := if IsWs(x[0]) then WsRun(x) else 1;
      if IsWs(x[0]) {
        WsRunOfConcat(x, y);
      }
      SliceConcat2(x, y, k);
      if k < |x| { LastOfSuffix(x, k); }
      CollapseSplit(x[k..], y);
      if IsWs(x[0]) {
        CollapseUnfoldWs(x);
        CollapseUnfoldWs(x + y);
        var a := if k >= 2 then " " else x[..1];
        ConcatAssoc(a, CollapseWs(x[k..]), CollapseWs(y));
      } else {
        CollapseUnfoldOther(x);
        CollapseUnfoldOther(x + y);
        ConcatAssoc([x[0]], CollapseWs(x[k..]), CollapseWs(y));
      }
    }
  }

  /** A run of two or more whitespace characters becomes one space `' '`,
      whatever characters it was made of. */
  lemma CollapseRun(a: string, w: string, b: string)
    requires AllWs(w) && |w| >= 2
    requires a == "" || !IsWs(a[|a| - 1])
    requires b == "" || !IsWs(b[0])
    ensures CollapseWs(a + w + b) == CollapseWs(a) + " " + CollapseWs(b)
  {
    CollapseAround(a, w, b);
    CollapseAllWs(w);
  }

  /** A lone whitespace character is kept as it is. */
  lemma CollapseLone(a: string, c: char, b: string)
    requires IsWs(c)
    requires a == "" || !IsWs(a[|a| - 1])
    requires b == "" || !IsWs(b[0])
    ensures CollapseWs(a + [c] + b) == CollapseWs(a) + [c] + CollapseWs(b)
  {
    var w := [c];
    CollapseAround(a, w, b);
    CollapseAllWs(w);
  }

  /** A whole run between two seams is collapsed on its own. */
  lemma CollapseAround(a: string, w: string, b: string)
    requires AllWs(w) && |w| > 0
    requires a == "" || !IsWs(a[|a| - 1])
    requires b == "" || !IsWs(b[0])
    ensures CollapseWs(a + w + b) == CollapseWs(a) + CollapseWs(w) + CollapseWs(b)
  {
    CollapseSplit(w, b);
    assert a + w + b == a + (w + b);
    CollapseSplit(a, w + b);
    ConcatAssoc(CollapseWs(a), CollapseWs(w), CollapseWs(b));
  }

  /** A whitespace-only text collapses to one space, or is kept when it is a
      single character. */
  lemma CollapseAllWs(w: string)
    requires AllWs(w) && |w| > 0
    ensures CollapseWs(w) == if |w| >= 2 then " " else w
  {
    WsRunIs(w, |w|);
    CollapseUnfoldWs(w);
    assert w[|w|..] == "";
  }

  lemma CollapseUnfoldWs(s: string)
    requires |s| > 0 && IsWs(s[0])
    ensures CollapseWs(s) == (if WsRun(s) >= 2 then " " else s[..1]) + CollapseWs(s[WsRun(s)..])
  {
  }

  lemma CollapseUnfoldOther(s: string)
    requires |s| > 0 && !IsWs(s[0])
    ensures CollapseWs(s) == [s[0]] + CollapseWs(s[1..])
  {
  }

  /** The leading whitespace run of `x` is that of `x + y` when no run
      straddles the seam. */
  lemma WsRunOfConcat(x: string, y: string)
    requires |x| > 0 && SeamOutsideRun(x, y)
    ensures WsRun(x + y) == WsRun(x)
  {
    var n := WsRun(x);
    assert (x + y)[..n] == x[..n];
    if n < |x| {
      assert (x + y)[n] == x[n];
    } else if |y| > 0 {
      assert x[..n][|x| - 1] == x[|x| - 1];
      assert (x + y)[n] == y[0];
    }
    WsRunIs(x + y, n);
  }

  lemma SliceConcat2(x: string, y: string, k: nat)
    requires 0 < k <= |x|
    ensures (x + y)[0] == x[0] && (x + y)[..1] == x[..1] && (x + y)[k..] == x[k..] + y
  {
  }

  // Shape helpers

  lemma SqueezeOtherCons(c: char, r: string)
    requires !IsWs(c)
    ensures Squeeze([c] + r) == [c] + Squeeze(r)
  {
    assert ([c] + r)[1..] == r;
  }

  /** A leading whitespace run squeezes to one space. */
  lemma SqueezeWsPrefix(w: string, r: string)
    requires |w| > 0 && AllWs(w) && (|r| > 0 ==> !IsWs(r[0]))
    ensures Squeeze(w + r) == " " + Squeeze(r)
  {
    assert (w + r)[..|w|] == w;
    WsRunIs(w + r, |w|);
    assert (w + r)[|w|..] == r;
  }

  /** Splitting a text after its leading whitespace run. */
  lemma SqueezeSplit(t: string, n: nat)
    requires 0 < n && n == WsRun(t)
    ensures Squeeze(t) == " " + Squeeze(t[n..])
    ensures n < |t| ==> Squeeze(t[n..])[0] == t[n]
  {
  }

  lemma SqueezeAllWs(w: string)
    requires AllWs(w)
    ensures Squeeze(w) == if |w| > 0 then " " else ""
  {
    if |w| > 0 {
      SqueezeWsPrefix(w, "");
      assert w + "" == w;
    }
  }

  /** A trailing whitespace run squeezes to one space. */
  lemma {:induction false} SqueezeWsSuffix(c: string, w: string)
    requires AllWs(w) && (|c| > 0 ==> !IsWs(c[|c| - 1]))
    ensures Squeeze(c + w) == Squeeze(c) + (if |w| > 0 then " " else "")
    decreases |c|
  {
    var e := if |w| > 0 then " " else "";
    if |c| == 0 {
      assert c + w == w;
      SqueezeAllWs(w);
    } else {
      var k := if IsWs(c[0]) then WsRun(c) else 1;
      assert IsWs(c[0]) ==> k < |c|;
      if k < |c| { LastOfSuffix(c, k); }
      SqueezeWsSuffix(c[k..], w);
      if IsWs(c[0]) {
        SuffixWsStep(c, w, k, e);
      } else {
        SuffixOtherStep(c, w, e);
      }
    }
  }

  lemma LastOfSuffix(c: string, k: nat)
    requires k < |c|
    ensures c[k..][|c[k..]| - 1] == c[|c| - 1]
  {
  }

  lemma SuffixOtherStep(c: string, w: string, e: string)
    requires |c| > 0 && !IsWs(c[0]) && Squeeze(c[1..] + w) == Squeeze(c[1..]) + e
    ensures Squeeze(c + w) == Squeeze(c) + e
  {
    ConsConcat(c, w);
    SqueezeOtherCons(c[0], c[1..] + w);
    ConcatAssoc([c[0]], Squeeze(c[1..]), e);
  }

  lemma SuffixWsStep(c: string, w: string, n: nat, e: string)
    requires |c| > 0 && IsWs(c[0]) && n == WsRun(c) && n < |c|
    requires Squeeze(c[n..] + w) == Squeeze(c[n..]) + e
    ensures Squeeze(c + w) == Squeeze(c) + e
  {
    SliceConcat(c, w, n);
    WsRunIs(c + w, n);
    ConcatAssoc(" ", Squeeze(c[n..]), e);
  }

  lemma ConsConcat(c: string, w: string)
    requires |c| > 0
    ensures c + w == [c[0]] + (c[1..] + w)
  {
    assert c == [c[0]] + c[1..];
  }

  lemma SliceConcat(c: string, w: string, n: nat)
    requires n < |c|
    ensures (c + w)[..n] == c[..n] && (c + w)[n] == c[n] && (c + w)[n..] == c[n..] + w
  {
  }

  lemma TightenSpaceCons(q: string)
    ensures Tighten(" " + q) == " " + Tighten(q)
  {
    assert (" " + q)[1..] == q;
  }

  lemma TightenOtherCons(c: char, q: string)
    requires c != '>' || |q| == 0 || q[0] != ' '
    ensures Tighten([c] + q) == [c] + Tighten(q)
  {
    assert ([c] + q)[1..] == q;
  }

  lemma TightenGap(q: string)
    requires |q| > 0 && q[0] == '<'
    ensures Tighten(">" + (" " + q)) == ">" + Tighten(q)
  {
    var z := ">" + (" " + q);
    assert |z| >= 3 && z[0] == '>' && z[1] == ' ' && z[2] == '<';
    assert z[2..] == q;
  }

  lemma TightenNoGap(q: string)
    requires |q| > 0 ==> q[0] != '<'
    ensures Tighten(">" + (" " + q)) == ">" + (" " + Tighten(q))
  {
    assert (">" + (" " + q))[1..] == " " + q;
    TightenSpaceCons(q);
  }

  lemma AllWsConcat(a: string, b: string)
    requires AllWs(a) && AllWs(b)
    ensures AllWs(a + b)
  {
  }

  lemma TrimOfWs(s: string)
    requires AllWs(s)
    ensures Trim(s) == ""
  {
    WsRunIs(s, |s|);
  }

  /** The end of a text's trailing whitespace run is fixed by its last
      character that is not whitespace. */
  lemma TrailingWsRunIs(t: string, n: nat)
    requires n <= |t| && AllWs(t[|t| - n..]) && (n < |t| ==> !IsWs(t[|t| - n - 1]))
    ensures TrailingWsRun(t) == n
  {
    var k := TrailingWsRun(t);
    if k < n {
      assert false;
    } else if k > n {
      assert false;
    }
  }

  /** Squeezing keeps a last character that is not whitespace. */
  lemma {:induction false} SqueezeLast(s: string)
    requires |s| > 0 && !IsWs(s[|s| - 1])
    ensures |Squeeze(s)| > 0 && !IsWs(Squeeze(s)[|Squeeze(s)| - 1])
    decreases |s|
  {
    if IsWs(s[0]) {
      var n := WsRun(s);
      assert n < |s|;
      SqueezeLast(s[n..]);
    } else if |s| > 1 {
      SqueezeLast(s[1..]);
    }
  }

  /** Trimming removes exactly the whitespace around a trimmed core. */
  lemma TrimAround(w1: string, q: string, w2: string, s: string)
    requires AllWs(w1) && AllWs(w2) && |q| > 0 && !IsWs(q[0]) && !IsWs(q[|q| - 1])
    requires s == w1 + q + w2
    ensures Trim(s) == q
  {
    assert s[..|w1|] == w1;
    assert s[|w1|] == q[0];
    WsRunIs(s, |w1|);
    var a := s[|w1|..];
    assert a == q + w2;
    assert a[|a| - |w2|..] == w2;
    assert a[|a| - |w2| - 1] == q[|q| - 1];
    TrailingWsRunIs(a, |w2|);
    assert a[..|q|] == q;
  }
}
