/** The hand-rolled XML pretty-printer `formatXMLString` (content.js:139-185):
    a regular-expression tokenizer followed by a loop that emits one token per
    line, indented by a depth counter. */
module XmlFormat {
  import opened Strings
  import opened XmlMinify

  /** The indent setting: a number of spaces, or a literal string such as a tab. */
  datatype Indent = Spaces(n: nat) | Literal(s: string)

  /** `typeof indent === 'number' ? ' '.repeat(indent) : String(indent)`. */
  function IndentUnit(indent: Indent): (r: string)
    ensures indent.Spaces? ==> |r| == indent.n && forall i :: 0 <= i < |r| ==> r[i] == ' '
    ensures indent.Spaces? ==> AllWs(r)
    ensures indent.Literal? ==> r == indent.s
  {
    match indent
    case Spaces(n) => RepeatSpace(n); Repeat(" ", n)
    case Literal(s) => s
  }

  lemma {:induction false} RepeatSpace(n: nat)
    ensures forall i :: 0 <= i < |Repeat(" ", n)| ==> Repeat(" ", n)[i] == ' '
  {
    if n > 0 {
      RepeatSpace(n - 1);
      assert Repeat(" ", n) == " " + Repeat(" ", n - 1);
    }
  }

  // ---------------------------------------------------------------------------
  // Tokenizer: `stripped.match(/<!\[CDATA\[[\s\S]*?\]\]>|<!--[\s\S]*?-->|<\?[\s\S]*?\?>|<!DOCTYPE[^>]*>|<[^>]+>|[^<]+/gi)`

  /** Length of the token the ordered alternation matches at the start of `s`, or
      `None` when no alternative matches there (only possible at a `<`). The `i`
      flag makes the CDATA and DOCTYPE keywords case-insensitive; the lazy bodies
      end at the first terminator. */
  function MatchAt(s: string): (r: Option<nat>)
    requires |s| > 0
    ensures r.Some? ==> 0 < r.value <= |s|
    ensures r.None? ==> s[0] == '<'
  {
    if StartsWithIgnoreCase(s, "<![CDATA[") && IndexOf(s, "]]>", 9).Some? then
      Some(IndexOf(s, "]]>", 9).value + 3)
    else if StartsWith(s, "<!--") && IndexOf(s, "-->", 4).Some? then
      Some(IndexOf(s, "-->", 4).value + 3)
    else if StartsWith(s, "<?") && IndexOf(s, "?>", 2).Some? then
      Some(IndexOf(s, "?>", 2).value + 2)
    else if StartsWithIgnoreCase(s, "<!DOCTYPE") && IndexOf(s, ">", 9).Some? then
      Some(IndexOf(s, ">", 9).value + 1)
    else if s[0] == '<' && |s| >= 2 && s[1] != '>' && IndexOf(s, ">", 1).Some? then
      Some(IndexOf(s, ">", 1).value + 1)
    else if s[0] != '<' then
      match IndexOf(s, "<", 0)
      case Some(i) => Some(i)
      case None => Some(|s|)
    else None
  }

  /** The global match: tokens left to right; where nothing matches, the scan
      moves on by one character, so a stray `<` is dropped. */
  function Tokens(s: string): seq<string>
    decreases |s|
  {
    if |s| == 0 then []
    else match MatchAt(s)
      case Some(n) => [s[..n]] + Tokens(s[n..])
      case None => Tokens(s[1..])
  }

  function Concat(ts: seq<string>): string {
    if |ts| == 0 then "" else ts[0] + Concat(ts[1..])
  }

  // ---------------------------------------------------------------------------
  // Emitter

  datatype TokenKind = ProcessingInstruction | Comment | CData | Doctype | Closing | SelfClosing | Opening | Text

  /** The emitter's `if` chain, in its order; only the DOCTYPE test ignores case. */
  function Classify(t: string): TokenKind {
    if StartsWith(t, "<?") then ProcessingInstruction
    else if StartsWith(t, "<!--") then Comment
    else if StartsWith(t, "<![CDATA[") then CData
    else if StartsWithIgnoreCase(t, "<!DOCTYPE") then Doctype
    else if StartsWith(t, "</") then Closing
    else if StartsWith(t, "<") && EndsWith(t, "/>") then SelfClosing
    else if StartsWith(t, "<") then Opening
    else Text
  }

  /** The loop's two variables. */
  datatype FmtState = FmtState(formatted: string, depth: nat)

  /** One iteration of the loop: a closing tag lowers the depth (never below 0)
      before it is written, an opening tag raises it after; text is trimmed and
      written only when something is left. */
  function Step(st: FmtState, t: string, unit: string): FmtState {
    match Classify(t)
    case Closing =>
      var d := if st.depth == 0 then 0 else st.depth - 1;
      FmtState(st.formatted + Repeat(unit, d) + t + "\n", d)
    case Opening =>
      FmtState(st.formatted + Repeat(unit, st.depth) + t + "\n", st.depth + 1)
    case Text =>
      var tt := Trim(t);
      if tt == "" then st else FmtState(st.formatted + Repeat(unit, st.depth) + tt + "\n", st.depth)
    case _ =>
      FmtState(st.formatted + Repeat(unit, st.depth) + t + "\n", st.depth)
  }

  function Run(ts: seq<string>, st: FmtState, unit: string): FmtState
    decreases |ts|
  {
    if |ts| == 0 then st else Run(ts[1..], Step(st, ts[0], unit), unit)
  }

  lemma RunUnfold(ts: seq<string>, i: nat, st: FmtState, unit: string)
    requires i < |ts|
    ensures Run(ts[i..], st, unit) == Run(ts[i + 1..], Step(st, ts[i], unit), unit)
  {
    assert ts[i..][1..] == ts[i + 1..];
  }

  /** What `formatXMLString(xml, indent)` returns. */
  function FormatXml(xml: string, indent: Indent): string {
    var tokens := Tokens(StripInterTagWs(xml));
    if |tokens| == 0 then xml
    else TrimEnd(Run(tokens, FmtState("", 0), IndentUnit(indent)).formatted)
  }

  /** The body of the loop in `formatXMLString`: writes one token's line and
      adjusts the depth, exactly as `Step` says. */
  method EmitToken(formatted: string, depth: nat, token: string, indentStr: string) returns (f: string, d: nat)
    ensures FmtState(f, d) == Step(FmtState(formatted, depth), token, indentStr)
  {
    f, d := formatted, depth;
    if StartsWith(token, "<?") {
      f := f + Repeat(indentStr, d) + token + "\n";
    } else if StartsWith(token, "<!--") {
      f := f + Repeat(indentStr, d) + token + "\n";
    } else if StartsWith(token, "<![CDATA[") {
      f := f + Repeat(indentStr, d) + token + "\n";
    } else if StartsWithIgnoreCase(token, "<!DOCTYPE") {
      f := f + Repeat(indentStr, d) + token + "\n";
    } else if StartsWith(token, "</") {
      d := if d == 0 then 0 else d - 1;
      f := f + Repeat(indentStr, d) + token + "\n";
    } else if StartsWith(token, "<") && EndsWith(token, "/>") {
      f := f + Repeat(indentStr, d) + token + "\n";
    } else if StartsWith(token, "<") {
      f := f + Repeat(indentStr, d) + token + "\n";
      d := d + 1;
    } else {
      var trimmedText := Trim(token);
      if trimmedText != "" {
        f := f + Repeat(indentStr, d) + trimmedText + "\n";
      }
    }
  }

  /** `formatXMLString`, with its loop over the tokens. */
  method FormatXmlString(xml: string, indent: Indent) returns (r: string)
    ensures r == FormatXml(xml, indent)
  {
    var indentStr := IndentUnit(indent);
    var stripped := StripInterTagWs(xml);
    var tokens := Tokens(stripped);
    if |tokens| == 0 {
      return xml;
    }
    var formatted := "";
    var depth: nat := 0;
    for i := 0 to |tokens|
      invariant Run(tokens[i..], FmtState(formatted, depth), indentStr) == Run(tokens, FmtState("", 0), indentStr)
    {
      RunUnfold(tokens, i, FmtState(formatted, depth), indentStr);
      formatted, depth := EmitToken(formatted, depth, tokens[i], indentStr);
    }
    r := TrimEnd(formatted);
  }

  // ---------------------------------------------------------------------------
  // Tokenizer properties

  /** A comment is one token up to its first `-->`, even when it holds `>` or `<`
      earlier: the comment alternative is tried before the generic tag. */
  lemma MatchCommentAt(s: string, k: nat)
    requires StartsWith(s, "<!--") && IndexOf(s, "-->", 4) == Some(k)
    ensures MatchAt(s) == Some(k + 3)
  {
    assert s[2] == "<!--"[2];
    assert !CharEqIgnoreCase(s[2], "<![CDATA["[2]);
  }

  lemma CommentIsOneToken(s: string, k: nat)
    requires StartsWith(s, "<!--") && IndexOf(s, "-->", 4) == Some(k)
    ensures |Tokens(s)| > 0 && Tokens(s)[0] == s[..k + 3]
    ensures Classify(Tokens(s)[0]) == Comment
  {
    MatchCommentAt(s, k);
    var t := s[..k + 3];
    assert t[..4] == s[..4];
    assert t[1] == '!';
    assert !StartsWith(t, "<?");
  }

  /** A CDATA section is one token up to its first `]]>`, whatever it contains. */
  lemma CDataIsOneToken(s: string, k: nat)
    requires StartsWith(s, "<![CDATA[") && IndexOf(s, "]]>", 9) == Some(k)
    ensures |Tokens(s)| > 0 && Tokens(s)[0] == s[..k + 3]
    ensures Classify(Tokens(s)[0]) == CData
  {
    assert s[..9] == "<![CDATA[";
    assert StartsWithIgnoreCase(s, "<![CDATA[");
    assert MatchAt(s) == Some(k + 3);
    var t := s[..k + 3];
    assert t[..9] == s[..9];
    assert t[1] == '!' && t[2] == '[';
  }

  /** A processing instruction is one token up to its first `?>`. */
  lemma PiIsOneToken(s: string, k: nat)
    requires StartsWith(s, "<?") && IndexOf(s, "?>", 2) == Some(k)
    ensures |Tokens(s)| > 0 && Tokens(s)[0] == s[..k + 2]
    ensures Classify(Tokens(s)[0]) == ProcessingInstruction
  {
    assert s[1] == "<?"[1];
    assert !CharEqIgnoreCase(s[1], "<![CDATA["[1]);
    assert !StartsWith(s, "<!--");
    assert MatchAt(s) == Some(k + 2);
    var t := s[..k + 2];
    assert t[..2] == s[..2];
  }

  /** The tokenizer finds nothing exactly when the text is made of `<` alone. */
  lemma {:induction false} NoTokensIffAllAngles(s: string)
    ensures Tokens(s) == [] <==> forall i :: 0 <= i < |s| ==> s[i] == '<'
    decreases |s|
  {
    if |s| > 0 {
      NoTokensIffAllAngles(s[1..]);
      if forall i :: 0 <= i < |s| ==> s[i] == '<' {
        AllAnglesMatchNothing(s);
      } else if MatchAt(s) == None {
        var j :| 0 <= j < |s| && s[j] != '<';
        assert s[1..][j - 1] == s[j];
      }
    }
  }

  lemma AllAnglesMatchNothing(s: string)
    requires |s| > 0 && forall i :: 0 <= i < |s| ==> s[i] == '<'
    ensures MatchAt(s) == None
  {
    if |s| >= 2 {
      assert !CharEqIgnoreCase(s[1], '!');
      forall k: nat ensures !OccursAt(s, ">", k) {
        if k + 1 <= |s| {
          assert s[k..k + 1][0] == '<';
        }
      }
    }
  }

  /** Characters other than `<` are neither lost, invented nor reordered by the
      tokenizer: joined back together, the tokens are the text with some `<`
      removed. */
  lemma {:induction false} TokensKeepAllButStrayAngles(s: string)
    ensures Without(Concat(Tokens(s)), '<') == Without(s, '<')
    decreases |s|
  {
    if |s| > 0 {
      match MatchAt(s)
      case Some(n) =>
        TokensKeepAllButStrayAngles(s[n..]);
        var rest := Tokens(s[n..]);
        TokensCons(s, n, s[..n], rest);
        ConcatCons(s[..n], rest);
        WithoutConcat(s[..n], Concat(rest), '<');
        assert s == s[..n] + s[n..];
        WithoutConcat(s[..n], s[n..], '<');
      case None =>
        TokensKeepAllButStrayAngles(s[1..]);
    }
  }

  /** Every `<` is followed by a character other than `>` and, later, by a `>`. */
  predicate WellAngled(s: string) {
    forall i :: 0 <= i < |s| && s[i] == '<' ==> i + 2 < |s| && s[i + 1] != '>' && '>' in s[i + 2..]
  }

  lemma WellAngledSuffix(s: string, k: nat)
    requires WellAngled(s) && k <= |s|
    ensures WellAngled(s[k..])
  {
    forall i | 0 <= i < |s[k..]| && s[k..][i] == '<'
      ensures i + 2 < |s[k..]| && s[k..][i + 1] != '>' && '>' in s[k..][i + 2..]
    {
      assert s[k + i] == '<';
      assert s[k..][i + 2..] == s[k + i + 2..];
    }
  }

  /** A `<` with a later `>` that does not close it at once always starts a token. */
  lemma AngleMatches(s: string)
    requires |s| > 2 && s[0] == '<' && s[1] != '>' && '>' in s[2..]
    ensures MatchAt(s).Some?
  {
    var j :| 0 <= j < |s[2..]| && s[2..][j] == '>';
    assert OccursAt(s, ">", j + 2) by { assert s[j + 2..j + 3] == [s[j + 2]]; }
  }

  /** In well-angled text every `<` starts a token, so nothing is skipped. */
  lemma {:induction false} WellAngledTokensKeepAll(s: string)
    requires WellAngled(s)
    ensures Concat(Tokens(s)) == s
    decreases |s|
  {
    if |s| > 0 {
      if s[0] == '<' {
        AngleMatches(s);
      }
      var n := MatchAt(s).value;
      WellAngledSuffix(s, n);
      WellAngledTokensKeepAll(s[n..]);
      TokensCons(s, n, s[..n], Tokens(s[n..]));
      ConcatCons(s[..n], Tokens(s[n..]));
      assert s == s[..n] + s[n..];
    }
  }

  lemma ConcatCons(t: string, ts: seq<string>)
    ensures Concat([t] + ts) == t + Concat(ts)
  {
    assert ([t] + ts)[1..] == ts;
  }

  // ---------------------------------------------------------------------------
  // Emitter properties

  function CountKind(ts: seq<string>, k: TokenKind): nat {
    if |ts| == 0 then 0 else (if Classify(ts[0]) == k then 1 else 0) + CountKind(ts[1..], k)
  }

  /** Depth never exceeds the number of opening tags seen, and falls below
      "openings minus closings" only through the floor at 0. */
  lemma {:induction false} DepthBounds(ts: seq<string>, st: FmtState, unit: string)
    ensures Run(ts, st, unit).depth <= st.depth + CountKind(ts, Opening)
    ensures Run(ts, st, unit).depth >= st.depth + CountKind(ts, Opening) - CountKind(ts, Closing)
    decreases |ts|
  {
    if |ts| > 0 {
      DepthBounds(ts[1..], Step(st, ts[0], unit), unit);
    }
  }

  lemma CountKindPrefix(ts: seq<string>, m: nat, k: TokenKind)
    requires 0 < |ts| && m < |ts|
    ensures CountKind(ts[..m + 1], k) == (if Classify(ts[0]) == k then 1 else 0) + CountKind(ts[1..][..m], k)
  {
    assert ts[..m + 1][0] == ts[0];
    assert ts[..m + 1][1..] == ts[1..][..m];
  }

  /** When no prefix closes more tags than it opens, the floor is never used and
      the depth is exactly openings minus closings. */
  lemma {:induction false} DepthWhenNested(ts: seq<string>, st: FmtState, unit: string)
    requires forall m :: 0 <= m <= |ts| ==> CountKind(ts[..m], Closing) <= st.depth + CountKind(ts[..m], Opening)
    ensures Run(ts, st, unit).depth == st.depth + CountKind(ts, Opening) - CountKind(ts, Closing)
    decreases |ts|
  {
    if |ts| > 0 {
      var st' := Step(st, ts[0], unit);
      CountKindPrefix(ts, 0, Closing);
      CountKindPrefix(ts, 0, Opening);
      assert ts[..1] == [ts[0]];
      assert st'.depth == st.depth + (if Classify(ts[0]) == Opening then 1 else 0) - (if Classify(ts[0]) == Closing then 1 else 0);
      forall m | 0 <= m <= |ts[1..]|
        ensures CountKind(ts[1..][..m], Closing) <= st'.depth + CountKind(ts[1..][..m], Opening)
      {
        CountKindPrefix(ts, m, Closing);
        CountKindPrefix(ts, m, Opening);
      }
      DepthWhenNested(ts[1..], st', unit);
      assert ts == ts[..|ts|];
    }
  }

  /** A whitespace-only text token writes nothing and leaves the depth alone. */
  lemma BlankTextEmitsNothing(st: FmtState, t: string, unit: string)
    requires |t| > 0 && AllWs(t)
    ensures Classify(t) == Text && Step(st, t, unit) == st
  {
    assert t[0] != '<';
    assert !CharEqIgnoreCase(t[0], '<');
    assert WsRun(t) == |t|;
  }

  /** A token written after `<` and before `/>` is self-closing and leaves the
      depth alone, unless it is a closing tag, PI, comment, CDATA or DOCTYPE. */
  lemma SelfClosingKeepsDepth(st: FmtState, t: string, unit: string)
    requires StartsWith(t, "<") && EndsWith(t, "/>")
    requires !StartsWith(t, "</") && !StartsWith(t, "<?") && !StartsWith(t, "<!--")
             && !StartsWith(t, "<![CDATA[") && !StartsWithIgnoreCase(t, "<!DOCTYPE")
    ensures Classify(t) == SelfClosing
    ensures Step(st, t, unit) == FmtState(st.formatted + Repeat(unit, st.depth) + t + "\n", st.depth)
  {
  }

  /** The formatted text never ends in whitespace: either it is trimmed at the
      end, or nothing tokenized and the input, then made of `<` alone, comes back. */
  lemma FormatEndsWithoutWs(xml: string, indent: Indent)
    ensures var r := FormatXml(xml, indent); |r| > 0 ==> !IsWs(r[|r| - 1])
  {
    var x := StripInterTagWs(xml);
    if Tokens(x) == [] {
      NoTokensIffAllAngles(x);
      NoTokensOnlyAngles(xml);
    }
  }

  /** When the stripped text tokenizes to nothing, the input was `<` alone: it had
      no `>`, so stripping changed nothing. */
  lemma NoTokensOnlyAngles(xml: string)
    requires forall i :: 0 <= i < |StripInterTagWs(xml)| ==> StripInterTagWs(xml)[i] == '<'
    ensures forall i :: 0 <= i < |xml| ==> xml[i] == '<'
  {
    var x := StripInterTagWs(xml);
    CountZeroIffAbsent(x, '>');
    StripKeepsOrder(xml);
    CountNonWs(x, '>');
    CountNonWs(xml, '>');
    CountZeroIffAbsent(xml, '>');
    StripIdentity(xml);
  }

  /** When nothing tokenizes (the text is all `<`), the input comes back unchanged. */
  lemma FormatWithoutTokensIsIdentity(xml: string, indent: Indent)
    requires forall i :: 0 <= i < |xml| ==> xml[i] == '<'
    ensures FormatXml(xml, indent) == xml
  {
    NoWsStripIdentity(xml);
    NoTokensIffAllAngles(xml);
  }

  lemma NoWsStripIdentity(s: string)
    requires forall i :: 0 <= i < |s| ==> !IsWs(s[i])
    ensures StripInterTagWs(s) == s
  {
    forall i | 0 <= i < |s| && s[i] == '>'
      ensures !WsThenAngle(s[i + 1..])
    {
      if i + 1 < |s| {
        assert s[i + 1..][0] == s[i + 1];
      }
    }
    StripIdentity(s);
  }

  // ---------------------------------------------------------------------------
  // Content preservation: with a whitespace indent unit, formatting only moves
  // whitespace around and drops stray `<` characters.

  lemma {:induction false} RepeatAllWs(u: string, n: nat)
    requires AllWs(u)
    ensures AllWs(Repeat(u, n))
  {
    if n > 0 {
      RepeatAllWs(u, n - 1);
      var r := Repeat(u, n);
      assert r == u + Repeat(u, n - 1);
      forall i | 0 <= i < |r| ensures IsWs(r[i]) {
        if i < |u| { assert r[i] == u[i]; } else { assert r[i] == Repeat(u, n - 1)[i - |u|]; }
      }
    }
  }

  /** One step appends its token with the whitespace dropped, apart from indentation. */
  lemma StepKeepsOrder(st: FmtState, t: string, unit: string)
    requires AllWs(unit)
    ensures NonWs(Step(st, t, unit).formatted) == NonWs(st.formatted) + NonWs(t)
  {
    var k := Classify(t);
    if k == Text {
      TextStepKeepsOrder(st, t, unit);
    } else {
      var d := if k == Closing && st.depth > 0 then st.depth - 1 else st.depth;
      var g := st.formatted + Repeat(unit, d) + t + "\n";
      assert Step(st, t, unit).formatted == g;
      LineKeepsOrder(st.formatted, unit, d, t, g);
    }
  }

  lemma TextStepKeepsOrder(st: FmtState, t: string, unit: string)
    requires AllWs(unit) && Classify(t) == Text
    ensures NonWs(Step(st, t, unit).formatted) == NonWs(st.formatted) + NonWs(t)
  {
    var tt := Trim(t);
    TrimKeepsOrder(t);
    if tt != "" {
      var g := st.formatted + Repeat(unit, st.depth) + tt + "\n";
      assert Step(st, t, unit).formatted == g;
      LineKeepsOrder(st.formatted, unit, st.depth, tt, g);
    } else {
      assert st.formatted + NonWs(t) == st.formatted;
    }
  }

  lemma LineKeepsOrder(f: string, unit: string, d: nat, w: string, g: string)
    requires AllWs(unit) && g == f + Repeat(unit, d) + w + "\n"
    ensures NonWs(g) == NonWs(f) + NonWs(w)
  {
    var pad := Repeat(unit, d);
    RepeatAllWs(unit, d);
    NonWsOfWs(pad);
    NonWsConcat(f, pad);
    assert NonWs(f + pad) == NonWs(f);
    NonWsConcat(f + pad, w);
    var nl := "\n";
    assert NonWs(nl) == "" by { assert IsWs(nl[0]) && |nl[1..]| == 0; }
    NonWsConcat(f + pad + w, nl);
  }

  lemma {:induction false} RunKeepsOrder(ts: seq<string>, st: FmtState, unit: string)
    requires AllWs(unit)
    ensures NonWs(Run(ts, st, unit).formatted) == NonWs(st.formatted) + NonWs(Concat(ts))
    decreases |ts|
  {
    if |ts| > 0 {
      var st' := Step(st, ts[0], unit);
      StepKeepsOrder(st, ts[0], unit);
      RunKeepsOrder(ts[1..], st', unit);
      assert Run(ts, st, unit) == Run(ts[1..], st', unit);
      assert Concat(ts) == ts[0] + Concat(ts[1..]);
      NonWsRegroup(Run(ts, st, unit).formatted, st'.formatted, st.formatted, ts[0], Concat(ts[1..]));
    } else {
      assert Concat(ts) == [];
    }
  }

  lemma NonWsRegroup(r: string, mid: string, f: string, t: string, rest: string)
    requires NonWs(r) == NonWs(mid) + NonWs(rest) && NonWs(mid) == NonWs(f) + NonWs(t)
    ensures NonWs(r) == NonWs(f) + NonWs(t + rest)
  {
    NonWsConcat(t, rest);
    ConcatAssoc(NonWs(f), NonWs(t), NonWs(rest));
  }

  /** With a whitespace indent unit (spaces or a tab), formatting only moves
      whitespace around and drops stray `<`: every other character survives, in
      the same order. */
  lemma FormatKeepsOrder(xml: string, indent: Indent)
    requires AllWs(IndentUnit(indent))
    ensures Without(NonWs(FormatXml(xml, indent)), '<') == Without(NonWs(xml), '<')
  {
    var x := StripInterTagWs(xml);
    var tokens := Tokens(x);
    if |tokens| > 0 {
      var run := Run(tokens, FmtState("", 0), IndentUnit(indent)).formatted;
      TrimEndKeepsOrder(run);
      RunKeepsOrder(tokens, FmtState("", 0), IndentUnit(indent));
      assert NonWs(run) == NonWs(Concat(tokens));
      NonWsWithout(Concat(tokens), '<');
      TokensKeepAllButStrayAngles(x);
      NonWsWithout(x, '<');
      StripKeepsOrder(xml);
    }
  }

  /** When, after the inter-tag pass, every `<` opens a token, no `<` is lost
      either: the output is the input with only its whitespace changed. */
  lemma FormatKeepsAllWhenWellAngled(xml: string, indent: Indent)
    requires AllWs(IndentUnit(indent)) && WellAngled(StripInterTagWs(xml))
    ensures NonWs(FormatXml(xml, indent)) == NonWs(xml)
  {
    var x := StripInterTagWs(xml);
    var tokens := Tokens(x);
    if |tokens| > 0 {
      var run := Run(tokens, FmtState("", 0), IndentUnit(indent)).formatted;
      TrimEndKeepsOrder(run);
      RunKeepsOrder(tokens, FmtState("", 0), IndentUnit(indent));
      WellAngledTokensKeepAll(x);
      StripKeepsOrder(xml);
    }
  }

  /** Every character that is neither whitespace nor `<` occurs in the output
      as often as in the input. */
  lemma FormatKeepsContent(xml: string, indent: Indent, c: char)
    requires AllWs(IndentUnit(indent)) && !IsWs(c) && c != '<'
    ensures Count(FormatXml(xml, indent), c) == Count(xml, c)
  {
    var f := FormatXml(xml, indent);
    FormatKeepsOrder(xml, indent);
    CountNonWs(f, c);
    CountWithout(NonWs(f), '<', c);
    CountNonWs(xml, c);
    CountWithout(NonWs(xml), '<', c);
  }

  // ---------------------------------------------------------------------------
  // A worked example

  lemma {:induction false} IndexOfIs(s: string, pat: string, from: nat, k: nat)
    requires |pat| > 0 && from <= k && OccursAt(s, pat, k)
    requires forall j: nat :: from <= j < k ==> !OccursAt(s, pat, j)
    ensures IndexOf(s, pat, from) == Some(k)
    decreases k - from
  {
    if from < k {
      IndexOfIs(s, pat, from + 1, k);
    }
  }

  /** One tokenizer step: the first match is the first token. */
  lemma TokensCons(s: string, n: nat, head: string, rest: seq<string>)
    requires |s| > 0 && MatchAt(s) == Some(n) && s[..n] == head && Tokens(s[n..]) == rest
    ensures Tokens(s) == [head] + rest
  {
  }

  lemma IndexOfChar(s: string, c: char, from: nat, k: nat)
    requires from <= k < |s| && s[k] == c
    requires forall j :: from <= j < k ==> s[j] != c
    ensures IndexOf(s, [c], from) == Some(k)
  {
    forall j: nat | from <= j < k ensures !OccursAt(s, [c], j) {
      assert s[j..j + 1][0] == s[j];
    }
    assert s[k..k + 1] == [c];
    IndexOfIs(s, [c], from, k);
  }

  lemma ClassifyOpening(t: string)
    requires |t| >= 2 && t[0] == '<' && IsAsciiLetter(t[1]) && t[|t| - 1] == '>' && t[|t| - 2] != '/'
    ensures Classify(t) == Opening
  {
    assert !CharEqIgnoreCase(t[1], '!');
    assert t[|t| - 2..] != "/>";
  }

  lemma ClassifyClosing(t: string)
    requires |t| >= 2 && t[0] == '<' && t[1] == '/'
    ensures Classify(t) == Closing
  {
    assert !CharEqIgnoreCase(t[1], '!');
    assert t[..2] == "</";
  }

  lemma ClassifyText(t: string)
    requires |t| > 0 && t[0] != '<'
    ensures Classify(t) == Text
  {
    assert !CharEqIgnoreCase(t[0], '<');
  }

  lemma MatchTagAt(s: string, k: nat)
    requires |s| >= 2 && s[0] == '<' && s[1] != '!' && s[1] != '?' && s[1] != '>'
    requires IndexOf(s, ">", 1) == Some(k)
    ensures MatchAt(s) == Some(k + 1)
  {
    MismatchIgnoreCase(s, "<![CDATA[", 1, '!');
    MismatchIgnoreCase(s, "<!DOCTYPE", 1, '!');
    assert !StartsWith(s, "<!--") by { if |s| >= 4 { assert s[..4][1] == s[1]; } }
    assert !StartsWith(s, "<?") by { assert s[..2][1] == s[1]; }
  }

  lemma MatchTextAt(s: string, k: nat)
    requires |s| > 0 && s[0] != '<' && IndexOf(s, "<", 0) == Some(k)
    ensures MatchAt(s) == Some(k)
  {
    MismatchIgnoreCase(s, "<![CDATA[", 0, '<');
    MismatchIgnoreCase(s, "<!DOCTYPE", 0, '<');
    assert !StartsWith(s, "<!--") by { if |s| >= 4 { assert s[..4][0] == s[0]; } }
    assert !StartsWith(s, "<?") by { if |s| >= 2 { assert s[..2][0] == s[0]; } }
  }

  /** `<a><b>1</b><!--c--></a>` with an indent of 2 gives the six lines
      `<a>`, `  <b>`, `    1`, `  </b>`, `  <!--c-->`, `</a>`. */
  lemma FormatExample(xml: string, indent: Indent)
    requires xml == "<a><b>1</b><!--c--></a>" && indent == Spaces(2)
    ensures FormatXml(xml, indent) == "<a>\n  <b>\n    1\n  </b>\n  <!--c-->\n</a>"
  {
    ExampleStrip(xml);
    var ts := ["<a>", "<b>", "1", "</b>", "<!--c-->", "</a>"];
    ExampleTokens(xml, ts);
    var f := "<a>\n  <b>\n    1\n  </b>\n  <!--c-->\n</a>\n";
    ExampleRun(ts, IndentUnit(indent), f);
    ExampleTrimEnd(f);
  }

  lemma ExampleStrip(xml: string)
    requires xml == "<a><b>1</b><!--c--></a>"
    ensures StripInterTagWs(xml) == xml
  {
    forall i | 0 <= i < |xml|
      ensures !IsWs(xml[i])
    {
      assert ' ' < xml[i] < '\U{7F}';
    }
    NoWsStripIdentity(xml);
  }

  lemma ExampleTrimEnd(f: string)
    requires f == "<a>\n  <b>\n    1\n  </b>\n  <!--c-->\n</a>\n"
    ensures TrimEnd(f) == "<a>\n  <b>\n    1\n  </b>\n  <!--c-->\n</a>"
  {
    assert TrailingWsRun(f[..|f| - 1]) == 0;
  }

  lemma ExampleTokens(s: string, ts: seq<string>)
    requires s == "<a><b>1</b><!--c--></a>"
    requires ts == ["<a>", "<b>", "1", "</b>", "<!--c-->", "</a>"]
    ensures Tokens(s) == ts
  {
    ExampleMatch(s);
    ExampleTokens1(s[3..], ts[1..]);
    TokensCons(s, 3, ts[0], ts[1..]);
  }

  lemma ExampleMatch(s: string)
    requires s == "<a><b>1</b><!--c--></a>"
    ensures MatchAt(s) == Some(3) && s[..3] == "<a>" && s[3..] == "<b>1</b><!--c--></a>"
  {
    IndexOfChar(s, '>', 1, 2);
    MatchTagAt(s, 2);
  }

  lemma ExampleTokens1(s1: string, ts: seq<string>)
    requires s1 == "<b>1</b><!--c--></a>" && ts == ["<b>", "1", "</b>", "<!--c-->", "</a>"]
    ensures Tokens(s1) == ts
  {
    IndexOfChar(s1, '>', 1, 2);
    MatchTagAt(s1, 2);
    ExampleTokens2(s1[3..], ts[1..]);
    TokensCons(s1, 3, ts[0], ts[1..]);
  }

  lemma ExampleTokens2(s2: string, ts: seq<string>)
    requires s2 == "1</b><!--c--></a>" && ts == ["1", "</b>", "<!--c-->", "</a>"]
    ensures Tokens(s2) == ts
  {
    ExampleMatch2(s2);
    ExampleTokens3(s2[1..], ts[1..]);
    TokensCons(s2, 1, ts[0], ts[1..]);
  }

  lemma ExampleMatch2(s2: string)
    requires s2 == "1</b><!--c--></a>"
    ensures MatchAt(s2) == Some(1) && s2[..1] == "1" && s2[1..] == "</b><!--c--></a>"
  {
    IndexOfChar(s2, '<', 0, 1);
    MatchTextAt(s2, 1);
  }

  lemma ExampleTokens3(s3: string, ts: seq<string>)
    requires s3 == "</b><!--c--></a>" && ts == ["</b>", "<!--c-->", "</a>"]
    ensures Tokens(s3) == ts
  {
    ExampleMatch3(s3);
    ExampleTokens4(s3[4..], ts[1..]);
    TokensCons(s3, 4, ts[0], ts[1..]);
  }

  lemma ExampleMatch3(s3: string)
    requires s3 == "</b><!--c--></a>"
    ensures MatchAt(s3) == Some(4) && s3[..4] == "</b>" && s3[4..] == "<!--c--></a>"
  {
    IndexOfChar(s3, '>', 1, 3);
    MatchTagAt(s3, 3);
  }

  lemma ExampleTokens4(s4: string, ts: seq<string>)
    requires s4 == "<!--c--></a>" && ts == ["<!--c-->", "</a>"]
    ensures Tokens(s4) == ts
  {
    ExampleMatch4(s4);
    ExampleTokens5(s4[8..], ts[1..]);
    TokensCons(s4, 8, ts[0], ts[1..]);
  }

  lemma ExampleMatch4(s4: string)
    requires s4 == "<!--c--></a>"
    ensures MatchAt(s4) == Some(8) && s4[..8] == "<!--c-->" && s4[8..] == "</a>"
  {
    assert !OccursAt(s4, "-->", 4) by { assert s4[4..7][0] == 'c'; }
    assert OccursAt(s4, "-->", 5);
    IndexOfIs(s4, "-->", 4, 5);
    MatchCommentAt(s4, 5);
  }

  lemma ExampleTokens5(s5: string, ts: seq<string>)
    requires s5 == "</a>" && ts == ["</a>"]
    ensures Tokens(s5) == ts
  {
    ExampleMatch5(s5);
    TokensCons(s5, 4, ts[0], []);
  }

  lemma ExampleMatch5(s5: string)
    requires s5 == "</a>"
    ensures MatchAt(s5) == Some(4) && s5[..4] == "</a>" && s5[4..] == []
  {
    IndexOfChar(s5, '>', 1, 3);
    MatchTagAt(s5, 3);
  }

  lemma ExampleRun(ts: seq<string>, u: string, f: string)
    requires ts == ["<a>", "<b>", "1", "</b>", "<!--c-->", "</a>"]
    requires u == IndentUnit(Spaces(2))
    requires f == "<a>\n  <b>\n    1\n  </b>\n  <!--c-->\n</a>\n"
    ensures Run(ts, FmtState("", 0), u).formatted == f
  {
    assert u == "  ";
    ClassifyOpening(ts[0]);
    var st1 := FmtState("<a>\n", 1);
    assert Step(FmtState("", 0), ts[0], u) == st1;
    assert Run(ts, FmtState("", 0), u) == Run(ts[1..], st1, u);
    ExampleRun1(ts[1..], u, st1, f);
  }

  lemma ExampleRun1(ts: seq<string>, u: string, st: FmtState, f: string)
    requires ts == ["<b>", "1", "</b>", "<!--c-->", "</a>"] && u == "  " && st == FmtState("<a>\n", 1)
    requires f == "<a>\n  <b>\n    1\n  </b>\n  <!--c-->\n</a>\n"
    ensures Run(ts, st, u).formatted == f
  {
    ClassifyOpening(ts[0]);
    assert Repeat(u, 1) == "  ";
    var st2 := FmtState("<a>\n  <b>\n", 2);
    assert Step(st, ts[0], u) == st2;
    assert Run(ts, st, u) == Run(ts[1..], st2, u);
    ExampleRun2(ts[1..], u, st2, f);
  }

  lemma ExampleRun2(ts: seq<string>, u: string, st: FmtState, f: string)
    requires ts == ["1", "</b>", "<!--c-->", "</a>"] && u == "  " && st == FmtState("<a>\n  <b>\n", 2)
    requires f == "<a>\n  <b>\n    1\n  </b>\n  <!--c-->\n</a>\n"
    ensures Run(ts, st, u).formatted == f
  {
    var st3 := FmtState("<a>\n  <b>\n    1\n", 2);
    ExampleTextStep(st, ts[0], u, st3);
    assert Run(ts, st, u) == Run(ts[1..], st3, u);
    ExampleRun3(ts[1..], u, st3, f);
  }

  lemma ExampleTextStep(st: FmtState, t: string, u: string, st3: FmtState)
    requires t == "1" && u == "  " && st == FmtState("<a>\n  <b>\n", 2)
    requires st3 == FmtState("<a>\n  <b>\n    1\n", 2)
    ensures Step(st, t, u) == st3
  {
    ClassifyText(t);
    assert Trimmed(t);
    TrimIdentity(t);
    assert Repeat(u, 2) == "    ";
  }

  lemma ExampleRun3(ts: seq<string>, u: string, st: FmtState, f: string)
    requires ts == ["</b>", "<!--c-->", "</a>"] && u == "  " && st == FmtState("<a>\n  <b>\n    1\n", 2)
    requires f == "<a>\n  <b>\n    1\n  </b>\n  <!--c-->\n</a>\n"
    ensures Run(ts, st, u).formatted == f
  {
    ClassifyClosing(ts[0]);
    assert Repeat(u, 1) == "  ";
    var st4 := FmtState("<a>\n  <b>\n    1\n  </b>\n", 1);
    assert Step(st, ts[0], u) == st4;
    assert Run(ts, st, u) == Run(ts[1..], st4, u);
    ExampleRun4(ts[1..], u, st4, f);
  }

  lemma ExampleRun4(ts: seq<string>, u: string, st: FmtState, f: string)
    requires ts == ["<!--c-->", "</a>"] && u == "  " && st == FmtState("<a>\n  <b>\n    1\n  </b>\n", 1)
    requires f == "<a>\n  <b>\n    1\n  </b>\n  <!--c-->\n</a>\n"
    ensures Run(ts, st, u).formatted == f
  {
    assert Classify(ts[0]) == Comment by {
      var t := ts[0];
      assert t[..2][1] == '!';
      assert t[..4] == "<!--";
    }
    ClassifyClosing(ts[1]);
    assert Repeat(u, 1) == "  ";
    assert Repeat(u, 0) == "";
    var st5 := FmtState("<a>\n  <b>\n    1\n  </b>\n  <!--c-->\n", 1);
    assert Step(st, ts[0], u) == st5;
    var st6 := Step(st5, ts[1], u);
    assert st6 == FmtState(f, 0);
    assert ts[1..][1..] == [];
    assert Run(ts[1..], st5, u) == st6;
    assert Run(ts, st, u) == Run(ts[1..], st5, u);
  }
}
