/** The content sniffer: `isLikelyJSON`, `prepareXMLForValidation`, `isLikelyXML`
    and `detectContentType` (content.js:71-209). Each is a chain of gates over the
    cleaned text; a parser is consulted only once every cheap gate has passed. */
module Sniffer {
  import opened Strings

  /** The 5 MiB ceiling, checked before any parse is attempted (content.js:4). */
  const SizeLimit: nat := 5 * 1024 * 1024

  datatype ContentType = Json | Xml

  /** The browser's parsers, which are foreign to the model:
      `jsonParses(t)` holds when `JSON.parse(t)` returns without throwing;
      `xmlWellFormed(t)` holds when `DOMParser` parses `t` as `application/xml`
      without throwing and the document holds no `parsererror` element. */
  datatype Parsers = Parsers(jsonParses: string -> bool, xmlWellFormed: string -> bool)

  /** The gates `isLikelyJSON` puts before `JSON.parse`, on the cleaned text. */
  predicate JsonGate(t: string) {
    0 < |t| <= SizeLimit && (t[0] == '{' || t[0] == '[')
  }

  /** The gates `isLikelyXML` puts before `DOMParser`, on the cleaned text. */
  predicate XmlGate(t: string) {
    0 < |t| <= SizeLimit && t[0] == '<'
  }

  /** `isLikelyJSON`: the parser decides, but only on cleaned text within the
      ceiling that opens with `{` or `[`. */
  function IsLikelyJson(p: Parsers, text: string): (r: bool)
    ensures r <==> JsonGate(Clean(text)) && p.jsonParses(Clean(text))
  {
    var t := Clean(text);
    if |t| == 0 || |t| > SizeLimit then false
    else if t[0] != '{' && t[0] != '[' then false
    else p.jsonParses(t)
  }

  /** `text.replace(/^<!DOCTYPE\s+[^>]*>/i, '')`: a leading DOCTYPE declaration,
      up to its first `>`, is removed; anything else is left alone. */
  function StripLeadingDoctype(s: string): (r: string)
    ensures |r| <= |s| && r == s[|s| - |r|..]
    ensures r != s ==> StartsWithIgnoreCase(s, "<!DOCTYPE") && |s| > 9 && IsWs(s[9])
    ensures r != s ==> |s| - |r| - 1 >= 10 && s[|s| - |r| - 1] == '>'
                       && forall m :: 10 <= m < |s| - |r| - 1 ==> s[m] != '>'
    ensures StartsWithIgnoreCase(s, "<!DOCTYPE") && |s| > 9 && IsWs(s[9]) && '>' in s[10..] ==> r != s
  {
    if StartsWithIgnoreCase(s, "<!DOCTYPE") && |s| > 9 && IsWs(s[9]) then
      match IndexOf(s, ">", 10)
      case Some(k) =>
        assert forall m :: 10 <= m < k ==> s[m] != '>' by {
          forall m | 10 <= m < k ensures s[m] != '>' { assert !OccursAt(s, ">", m); }
        }
        assert s[k..k + 1] == ">";
        s[k + 1..]
      case None =>
        assert '>' !in s[10..] by {
          forall m | 10 <= m < |s| ensures s[m] != '>' { assert !OccursAt(s, ">", m); }
        }
        s
    else s
  }

  /** The declaration is removed exactly up to the first `>` after its keyword. */
  lemma DoctypeCutAtFirstAngle(s: string, k: nat)
    requires StartsWithIgnoreCase(s, "<!DOCTYPE") && |s| > 9 && IsWs(s[9])
    requires 10 <= k < |s| && s[k] == '>' && forall m :: 10 <= m < k ==> s[m] != '>'
    ensures StripLeadingDoctype(s) == s[k + 1..]
  {
    var r := StripLeadingDoctype(s);
    assert s[10..][k - 10] == '>';
    assert |s| - |r| - 1 == k;
  }

  const RootOpen := "<_jsonspot_root>"
  const RootClose := "</_jsonspot_root>"

  /** `prepareXMLForValidation`: DOCTYPE removed, trimmed, and wrapped in a
      synthetic root so that several top-level siblings still parse. */
  function PrepareXmlForValidation(text: string): (r: string)
    ensures StartsWith(r, RootOpen) && EndsWith(r, RootClose)
    ensures |r| == |RootOpen| + |Trim(StripLeadingDoctype(text))| + |RootClose|
    ensures r[|RootOpen|..|r| - |RootClose|] == Trim(StripLeadingDoctype(text))
  {
    var xml := Trim(StripLeadingDoctype(text));
    Wrapped(RootOpen, xml, RootClose);
    RootOpen + xml + RootClose
  }

  lemma Wrapped(a: string, b: string, c: string)
    ensures StartsWith(a + b + c, a) && EndsWith(a + b + c, c)
    ensures (a + b + c)[|a|..|a| + |b|] == b
  {
    var r := a + b + c;
    assert r[..|a|] == a;
    assert r[|r| - |c|..] == c;
  }

  /** `<[a-zA-Z][^>]*>` matches `s[i..k + 1]`. */
  predicate OpenTagAt(s: string, i: nat, k: nat) {
    i + 1 < k < |s| && s[i] == '<' && IsAsciiLetter(s[i + 1]) && s[k] == '>'
    && forall m :: i + 1 < m < k ==> s[m] != '>'
  }

  /** `<\/[a-zA-Z][^>]*>` matches `s[j..l + 1]`. */
  predicate CloseTagAt(s: string, j: nat, l: nat) {
    j + 2 < l < |s| && s[j] == '<' && s[j + 1] == '/' && IsAsciiLetter(s[j + 2]) && s[l] == '>'
    && forall m :: j + 2 < m < l ==> s[m] != '>'
  }

  /** The lenient fallback `/<[a-zA-Z][^>]*>[\s\S]*<\/[a-zA-Z][^>]*>/.test(s)`:
      an opening tag followed, anywhere later, by a closing tag. */
  predicate HasTagPair(s: string) {
    exists i: nat, k: nat, j: nat, l: nat | i < k < j < l < |s| :: OpenTagAt(s, i, k) && CloseTagAt(s, j, l)
  }

  /** `isLikelyXML`: cleaned text within the ceiling that opens with `<` is XML
      when the strict parser accepts its wrapped form or, failing that, when it
      holds an opening tag followed by a closing tag. */
  function IsLikelyXml(p: Parsers, text: string): (r: bool)
    ensures r <==> (XmlGate(Clean(text)) &&
                    (p.xmlWellFormed(PrepareXmlForValidation(Clean(text))) || HasTagPair(Clean(text))))
    ensures XmlGate(Clean(text)) && HasTagPair(Clean(text)) ==> r
  {
    var t := Clean(text);
    if |t| == 0 || |t| > SizeLimit then false
    else if t[0] != '<' then false
    else if p.xmlWellFormed(PrepareXmlForValidation(t)) then true
    else HasTagPair(t)
  }

  /** `detectContentType`: JSON is tried first, then XML; `None` is the source's `null`. */
  function DetectContentType(p: Parsers, text: string): Option<ContentType> {
    if IsLikelyJson(p, text) then Some(Json)
    else if IsLikelyXml(p, text) then Some(Xml)
    else None
  }

  // ---------------------------------------------------------------------------
  // Properties

  /** Empty or over-ceiling text is rejected by both sniffers whatever the parsers would say. */
  lemma SizeCeilingRejects(p: Parsers, text: string)
    requires |Clean(text)| == 0 || |Clean(text)| > SizeLimit
    ensures !IsLikelyJson(p, text) && !IsLikelyXml(p, text)
    ensures DetectContentType(p, text) == None
  {
  }

  /** `JSON.parse` is consulted only on cleaned text that passed the gates: two
      engines that agree there give the same verdict everywhere. */
  lemma JsonParsedOnlyAfterGates(p: Parsers, q: Parsers, text: string)
    requires forall t :: JsonGate(t) ==> p.jsonParses(t) == q.jsonParses(t)
    ensures IsLikelyJson(p, text) == IsLikelyJson(q, text)
    ensures IsLikelyJson(p, text) ==> JsonGate(Clean(text))
  {
  }

  /** `DOMParser` is consulted only on the wrapped form of cleaned text that passed
      the gates; elsewhere its answer never matters. */
  lemma XmlParsedOnlyAfterGates(p: Parsers, q: Parsers, text: string)
    requires forall t :: XmlGate(t) ==> p.xmlWellFormed(PrepareXmlForValidation(t)) == q.xmlWellFormed(PrepareXmlForValidation(t))
    ensures IsLikelyXml(p, text) == IsLikelyXml(q, text)
    ensures IsLikelyXml(p, text) ==> XmlGate(Clean(text))
  {
  }

  /** The JSON and XML first-character sets are disjoint, so no text is accepted
      by both sniffers, whichever parsers are plugged in. */
  lemma JsonXmlDisjoint(p: Parsers, q: Parsers, text: string)
    ensures !(IsLikelyJson(p, text) && IsLikelyXml(q, text))
  {
  }

  /** Trying JSON first loses nothing: XML is reported exactly when the XML sniffer accepts. */
  lemma DetectMatchesSniffers(p: Parsers, text: string)
    ensures DetectContentType(p, text) == Some(Json) <==> IsLikelyJson(p, text)
    ensures DetectContentType(p, text) == Some(Xml) <==> IsLikelyXml(p, text)
    ensures DetectContentType(p, text) == None <==> !IsLikelyJson(p, text) && !IsLikelyXml(p, text)
  {
    JsonXmlDisjoint(p, p, text);
  }

  /** Without any `</` in the cleaned text the lenient fallback cannot fire, so
      only the strict parser can accept. */
  lemma NoClosingTagNoFallback(p: Parsers, text: string)
    requires forall j: nat :: !OccursAt(Clean(text), "</", j)
    ensures IsLikelyXml(p, text) <==> XmlGate(Clean(text)) && p.xmlWellFormed(PrepareXmlForValidation(Clean(text)))
  {
    if HasTagPair(Clean(text)) {
      TagPairHasCloseMarker(Clean(text));
    }
  }

  lemma TagPairHasCloseMarker(t: string)
    requires HasTagPair(t)
    ensures exists j: nat :: OccursAt(t, "</", j)
  {
    var i: nat, k: nat, j: nat, l: nat :| i < k < j < l < |t| && OpenTagAt(t, i, k) && CloseTagAt(t, j, l);
    assert t[j..j + 2] == [t[j], t[j + 1]];
    assert OccursAt(t, "</", j);
  }

  /** An HTML fragment with a void `<br>` that a strict XML parser rejects is
      still classified as XML through the lenient fallback, for any parsers. */
  lemma LenientFallbackAcceptsHtml(p: Parsers, s: string)
    requires s == "<div><br>x</div>"
    ensures IsLikelyXml(p, s)
  {
    HtmlExampleClean(s);
    HtmlExampleTags(s);
  }

  lemma HtmlExampleClean(s: string)
    requires s == "<div><br>x</div>"
    ensures Clean(s) == s && 0 < |s| <= SizeLimit && s[0] == '<'
  {
    assert WsRun(s) == 0 && TrailingWsRun(s) == 0;
  }

  lemma HtmlExampleTags(s: string)
    requires s == "<div><br>x</div>"
    ensures HasTagPair(s)
  {
    assert OpenTagAt(s, 0, 4);
    assert CloseTagAt(s, 10, 15);
  }
}
