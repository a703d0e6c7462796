/** The entry points that turn editor text into its formatted or minified form:
    `processJSON`, `processXML` and `processContent` (content.js:87-99,
    content.js:194-217). */
module Transform {
  import opened Strings
  import opened Sniffer
  import opened XmlMinify
  import opened XmlFormat

  datatype Action = Format | Minify

  /** The JSON engine as `processJSON` uses it: `parsers.jsonParses(t)` says
      whether `JSON.parse(t)` succeeds, and `stringify(t, indent)` is
      `JSON.stringify(JSON.parse(t), null, indent)`, with `None` for the
      one-argument call that minifies. */
  datatype Engines = Engines(parsers: Parsers, stringify: (string, Option<Indent>) -> string)

  /** `processJSON`: empty text yields `null`; otherwise the cleaned text is
      parsed and re-serialised, and a parse failure yields `null`. */
  function ProcessJson(e: Engines, text: string, action: Action, indent: Indent): (r: Option<string>)
    ensures r.Some? <==> text != "" && e.parsers.jsonParses(Clean(text))
  {
    if text == "" then None
    else
      var clean := Clean(text);
      if !e.parsers.jsonParses(clean) then None
      else if action == Format then Some(e.stringify(clean, Some(indent)))
      else Some(e.stringify(clean, None))
  }

  /** `processXML`: empty text yields `null`; otherwise the cleaned text
      (DOCTYPE included) is formatted or minified; nothing is re-validated. */
  function ProcessXml(text: string, action: Action, indent: Indent): (r: Option<string>)
    ensures r.Some? <==> text != ""
  {
    if text == "" then None
    else
      var clean := Clean(text);
      if action == Format then Some(FormatXml(clean, indent)) else Some(MinifyXml(clean))
  }

  /** `{ result, type }` as `processContent` returns it. */
  datatype Processed = Processed(result: Option<string>, kind: Option<ContentType>)

  /** `processContent`: detect, then hand the text to the matching processor. */
  function ProcessContent(e: Engines, text: string, action: Action, indent: Indent): Processed {
    match DetectContentType(e.parsers, text)
    case Some(Json) => Processed(ProcessJson(e, text, action, indent), Some(Json))
    case Some(Xml) => Processed(ProcessXml(text, action, indent), Some(Xml))
    case None => Processed(None, None)
  }

  // ---------------------------------------------------------------------------
  // Properties

  /** The reported type is exactly the detector's verdict, and undetected text
      yields no result. */
  lemma ProcessContentKind(e: Engines, text: string, action: Action, indent: Indent)
    ensures ProcessContent(e, text, action, indent).kind == DetectContentType(e.parsers, text)
    ensures DetectContentType(e.parsers, text) == None ==> ProcessContent(e, text, action, indent).result == None
  {
  }

  /** Text detected as JSON always yields a result: the processor parses the same
      cleaned text the detector already accepted, so the `catch` branch is dead. */
  lemma JsonDetectedYieldsResult(e: Engines, text: string, action: Action, indent: Indent)
    requires DetectContentType(e.parsers, text) == Some(Json)
    ensures ProcessContent(e, text, action, indent).result
         == Some(e.stringify(Clean(text), if action == Format then Some(indent) else None))
  {
  }

  /** Text detected as XML always yields a result: the formatter or minifier of
      its cleaned form. */
  lemma XmlDetectedYieldsResult(e: Engines, text: string, action: Action, indent: Indent)
    requires DetectContentType(e.parsers, text) == Some(Xml)
    ensures ProcessContent(e, text, action, indent).result
         == Some(if action == Format then FormatXml(Clean(text), indent) else MinifyXml(Clean(text)))
  {
  }

  /** Minified XML output has no edge whitespace, none between `>` and `<`, and
      no whitespace runs; minifying it again changes nothing. */
  lemma XmlMinifyResultIsMinimal(text: string, indent: Indent)
    requires text != ""
    ensures var r := ProcessXml(text, Minify, indent);
      r.Some? && Trimmed(r.value) && NoWsBetweenTags(r.value) && NoDoubleWs(r.value)
      && MinifyXml(r.value) == r.value
  {
    MinifyIdempotent(Clean(text));
  }

  /** Formatted XML output, the formatter applied to the cleaned text, never
      ends in whitespace. */
  lemma XmlFormatResultEndsClean(text: string, indent: Indent)
    ensures var r := FormatXml(Clean(text), indent); |r| > 0 ==> !IsWs(r[|r| - 1])
  {
    FormatEndsWithoutWs(Clean(text), indent);
  }

  /** A leading byte-order mark or surrounding whitespace never changes what
      either processor produces. */
  lemma ProcessorsIgnoreEdges(e: Engines, text: string, action: Action, indent: Indent)
    requires text != ""
    ensures Clean(text) != "" ==> ProcessJson(e, Clean(text), action, indent) == ProcessJson(e, text, action, indent)
    ensures Clean(text) != "" ==> ProcessXml(Clean(text), action, indent) == ProcessXml(text, action, indent)
  {
    if Clean(text) != "" {
      CleanIdempotent(text);
      SameCleanSameJson(e, Clean(text), text, action, indent);
      SameCleanSameXml(Clean(text), text, action, indent);
    }
  }

  /** Both processors look at their input only through its cleaned form. */
  lemma SameCleanSameJson(e: Engines, a: string, b: string, action: Action, indent: Indent)
    requires a != "" && b != "" && Clean(a) == Clean(b)
    ensures ProcessJson(e, a, action, indent) == ProcessJson(e, b, action, indent)
  {
  }

  lemma SameCleanSameXml(a: string, b: string, action: Action, indent: Indent)
    requires a != "" && b != "" && Clean(a) == Clean(b)
    ensures ProcessXml(a, action, indent) == ProcessXml(b, action, indent)
  {
  }

  lemma CleanIdempotent(s: string)
    ensures Clean(Clean(s)) == Clean(s)
  {
    var t := Clean(s);
    CleanIsTrim(t);
    if |t| > 0 {
      assert WsRun(t) == 0 && TrailingWsRun(t) == 0;
    }
  }
}
