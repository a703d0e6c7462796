# JSON Spot content script: verified model

JSON Spot is a browser extension. It finds JSON or XML in web-page editors and
formats or minifies it in place. This project models the algorithmic core of
its content script, `content.js`, in Dafny, and proves properties about that
model. The core has five parts:

- **Content sniffer** (`strings.dfy`, `sniffer.dfy`):
  - `isLikelyJSON`, `prepareXMLForValidation`, `isLikelyXML` and `detectContentType`.
  - Each is a chain of cheap gates over the cleaned text: BOM stripped, then
    trimmed, then the empty and 5 MiB checks, then the first character.
  - Only after all the gates does it consult a parser.
  - The browser's `JSON.parse` and `DOMParser` are parameters of the model (`Sniffer.Parsers`).
  - The lenient "tag pair" regular expression is modelled exactly (`HasTagPair`).
- **XML formatter** (`xml_format.dfy`): `formatXMLString`.
  - The tokenizer is a recursive function over the ordered regular-expression alternation.
  - The emitter is a method whose `for` loop carries `formatted` and `depth`.
  - The method is proved equal to the fold `Run` of the per-token `Step`.
- **XML minifier** (`xml_minify.dfy`): `minifyXMLString`. It is three whitespace
  passes, and the first pass is shared with the formatter.
  - The minifier changes whitespace only: every other character survives, in
    order. `MinifyShape` also says which whitespace runs survive: exactly the
    interior runs that do not sit between `>` and `<`.
  - The formatter, given a whitespace indent unit, keeps every character other
    than whitespace and `<`, in order. It may drop a stray `<` that no token
    alternative matches. When every `<` left by the inter-tag pass opens a
    token, it keeps all characters other than whitespace.
- **Processing entry points** (`transform.dfy`): `processJSON`, `processXML` and
  `processContent`. `JSON.stringify` is a parameter.
- **HTML escaping** (`escape.dfy`): `escapeHTML`, written as the literal chain of
  four replacements. It is proved equal to a one-character-at-a-time
  reference, and proved invertible.
- **Initiator side of the page-script bridge** (`bridge.dfy`):
  - a class holding `requestIdCounter`, the `pendingRequests` map, the set of
    armed 3-second timers and the elements' `data-jsonspot-id` tags;
  - methods for `handleEditorViaPageScript`, `checkEditorContent`, the timer
    callback and the `message` listener;
  - effects such as notifications, button updates and callbacks, which are
    returned as values.

Whitespace is JavaScript's `\s` and `trim` class, which includes U+FEFF. This
is why `CleanIsTrim` shows that the explicit BOM strip never changes the
cleaned text.

Two behaviours of the source are modelled as written:

- **Lower-case CDATA.** The tokenizer's `i` flag accepts a lower-case
  `<![cdata[…]]>` as one token. The emitter's CDATA test is case-sensitive, so
  it treats that token as an opening tag and indents everything after it one
  level deeper.
- **Mismatched response types.** A `jsonspot-check-response` for a format
  request, or a `jsonspot-response` without an error for a content check,
  deletes the pending entry and does nothing else. In particular, a check's
  callback is then never called.

## Model

| member | source | states |
|---|---|---|
| Strings.Trim | content.js:73 | `trim` leaves no whitespace at either end and only removes whitespace, from the ends |
| Strings.CleanEdges | content.js:73 | the cleaned text neither starts nor ends with whitespace |
| Strings.CleanIsTrim | content.js:73 | stripping a leading U+FEFF before trimming never changes the result, because U+FEFF is whitespace |
| Strings.Clean | content.js:73 | the BOM strip then `trim` shared by the sniffers and processors; its contract is carried by `CleanEdges`, `CleanIsTrim` and `Transform.CleanIdempotent` |
| Sniffer.StripLeadingDoctype | content.js:104 | the result is a suffix of the input; something is removed only after a case-insensitive `<!DOCTYPE` plus whitespace, and then exactly up to the first `>` after the keyword; whenever such a prefix has a `>`, something is removed |
| Sniffer.DoctypeCutAtFirstAngle | content.js:104 | a leading `<!DOCTYPE` plus whitespace whose first later `>` is at `k` leaves exactly the text after `k` |
| Sniffer.PrepareXmlForValidation | content.js:101-109 | the result is the DOCTYPE-stripped, trimmed text between `<_jsonspot_root>` and `</_jsonspot_root>` |
| Sniffer.IsLikelyJson | content.js:72-84 | accepts exactly when the cleaned text is non-empty, within 5 MiB, starts with `{` or `[`, and `JSON.parse` accepts it; see also `SizeCeilingRejects`, `JsonParsedOnlyAfterGates`, `JsonXmlDisjoint` |
| Sniffer.IsLikelyXml | content.js:111-137 | accepts exactly when the cleaned text is non-empty, within 5 MiB and starts with `<`, and either the strict parser accepts its wrapped form or it holds an opening tag followed by a closing tag; so gated text with a tag pair is accepted whatever the strict parser says; see also `XmlParsedOnlyAfterGates`, `NoClosingTagNoFallback`, `LenientFallbackAcceptsHtml` |
| Sniffer.HasTagPair | content.js:130 | the lenient fallback's regular expression as a predicate; `TagPairHasCloseMarker` shows it needs a `</`, `LenientFallbackAcceptsHtml` gives an instance |
| Sniffer.DetectContentType | content.js:206-210 | JSON first, then XML, else `null`; its contract is carried by `DetectMatchesSniffers` and `SizeCeilingRejects` |
| Sniffer.SizeCeilingRejects | content.js:72-75 | empty or over-5 MiB cleaned text is rejected by both sniffers (same gate at content.js:111-114), whatever the parsers answer, and detection gives `null` |
| Sniffer.JsonParsedOnlyAfterGates | content.js:72-84 | `JSON.parse` is only consulted on cleaned text that is non-empty, within the ceiling and starts with `{` or `[`: two parsers that agree there agree on the verdict everywhere |
| Sniffer.XmlParsedOnlyAfterGates | content.js:111-137 | `DOMParser` is only consulted on the wrapped form of cleaned text that passed the XML gates; accepted text always passed them |
| Sniffer.JsonXmlDisjoint | content.js:76-77 | no text is accepted by both the JSON and the XML sniffer, whatever parsers are plugged into each (the XML gate is at content.js:115) |
| Sniffer.DetectMatchesSniffers | content.js:206-210 | detection gives json exactly when the JSON sniffer accepts, xml exactly when the XML sniffer accepts, `null` exactly when neither does |
| Sniffer.NoClosingTagNoFallback | content.js:127-134 | without any `</` in the cleaned text the lenient fallback cannot fire: XML is accepted exactly when the gates pass and the strict parser accepts |
| Sniffer.LenientFallbackAcceptsHtml | content.js:127-134 | `<div><br>x</div>` is classified as XML for every parser, through the tag-pair fallback |
| XmlMinify.StripInterTagWs | content.js:142 | after `/(>)\s+(<)/g` (also content.js:189) no `>` is followed by a whitespace run and then `<`; the first character is kept; `StripKeepsOrder` shows only whitespace goes, `StripKeepsShape` that exactly the runs between `>` and `<` go |
| XmlMinify.CollapseWs | content.js:191 | after `/\s{2,}/g → ' '` no two whitespace characters are adjacent; the result is no longer than the input and keeps its first non-whitespace character; `CollapseKeepsOrder` shows only whitespace changes, `CollapseKeepsShape` that every run stays in place; `CollapseRun` that a run of two or more becomes `' '`, `CollapseLone` that a lone whitespace character is kept |
| XmlMinify.MinifyXml | content.js:187-192 | the minified text has no edge whitespace, no whitespace between `>` and `<`, and no run of two whitespace characters; `MinifyShape` fixes where its whitespace is |
| XmlMinify.MinifyIdempotent | content.js:187-192 | minifying twice equals minifying once |
| XmlMinify.StripKeepsOrder | content.js:142 | removing whitespace between `>` and `<` removes only whitespace: with whitespace ignored the text is unchanged, order included (also content.js:189) |
| XmlMinify.TrimKeepsOrder | content.js:190 | trimming removes only whitespace: with whitespace ignored the text is unchanged |
| XmlMinify.CollapseKeepsOrder | content.js:191 | collapsing whitespace runs touches only whitespace: with whitespace ignored the text is unchanged |
| XmlMinify.MinifyKeepsOrder | content.js:187-192 | the minified text, with whitespace ignored, equals the input with whitespace ignored: every other character survives, in order |
| XmlMinify.StripKeepsShape | content.js:142 | with each whitespace run written as one space, the result is the input with the space between each `>` and the `<` right after it removed: every other run is kept, none is added (also content.js:189) |
| XmlMinify.CollapseKeepsShape | content.js:191 | with each whitespace run written as one space, the collapsed text equals the input: no run is removed, split or moved |
| XmlMinify.CollapseSplit | content.js:191 | the global replace works run by run: the text can be collapsed on either side of any point that no whitespace run straddles |
| XmlMinify.CollapseRun | content.js:191 | a maximal run of two or more whitespace characters, whatever they are, becomes exactly one space `' '`, and the text on either side is collapsed on its own |
| XmlMinify.CollapseLone | content.js:191 | a lone whitespace character, such as a tab between two words, is kept as that character |
| XmlMinify.TrimKeepsShape | content.js:190 | writing each whitespace run as one space commutes with trimming: trimming drops only the edge runs |
| XmlMinify.MinifyShape | content.js:187-192 | with each whitespace run written as one space, the minified text is the input with the runs between `>` and `<` and at the ends removed; with no doubled whitespace in the output, this fixes the position of each remaining whitespace character |
| XmlMinify.MinifyKeepsContent | content.js:187-192 | each non-whitespace character occurs in the minified text as often as in the input |
| XmlFormat.MatchAt | content.js:144 | a match at a position is non-empty and within the text; where no alternative matches, the text starts with `<`; which alternative wins is stated by `PiIsOneToken`, `CommentIsOneToken`, `CDataIsOneToken` and `AngleMatches` |
| XmlFormat.Tokens | content.js:144 | the global match, left to right, skipping a character where nothing matches; its contract is carried by `MatchAt`, `NoTokensIffAllAngles`, `TokensKeepAllButStrayAngles`, `WellAngledTokensKeepAll`, `PiIsOneToken`, `CommentIsOneToken`, `CDataIsOneToken` |
| XmlFormat.Classify | content.js:153-176 | the emitter's test chain, in its order; see `CommentIsOneToken`, `CDataIsOneToken`, `BlankTextEmitsNothing`, `SelfClosingKeepsDepth` |
| XmlFormat.Step | content.js:153-182 | one iteration of the loop; its contract is carried by `EmitToken`, `StepKeepsOrder`, `BlankTextEmitsNothing`, `SelfClosingKeepsDepth` |
| XmlFormat.Run | content.js:150-183 | the loop over all tokens; its contract is carried by `FormatXmlString`, `DepthBounds`, `DepthWhenNested`, `RunKeepsOrder` |
| XmlFormat.FormatXml | content.js:139-185 | what `formatXMLString` returns; its contract is carried by `FormatXmlString`, `FormatEndsWithoutWs`, `FormatWithoutTokensIsIdentity`, `FormatKeepsOrder`, `FormatKeepsContent`, `FormatExample` |
| XmlFormat.EmitToken | content.js:151-181 | one loop iteration writes the token's line and moves the depth exactly as the per-token `Step`, whose depth and content properties are the lemmas below |
| XmlFormat.FormatXmlString | content.js:139-185 | the loop's result equals `FormatXml`: tokens folded through the per-token step, then `trimEnd`, or the input unchanged when nothing tokenizes |
| XmlFormat.PiIsOneToken | content.js:144 | a processing instruction is one token up to its first `?>`, and it is classed as a processing instruction (content.js:153) |
| XmlFormat.CommentIsOneToken | content.js:144 | a comment is one token up to its first `-->` even if it holds `>` or `<`, and it is classed as a comment |
| XmlFormat.CDataIsOneToken | content.js:144 | a CDATA section is one token up to its first `]]>`, and it is classed as CDATA |
| XmlFormat.NoTokensIffAllAngles | content.js:144-145 | the tokenizer finds no token exactly when the text consists only of `<` characters |
| XmlFormat.FormatWithoutTokensIsIdentity | content.js:145 | when nothing tokenizes, the input is returned unchanged |
| XmlFormat.TokensKeepAllButStrayAngles | content.js:144 | joined together, the tokens equal the text once every `<` is removed from both: no other character is lost, added or reordered |
| XmlFormat.WellAngledTokensKeepAll | content.js:144 | when every `<` is followed by a non-`>` character and, later, by a `>`, the tokens joined together are exactly the text: no `<` is skipped |
| XmlFormat.DepthBounds | content.js:148-176 | the depth never exceeds the opening tags seen, and never falls below openings minus closings |
| XmlFormat.DepthWhenNested | content.js:165-175 | when no prefix closes more than it opened, the depth is exactly openings minus closings |
| XmlFormat.BlankTextEmitsNothing | content.js:176-182 | a whitespace-only text token writes no line and keeps the depth |
| XmlFormat.SelfClosingKeepsDepth | content.js:169-171 | a `<…/>` tag that is not a closing tag, PI, comment, CDATA or DOCTYPE is classed as self-closing, written at the current depth, and keeps the depth |
| XmlFormat.FormatEndsWithoutWs | content.js:184 | the formatted text never ends in whitespace, for every input: either it is trimmed at the end, or nothing tokenized and the input, made of `<` alone, comes back (content.js:145) |
| XmlFormat.NoTokensOnlyAngles | content.js:142-145 | when the stripped text is made of `<` alone, so is the input |
| XmlFormat.StepKeepsOrder | content.js:153-182 | with a whitespace indent unit, one iteration appends its token's non-whitespace characters, in order, and nothing else that is not whitespace |
| XmlFormat.RunKeepsOrder | content.js:150-183 | with a whitespace indent unit, the loop's output, whitespace ignored, is the tokens joined together, whitespace ignored |
| XmlFormat.FormatKeepsOrder | content.js:139-185 | with a whitespace indent unit, the output and the input are equal once whitespace and `<` are removed from both: the characters other than those survive in order |
| XmlFormat.FormatKeepsAllWhenWellAngled | content.js:139-185 | with a whitespace indent unit, when every `<` of the stripped text is followed by a non-`>` character and later by a `>`, the output equals the input once whitespace is removed from both |
| XmlFormat.IndentUnit | content.js:140 | a number gives that many spaces, so a whitespace unit; a string is used as given |
| XmlFormat.FormatKeepsContent | content.js:139-185 | with a whitespace indent unit, every character that is neither whitespace nor `<` occurs in the output as often as in the input |
| XmlFormat.FormatExample | content.js:139-185 | `<a><b>1</b><!--c--></a>` with indent 2 gives the lines `<a>`, `  <b>`, `    1`, `  </b>`, `  <!--c-->`, `</a>` |
| Transform.ProcessJson | content.js:86-99 | a result exactly when the text is non-empty and its cleaned form parses; see also `JsonDetectedYieldsResult`, `SameCleanSameJson` |
| Transform.ProcessXml | content.js:194-203 | a result exactly when the text is non-empty, with no validation; see also `XmlDetectedYieldsResult`, `XmlMinifyResultIsMinimal`, `XmlFormatResultEndsClean` |
| Transform.ProcessContent | content.js:212-217 | the detector picks the processor; its contract is carried by `ProcessContentKind`, `JsonDetectedYieldsResult`, `XmlDetectedYieldsResult`, `ProcessorsIgnoreEdges` |
| Transform.ProcessContentKind | content.js:212-217 | the reported type is the detector's verdict, and undetected text gives no result |
| Transform.JsonDetectedYieldsResult | content.js:86-98 | text detected as JSON always gives a result: the re-serialisation of its cleaned form, with the indent only when formatting |
| Transform.XmlDetectedYieldsResult | content.js:194-203 | text detected as XML always gives a result: its cleaned form formatted or minified |
| Transform.XmlMinifyResultIsMinimal | content.js:194-203 | minified XML output is trimmed, has no inter-tag or doubled whitespace, and is a fixed point of the minifier |
| Transform.XmlFormatResultEndsClean | content.js:194-203 | the formatter applied to cleaned text, which is what `processXML` returns when formatting, never ends in whitespace |
| Transform.SameCleanSameJson | content.js:86-98 | two non-empty texts with the same cleaned form give the same JSON result |
| Transform.SameCleanSameXml | content.js:194-203 | two non-empty texts with the same cleaned form give the same XML result |
| Transform.ProcessorsIgnoreEdges | content.js:86-99 | processing already-cleaned text gives the same result as processing the original text |
| Escape.ReplaceAll | content.js:221 | a global one-character replacement leaves none of that character when the replacement holds none |
| Escape.ReplaceAllAddsNothing | content.js:221 | a global one-character replacement neither adds nor removes any character that is neither the replaced one nor in the replacement |
| Escape.EscapeHtml | content.js:220-222 | the four chained replacements; its contract is carried by `EscapeHtmlIsEscapeEach`, `EscapeHtmlNoSpecials`, `EscapeHtmlRoundTrip` |
| Escape.EscapeHtmlIsEscapeEach | content.js:220-222 | the replace chain equals escaping each character on its own |
| Escape.EscapeHtmlNoSpecials | content.js:220-222 | the escaped text contains no raw `<`, `>` or `"` |
| Escape.EscapeHtmlRoundTrip | content.js:220-222 | unescaping the escaped text gives back the input exactly: no character is escaped twice |
| Bridge.ResponseEffects | content.js:473-480 | a successful response to a request updates its button first, then notifies success exactly when feedback is on and the content type is non-empty; any other response shows its error when there is one and otherwise does nothing; no callback is ever called |
| Bridge.TimeoutEffects | content.js:429-436 | a timeout has exactly one effect: for a check, its callback with `null` (content.js:452-458); for a request, the notification "Editor not responding" |
| Bridge.MessageEffects | content.js:461-493 | at most two effects; a callback is called only when a check response answers a check entry, and then it is the only effect, and it is called with the response's type |
| Bridge.Initiator.constructor | content.js:404-405 | the counter starts at 0 with nothing pending |
| Bridge.Initiator.HandleEditor | content.js:412-437 | pre-increments the counter and returns the new id, which is fresh even without an editor type; with a type, it tags the element, sends the request, adds the entry and arms its timer |
| Bridge.Initiator.CheckEditor | content.js:439-459 | pre-increments the counter; without an editor type it calls back `null` at once; otherwise it tags the element, sends the check, adds the entry and arms its timer |
| Bridge.Initiator.OnTimeout | content.js:429-436 | a firing timer disarms itself; if its entry is still pending it removes it and reports the timeout, otherwise it changes nothing |
| Bridge.Initiator.OnMessage | content.js:461-493 | foreign or unknown messages change nothing; a response for a pending id removes that entry exactly once, with the listener's effects; a response for an id no longer pending changes nothing |
| Bridge.AnsweredThenTimedOut | content.js:429-476 | a request answered in time updates the button and notifies once; its timer later does nothing |
| Bridge.TimedOutThenAnswered | content.js:429-471 | a request that times out is reported once; the late response does nothing |
| Bridge.ChecksOutOfOrder | content.js:439-491 | ids are issued 1, 2, 3, and the id is consumed even without an editor type; checks answered out of order each reach their own callback |

## Left out

- DOM and browser plumbing is not part of this model:
  - focus and mouse listeners, `chrome.storage` settings, the shadow-DOM button and notifications;
  - mutation observer, debounce, badge, highlight and picker code;
  - `highlightJSON` and `highlightXML`;
  - `page-script.js`, `background.js` and `popup.js`.
- `JSON.parse`, `JSON.stringify` and `DOMParser` are function-typed parameters, not re-implemented. The model proves nothing about the JSON grammar or XML well-formedness.
- `getIndent()` and the `indent === undefined` default are not modelled. The indent is always passed explicitly.
- `getElementType` is a parameter (`editorType`). `window.postMessage` is the returned `OutMessage`. `updateButtonState`, `showNotification` and callbacks are returned `Effect` values.
- Console logging is not modelled.
- Timer delays are not modelled. A timer is the explicit event `OnTimeout(id)`, allowed once per armed id. The 3-second figure plays no role.
- Strings are sequences of Unicode scalar values, not UTF-16 code units. The 5 MiB ceiling therefore counts characters rather than code units.
- The `typeof text !== 'string'` guards are not modelled, because every input is a string.
- `Bridge.Initiator.OnMessage` treats `requestId` as an integer. A page message carrying an id of another JavaScript type (such as the string `"3"`) never matches a pending entry in the source, and cannot be expressed here.
- `Bridge.Effect.NotifyDone` carries the content type as received. The upper-casing done by `toUpperCase()` is left to the display.
