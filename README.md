# Recovering a structured health assessment from a model reply

`GeminiService.generateAssessment` sends a prompt to a text-generation
provider. It then turns whatever text comes back into a result object with a
fixed shape: `summary`, `recommendations`, `culturalTips`, `warningSigns`,
`riskLevel` and `structuredData`. Recovery runs in tiers, in a strict order:

1. Markdown fences are deleted and the text trimmed. The span from the first
   `{` to the last `}` is then given to `JSON.parse`.
2. If that gives nothing, each field is pulled from the original text with
   five quoting variants of a `key: "value"` pattern. The result is kept only
   when `summary` or `recommendations` is longer than 5 code units.
3. If that fails too, the wrapping braces, key labels and stray quotes are
   deleted from the cleaned text. The rest becomes the summary, or a fixed
   message when fewer than 5 code units are left.
4. A final polish defaults the falsy fields, sanitizes every string and
   coerces `recommendations` to an array.

A failure of the provider call gives a fixed error object instead.

The project also models two values the prompt is built from: the target
language (the `languageMap` lookup with its English fallback) and the
symptom text (an array of symptoms joined with `", "`).

Modules, one per file:

- `JsText` (`js_text.dfy`): JavaScript strings as sequences of UTF-16 code
  units, with `String.prototype.trim` and ASCII case folding.
- `Json` (`json.dfy`): `JSON.parse` as a strict parser of the JSON grammar of
  RFC 8259, plus property lookup and JavaScript truthiness.
- `Patterns` (`patterns.dfy`): every regular expression of the pipeline as a
  deterministic scanner. A global replace is a left-to-right scan. A
  `match` is the leftmost match, with its capture.
- `Recovery` (`recovery.dfy`): the tiers, the polish and `generateAssessment`.
  The recovery body itself is the method `Recover`. Like the source, it
  computes `cleanedText` once and reassigns `parsedData` tier by tier. The loop of
  `extractField` and the `forEach` loop over `keysToRemove` are methods with
  loops, each proved equal to a function that specifies it. Properties are
  proved about those functions.
- `Request` (`request.dfy`): the language fallback and the symptom join.
- `Scenarios` (`scenarios.dfy`): whole replies run through the pipeline.
- `Wrappers` (`wrappers.dfy`): `Option`.

Behaviour of the code worth knowing:

- The reply `{}` parses as an empty object, so tier 1 takes it. Every field
  gets its default and `structuredData` stays true. It does not produce the
  "format was unclear" message (`Scenarios.EmptyObjectReply`). The reply
  `{"structuredData": false}` is taken by tier 1 too. Every field gets its
  default and `structuredData` is false (`Scenarios.FlagFalseReply`).
- The truncated reply `{ "summary": "Good` (the case the source's comment
  names) fails tier 1 and tier 2. Tier 3 turns it into ` "Good`, which is
  long enough, and the sanitizer then deletes the quote: the summary is
  `Good` (`Scenarios.CutOffReply`).
- `summary` can be empty. A truthy non-string such as the number 5 is
  sanitized to "" (`Recovery.SummaryCanBeEmpty`).
- `rawText` is set by the plain-text tier but is not part of the returned
  object.
- `extractField` looks only at the leftmost match of each pattern. When that
  capture is empty it moves on to the next pattern, even if a later match of
  the same pattern captures something.

## Model

| member | source | states |
|---|---|---|
| JsText.Trim | server/src/services/gemini.service.js:74 | the trimmed text is a slice of the input with only white space cut from either end; a non-empty result has no white unit at either end; an all-white input gives "" |
| JsText.TrimOfTrimmed | server/src/services/gemini.service.js:146 | trimming a trimmed text changes nothing |
| Patterns.NoFenceAfterRemoval | server/src/services/gemini.service.js:74 | after the global deletion of "```", no "```" is left, including none formed by joining the pieces around a deleted fence |
| Recovery.CleanedHasNoFence | server/src/services/gemini.service.js:74 | `cleanedText` (both fence deletions, then trim) contains no "```" |
| Patterns.BraceSpan | server/src/services/gemini.service.js:77 | a span is a slice of the text that starts with `{` and ends with `}`; there is no span exactly when no `{` comes before a `}` |
| Json.Parse | server/src/services/gemini.service.js:83 | a text starting with `{` can only parse to an object, and one starting with `[` only to an array |
| Recovery.JsonTier | server/src/services/gemini.service.js:77-87 | tier 1 yields only objects; `parsedData` is the parse of the slice from the first `{` to the last `}` of the cleaned text whenever such a slice exists, and nothing otherwise |
| Json.LastBindingFound | server/src/services/gemini.service.js:172-179 | a property lookup finds the last member with that key, and finds nothing exactly when no member has it |
| Json.LastBindingAt | server/src/services/gemini.service.js:172-179 | a member that no later member overrides is what the lookup returns |
| Json.LastBindingAbsent | server/src/services/gemini.service.js:179 | a key that no member names gives `undefined` |
| Patterns.CaptureAtMeansMatch | server/src/services/gemini.service.js:93-97 | the scanner accepts at a position exactly when the pattern (label, white space, colon, white space, quoted value) matches there, with that capture |
| Patterns.MatchIsLeftmost | server/src/services/gemini.service.js:100 | `text.match(p)` gives the capture of a match when one exists, and no match exists when it gives null |
| Patterns.FirstCaptureIsFirst | server/src/services/gemini.service.js:100 | a found capture belongs to the match at some position from the start of the search |
| Patterns.FirstCaptureNone | server/src/services/gemini.service.js:100 | when the search finds nothing, no position matches |
| Recovery.FirstFoundIsFirst | server/src/services/gemini.service.js:99-103 | the value is the capture of the first pattern in order whose leftmost match has a non-empty capture, with no such pattern before it; it is "" exactly when no pattern has one |
| Recovery.ExtractField | server/src/services/gemini.service.js:91-104 | the loop over the five patterns with its early return computes the first non-empty leftmost capture, as above |
| Recovery.ExtractedObject | server/src/services/gemini.service.js:111-117 | the object built by tier 2 binds each of the five keys to its capture and has no `structuredData` |
| Recovery.ExtractionTier | server/src/services/gemini.service.js:106-118 | tier 2 sets `parsedData` exactly when `summary` or `recommendations` is longer than 5, and then to an object |
| Recovery.Extract | server/src/services/gemini.service.js:106-118 | the source's order of calls (the last three fields only after the length test) gives the same result as the tier-2 function |
| Patterns.DeleteFromShrinks | server/src/services/gemini.service.js:136 | deleting matches never lengthens a text |
| Patterns.DeleteKeepsUnits | server/src/services/gemini.service.js:136 | deleting matches never adds a unit that was not in the text |
| Patterns.NoMatchUnchanged | server/src/services/gemini.service.js:136-143 | a replacement with no match anywhere leaves the text as it is |
| Patterns.KeyLabelNeedsColon | server/src/services/gemini.service.js:136 | a key label only matches where there is a colon |
| Patterns.QuotePatternNeedsQuote | server/src/services/gemini.service.js:140-143 | the four line-end cleanups only match where there is a quote |
| Patterns.StripLeadingBrace | server/src/services/gemini.service.js:130 | a `{` after leading white space is deleted together with that white space; otherwise the text is unchanged |
| Patterns.StripTrailingBrace | server/src/services/gemini.service.js:130 | a `}` followed only by white space is deleted together with that white space; otherwise the text is unchanged |
| Recovery.PlainSummary | server/src/services/gemini.service.js:146-151 | the plain-text summary is the trimmed text, or the fixed message when the trimmed text is shorter than 5; it is never shorter than 5 and has no white unit at either end |
| Recovery.UnclearMessageTrimmed | server/src/services/gemini.service.js:147 | the fixed message is long enough and already trimmed |
| Recovery.PlainTextObject | server/src/services/gemini.service.js:150-158 | the tier-3 object binds `summary` and `rawText` to the same text, with `recommendations` `[]`, empty tips and signs, "Medium Risk" and `structuredData` false |
| Recovery.PlainTextTier | server/src/services/gemini.service.js:127-158 | `safeText` rewritten step by step, with the `forEach` over `keysToRemove`, gives the object built from `PlainSummary(SafeText(cleaned))` |
| Recovery.RemoveJsonPunct | server/src/services/gemini.service.js:166 | the result has none of `{ } " [ ]`, is no longer than the input, and equals a text that has none of them |
| Recovery.RemoveJsonPunctCounts | server/src/services/gemini.service.js:166 | every `{ } " [ ]` is deleted, and every other unit occurs in the result exactly as often as in the input |
| Recovery.RemoveJsonPunctUnit | server/src/services/gemini.service.js:166 | a single unit is deleted exactly when it is one of `{ } " [ ]`, and kept otherwise |
| Recovery.RemoveJsonPunctAppend | server/src/services/gemini.service.js:166 | the deletion distributes over concatenation, so the remaining units keep their order |
| Recovery.SanitizeCases | server/src/services/gemini.service.js:162-169 | a non-string gives ""; a string whose trimmed form starts with `{`, `[` or `"` loses every `{ } " [ ]` and at least one unit; any other string is returned unchanged |
| Recovery.NoPunctNotJsonLike | server/src/services/gemini.service.js:165 | a string without `{ } " [ ]` never passes the sanitizer's test |
| Recovery.SanitizeIdempotent | server/src/services/gemini.service.js:162-169 | sanitizing twice is sanitizing once |
| Recovery.FixedPoint | server/src/services/gemini.service.js:162-169 | the sanitizer's output on any value is a fixed point of the sanitizer |
| Recovery.DefaultsUnchanged | server/src/services/gemini.service.js:147-178 | the sanitizer leaves "Health Guidance", "Medium Risk" and the unclear-format message alone |
| Recovery.EmptyTextUnchanged | server/src/services/gemini.service.js:176-177 | the sanitizer leaves "" alone |
| Recovery.PolishDefaults | server/src/services/gemini.service.js:172-178 | a falsy `summary` gives "Health Guidance", a falsy `riskLevel` "Medium Risk", falsy tips and signs "" |
| Recovery.PolishRecommendations | server/src/services/gemini.service.js:173-175 | an array passes through unchanged; a truthy non-array `v` becomes `[sanitizeString(v)]`, a single string that is already sanitized; anything else gives `[]` |
| Recovery.StructuredDataFlag | server/src/services/gemini.service.js:73-180 | the result's `structuredData` is false exactly when tier 1 and tier 2 both fail (the plain-text tier sets it false), or tier 1 parsed an object whose `structuredData` is the boolean `false`; every other reply gives true |
| Recovery.PolishIsSanitized | server/src/services/gemini.service.js:171-180 | every string field of the result is already sanitized |
| Recovery.SummaryCanBeEmpty | server/src/services/gemini.service.js:172 | a numeric `summary` is truthy but becomes "" |
| Recovery.Recover | server/src/services/gemini.service.js:73-180 | the recovery body returns the polish of the recovered data; its tier is the JSON tier exactly when that parsed, extraction exactly when the parse failed and extraction succeeded, plain text exactly when both failed |
| Recovery.PlainTextResult | server/src/services/gemini.service.js:122-180 | when both earlier tiers fail, the result has no recommendations, tips or signs, "Medium Risk", `structuredData` false, and the sanitized plain summary |
| Recovery.ExtractedResult | server/src/services/gemini.service.js:110-180 | when extraction succeeds, the result holds the sanitized captures, an empty `summary` or `riskLevel` replaced by its default, a captured `recommendations` as one string, and `structuredData` true |
| Recovery.GenerateAssessment | server/src/services/gemini.service.js:69-188 | a failed provider call gives the fixed "Service temporarily unavailable" sentinel; any reply text gives the recovered result |
| Scenarios.EmptyReply | server/src/services/gemini.service.js:122-158 | an empty reply ends in the plain-text tier with the unclear-format message |
| Scenarios.NoBacktickNoFence | server/src/services/gemini.service.js:74 | a text without backticks is left unchanged by the fence deletions |
| Scenarios.EmptyObjectReply | server/src/services/gemini.service.js:77-87 | the reply `{}` is taken by tier 1 and gives every default with `structuredData` true |
| Scenarios.FlagFalseParses | server/src/services/gemini.service.js:77-87 | the reply `{"structuredData":false}` has no fence, is its own brace span, and parses to the one-member object |
| Scenarios.FlagFalseReply | server/src/services/gemini.service.js:77-180 | that reply gives every default and `structuredData` false |
| Scenarios.FencedJson | server/src/services/gemini.service.js:74-87 | a reply fenced as "```json", a line break, an object text without backticks, a line break and "```" is parsed as exactly that object text |
| Scenarios.NoColonNothingFound | server/src/services/gemini.service.js:93-97 | without a colon, no field is extracted |
| Scenarios.MatchNeedsColon | server/src/services/gemini.service.js:93-97 | a match of a field pattern contains a colon |
| Scenarios.NoColonNoLabels | server/src/services/gemini.service.js:133-137 | without a colon, the key-label removal changes nothing |
| Scenarios.NoQuoteCleanLineEnds | server/src/services/gemini.service.js:140-143 | without quotes, the line-end cleanups change nothing |
| Scenarios.ProseFailsFirstTiers | server/src/services/gemini.service.js:77-118 | prose without braces, colons or backticks fails both the JSON and the extraction tier |
| Scenarios.ProseSafeText | server/src/services/gemini.service.js:130-143 | steps A to C leave such prose unchanged |
| Scenarios.PlainProseIsKept | server/src/services/gemini.service.js:121-180 | plain prose of at least 5 units comes back, trimmed, as the summary, with every other field at its default and `structuredData` false |
| Scenarios.QuotedSummaryTiers | server/src/services/gemini.service.js:93 | `"summary": "Take rest"` without braces fails tier 1, and the first pattern extracts "Take rest" |
| Scenarios.QuotedSummaryIsExtracted | server/src/services/gemini.service.js:106-118 | that reply is recovered by tier 2, with summary "Take rest" and `structuredData` true |
| Patterns.FieldPatterns | server/src/services/gemini.service.js:92-98 | the five field patterns, in the source's order, all for the given key: `"k"` with a `"` value, `"k"` with a `'` value, `'k'` with a `"` value, `'k'` with a `'` value, bare `k` with a `"` value |
| Recovery.Found | server/src/services/gemini.service.js:100-101 | definition: `m && m[1]`, a leftmost match whose capture is not empty; its properties are `Recovery.FirstFoundIsFirst` |
| Recovery.ExtractionSucceeds | server/src/services/gemini.service.js:110 | definition: `summary.length > 5 \|\| recommendations.length > 5`; its properties are `Recovery.ExtractionTier` |
| Patterns.EolEnd | server/src/services/gemini.service.js:140-142 | a greedy `\s*$` under the `m` flag ends at the last position of the white run that is the end of the text or a line terminator, and there is none when no such position exists |
| Patterns.ColonAtMeansRun | server/src/services/gemini.service.js:136 | the `\s*:\s*` scanner ends at `e` exactly when white units, a colon and the longest following white run end there |
| Patterns.LabelRestMatch | server/src/services/gemini.service.js:136 | after the optional first quote, the scanner matches exactly when the key occurs there ignoring case, an optional quote follows, then a colon run |
| Patterns.KeyLabelMatch | server/src/services/gemini.service.js:136 | `['"]?key['"]?\s*:\s*` matches at `i` up to `e` exactly when an optional quote, the key ignoring case, an optional quote and a colon run end at `e` |
| Patterns.ReplaceNext | server/src/services/gemini.service.js:74-143 | a global replace copies the units before the next match, puts the replacement in place of that match, and goes on after it |
| Patterns.OnlyMatchReplaced | server/src/services/gemini.service.js:74-143 | a pattern that matches only at `m` is replaced there and the rest of the text is kept |
| Patterns.NoCaptureFound | server/src/services/gemini.service.js:100 | when no position captures, `text.match(p)` finds nothing |
| Recovery.RemoveFirstKeyLabel | server/src/services/gemini.service.js:133-137 | the `forEach` deletes the labels of its first key before it looks at the others |
| Scenarios.NoCaptureNothingFound | server/src/services/gemini.service.js:91-104 | when no field pattern captures anywhere, `extractField` returns "" |
| Scenarios.NoKeyNothingFound | server/src/services/gemini.service.js:91-104 | a text that never spells the key, ignoring case, gives "" for that field |
| Scenarios.LeadingBraceGoes | server/src/services/gemini.service.js:130 | a text that starts with `{` loses exactly that unit |
| Scenarios.NoTrailingBrace | server/src/services/gemini.service.js:130 | a text whose last unit is neither white nor `}` keeps its end |
| Scenarios.OneLabelRemoved | server/src/services/gemini.service.js:136 | a key label matched once, with no colon after it, is all that is removed for that key |
| Scenarios.CutOffFirstTiers | server/src/services/gemini.service.js:74-118 | `{ "summary": "Good` has no fence, no `}` for tier 1, and no field for tier 2 |
| Scenarios.CutOffNoSummary | server/src/services/gemini.service.js:92-101 | in that reply the summary label is found, but its value never closes, so no pattern captures |
| Scenarios.CutOffLabelAt | server/src/services/gemini.service.js:136 | after the `{` goes, the summary label matches from the quote to the value's quote and nowhere before |
| Scenarios.CutOffLabels | server/src/services/gemini.service.js:130-137 | steps A and B turn that reply into ` "Good` |
| Scenarios.CutOffLineEnds | server/src/services/gemini.service.js:140-143 | step C leaves ` "Good` unchanged: its quote neither ends nor starts a line |
| Scenarios.CutOffReply | server/src/services/gemini.service.js:122-180 | the reply `{ "summary": "Good` comes back with summary `Good`, every other field at its default and `structuredData` false |
| Scenarios.QuoteCommaOnlyAt | server/src/services/gemini.service.js:140-141 | where a quote is followed by anything but a comma, the quote-comma rule does not match |
| Scenarios.QuoteAtEolOnlyAt | server/src/services/gemini.service.js:142 | a `"` followed by a unit that is not white ends no line |
| Scenarios.OccursStartsWith | server/src/services/gemini.service.js:93-97 | an occurrence of a key ignoring case starts with the key's first letter, folded |
| Scenarios.CutOffNoRecommendations | server/src/services/gemini.service.js:92-101 | no unit of `{ "summary": "Good` folds to `r`, so the recommendations field is "" |
| Scenarios.CutOffSummaryLabels | server/src/services/gemini.service.js:93-97 | in that reply only the two `"summary"` patterns at its first quote and the bare pattern at `s` find their label |
| Scenarios.CutOffBraces | server/src/services/gemini.service.js:130 | step A deletes the leading `{` of that reply and nothing at its end |
| Scenarios.CutOffLabelRemoved | server/src/services/gemini.service.js:136 | the summary-label deletion turns ` "summary": "Good` into ` "Good` |
| Scenarios.CutOffTrimmed | server/src/services/gemini.service.js:146 | ` "Good` trims to `"Good`, five units, so it is kept |
| Scenarios.GoodSanitized | server/src/services/gemini.service.js:165-166 | `"Good` starts with a quote, so the sanitizer deletes it, leaving `Good` |
| Scenarios.StrayStep1 | server/src/services/gemini.service.js:140 | `",` before a line feed becomes a line feed, and the line feed itself stays |
| Scenarios.StrayStep2 | server/src/services/gemini.service.js:141 | `',` before a line feed becomes a line feed |
| Scenarios.StrayStep3 | server/src/services/gemini.service.js:142 | a `"` at the end of the text is deleted, a `"` followed by a letter is kept |
| Scenarios.StrayStep4 | server/src/services/gemini.service.js:143 | a `"` right after a line feed is deleted |
| Scenarios.StrayFirstTiers | server/src/services/gemini.service.js:74-118 | those lines have no fence, no brace and no colon, so they fail tier 1 and tier 2 |
| Scenarios.UnstrayedSummary | server/src/services/gemini.service.js:146-168 | the cleaned lines are trimmed, long enough and start with a letter, so they are the summary as they are |
| Scenarios.StrayLineEnds | server/src/services/gemini.service.js:140-143 | on `Eat",` LF `"Nap',` LF `Go"`, each step-C rule fires once, leaving `Eat` LF LF `Nap` LF LF `Go` |
| Scenarios.StraySafeText | server/src/services/gemini.service.js:127-143 | steps A and B leave those lines alone and step C cleans them |
| Scenarios.StrayReply | server/src/services/gemini.service.js:122-180 | those lines, without braces or colons, come back cleaned as the summary, with every other field at its default and `structuredData` false |
| Request.OwnEntryFound | server/src/services/gemini.service.js:30-39 | a lookup of the map's own entries finds an entry with that key, and finds nothing exactly when no entry has it |
| Request.KnownLanguages | server/src/services/gemini.service.js:30-39 | each of the six keys maps to its language name |
| Request.TargetLanguageCases | server/src/services/gemini.service.js:39 | a named result is one of the three languages; a key that is neither own nor inherited falls back to English; an inherited result is a member of `Object.prototype` |
| Request.MissingLanguageIsEnglish | server/src/services/gemini.service.js:39 | a missing language falls back to English |
| Request.InheritedNameSkipsFallback | server/src/services/gemini.service.js:39 | the language "toString" is no own key, yet the lookup returns the inherited function, so no fallback happens |
| Request.OwnTargetLanguage | server/src/services/gemini.service.js:30-39 | the lookup restricted to own entries always gives one of the three language names, and English for a missing language or one that is no own key |
| Request.OwnTargetLanguageAgrees | server/src/services/gemini.service.js:39 | the lookup as written and the own-entry lookup agree on every language that names no member of `Object.prototype` |
| Request.SplitJoin | server/src/services/gemini.service.js:40 | symptoms without commas are recovered exactly from their joined text |
| Request.JoinLength | server/src/services/gemini.service.js:40 | the joined text is as long as the symptoms plus two units per separator |
| JsText.TrimOfPadded | server/src/services/gemini.service.js:74 | trimming a text whose first and last non-white units are known cuts exactly the white runs outside them |
| Patterns.BraceSpanUnique | server/src/services/gemini.service.js:77 | when `i` is the first `{` and `e - 1` the last `}` of the text, with `i < e`, the span found is exactly `s[i..e]` |
| Patterns.CopyPrefix | server/src/services/gemini.service.js:74 | a global replace copies unchanged every unit before the next position where the pattern matches |
| Patterns.FenceNeedsBacktick | server/src/services/gemini.service.js:74 | neither fence pattern matches at a unit that is not a backtick |
| Json.StringCharsPlain | server/src/services/gemini.service.js:83 | a string body without quotes, backslashes or control units is read as itself, up to the closing quote |
| Json.StringAtPlain | server/src/services/gemini.service.js:83 | a quoted text without escapes parses to the text between the quotes |
| Json.LastMember | server/src/services/gemini.service.js:83 | a member followed by `}` completes the object with that member appended to those read so far |
| Json.OneMemberObject | server/src/services/gemini.service.js:83 | `"key": value}` parses to an object with that single member |
| Recovery.StripFences | server/src/services/gemini.service.js:74 | definition: `text.replace(/```json/gi, '').replace(/```/g, '').trim()` as two global deletions and a trim; its properties are `Recovery.CleanedHasNoFence` and `Scenarios.FencedJson` |
| Recovery.FirstFound | server/src/services/gemini.service.js:99-103 | definition: the `for` loop over the patterns as a recursion returning the first non-empty leftmost capture; its properties are `Recovery.FirstFoundIsFirst` |
| Recovery.FieldValue | server/src/services/gemini.service.js:91-104 | definition: `extractField(field)` on the original text with the five patterns of that field; computed step by step by `Recovery.ExtractField` |
| Recovery.RemoveKeyLabels | server/src/services/gemini.service.js:133-137 | definition: the `forEach` over `keysToRemove`, one global case-insensitive deletion per key, in order |
| Recovery.CleanLineEnds | server/src/services/gemini.service.js:140-143 | definition: the four multi-line replacements of step C, in order |
| Recovery.SafeText | server/src/services/gemini.service.js:127-143 | definition: steps A to C applied to the cleaned text; computed step by step by `Recovery.PlainTextTier` |
| Recovery.LooksLikeJson | server/src/services/gemini.service.js:165 | definition: the trimmed string starts with `{`, `[` or `"`; its properties are `Recovery.SanitizeCases` and `Recovery.NoPunctNotJsonLike` |
| Recovery.SanitizeText | server/src/services/gemini.service.js:165-168 | definition: `sanitizeString` on a string; its properties are `Recovery.SanitizeCases` and `Recovery.SanitizeIdempotent` |
| Recovery.Sanitize | server/src/services/gemini.service.js:162-169 | definition: `sanitizeString` on any value, "" for a non-string; its properties are `Recovery.SanitizeCases` and `Recovery.FixedPoint` |
| Recovery.OrElse | server/src/services/gemini.service.js:172-178 | definition: `value \|\| default` on an optional property; its properties are `Recovery.PolishDefaults` |
| Recovery.Recommendations | server/src/services/gemini.service.js:173-175 | definition: the array test and the truthiness test on `recommendations`; its properties are `Recovery.PolishRecommendations` |
| Recovery.Polish | server/src/services/gemini.service.js:171-180 | definition: the returned object built from `parsedData`; its properties are `Recovery.PolishDefaults`, `Recovery.PolishRecommendations`, `Recovery.PolishIsSanitized` and `Recovery.StructuredDataFlag` |
| Recovery.RecoveredData | server/src/services/gemini.service.js:73-159 | definition: `parsedData` after the three tiers; computed step by step by `Recovery.Recover` |
| Patterns.MatchAt | server/src/services/gemini.service.js:74-143 | a match starting at a position ends after it and within the text; its further properties are `Patterns.KeyLabelNeedsColon`, `Patterns.QuotePatternNeedsQuote` and `Patterns.FenceNeedsBacktick` |
| Patterns.ReplaceFrom | server/src/services/gemini.service.js:74-143 | definition: a global replace as one left-to-right scan, resuming after each match; its properties are `Patterns.CopyPrefix` and `Patterns.DeleteFromShrinks` |
| Patterns.ReplaceAll | server/src/services/gemini.service.js:74-143 | definition: `s.replace(p, replacement)` with a global pattern; its properties are `Patterns.DeleteFromShrinks`, `Patterns.DeleteKeepsUnits`, `Patterns.NoMatchUnchanged` and `Patterns.CopyPrefix` |
| Patterns.CaptureAt | server/src/services/gemini.service.js:93-97 | definition: the capture of a field pattern matching at exactly one position; its properties are `Patterns.CaptureAtMeansMatch` |
| Patterns.FirstCapture | server/src/services/gemini.service.js:100 | definition: the leftmost capture from a position on; its properties are `Patterns.FirstCaptureIsFirst` and `Patterns.FirstCaptureNone` |
| Patterns.Match | server/src/services/gemini.service.js:100 | definition: `text.match(p)[1]` of a field pattern, the capture of the leftmost match; its properties are `Patterns.MatchIsLeftmost` |
| Json.Get | server/src/services/gemini.service.js:172-179 | definition: a property read on a parsed value, `undefined` on a non-object; its properties are `Json.LastBindingFound` and `Json.LastBindingAt` |
| Json.Truthy | server/src/services/gemini.service.js:172-179 | definition: JavaScript truthiness of an optional value (`undefined`, `null`, `false`, zero and "" are falsy); its properties are `Recovery.PolishDefaults` |
| Request.TargetLanguage | server/src/services/gemini.service.js:39 | definition: `languageMap[language] \|\| languageMap['en']` with lookups that reach `Object.prototype`; its properties are `Request.TargetLanguageCases` and `Request.InheritedNameSkipsFallback` |
| Request.Join | server/src/services/gemini.service.js:40 | no symptoms join to "" and one symptom joins to itself; its further properties are `Request.SplitJoin` and `Request.JoinLength` |
| Request.SymptomsText | server/src/services/gemini.service.js:40 | definition: the array test choosing between the join and the text as given; its properties are `Request.SplitJoin` |

## Left out

- The provider client set-up, the network call and `response.text()`
  (server/src/services/gemini.service.js:4-24, 70-72) are foreign library
  calls. The reply is a parameter: its text, or a rejection that stands for
  any exception those calls throw.
- The prompt template (server/src/services/gemini.service.js:42-67) is
  string interpolation only. The model keeps the two values it interpolates
  that are computed: the target language and the symptom text.
- The controller's 15-second `Promise.race`
  (server/src/controllers/assessment.controller.js:25-36) is a timer race.
  Only the value it resolves to is kept, as the constant `Recovery.TimedOut`.
- The controller's validation, the Express wiring, the routes, the server and
  every `console.error` are I/O or framework glue.
- Json.Truthy: a number is falsy when all its mantissa digits are zero. A
  number zero only after floating-point rounding (such as `1e-400`) is
  modelled as truthy, because floating point is not modelled.
- Json.Parse: JavaScript's limit on nesting depth (a `RangeError` on very
  deep input) is not modelled. Such input is modelled as parsing normally.
- Request.TargetLanguage: a `language` that is not a string or missing (a
  number or an array, converted to a key by `String`) is not modelled.
- Request.SymptomsText: non-string array elements (which `join` converts to
  text) are not modelled; symptoms are a list of strings or one text.
- Recovery.Recommendations: the elements of an array `recommendations` are
  passed through as JSON values, as in the source, and are not sanitized.
- JsText.Fold: the `i` flag is modelled as case folding of the ASCII letters
  only. No non-ASCII character can match the ASCII keys of the patterns
  anyway.
- Exceptions inside the recovery body itself are not modelled. Every pattern
  and lookup is total on strings, so none can occur there.

## Findings

| source | as written | input that shows it | evidently intended | confidence | as-written member | corrected member |
|---|---|---|---|---|---|---|
| server/src/services/gemini.service.js:39 | `languageMap[language]` also finds the members `languageMap` inherits from `Object.prototype`. A function is truthy, so `\|\| languageMap['en']` never falls back | `language: "toString"` (likewise "constructor", "valueOf", `__proto__` …) puts a function's source text into the prompt as the language | only the six own entries count; every other language falls back to English | medium; not executed | Request.InheritedNameSkipsFallback | Request.OwnTargetLanguage |
