/** The structured-data recovery pipeline of `GeminiService.generateAssessment`:
    the provider's untrusted text becomes a result object of a fixed shape by
    four ordered tiers (direct JSON parse, per-field extraction, plain text,
    final polish). */
module Recovery {
  import opened JsText
  import opened Wrappers
  import opened Json
  import opened Patterns

  // ---------------------------------------------------------------------
  // Constants of the source
  // ---------------------------------------------------------------------

  const SummaryKey: Str := Lit("summary")
  const RecommendationsKey: Str := Lit("recommendations")
  const CulturalTipsKey: Str := Lit("culturalTips")
  const WarningSignsKey: Str := Lit("warningSigns")
  const RiskLevelKey: Str := Lit("riskLevel")
  const DataKey: Str := Lit("data")
  const RawTextKey: Str := Lit("rawText")
  const StructuredDataKey: Str := Lit("structuredData")

  /** `keysToRemove`, in the order the plain-text tier removes them. */
  const KeysToRemove: seq<Str> := [SummaryKey, RecommendationsKey, CulturalTipsKey, WarningSignsKey, RiskLevelKey, DataKey]

  /** An extracted `summary` or `recommendations` must be longer than this. */
  const ExtractionThreshold: nat := 5

  /** A plain-text summary shorter than this is replaced by UnclearMessage. */
  const PlainTextMinimum: nat := 5

  const UnclearMessage: Str :=
    Lit("Guidance generated, ") + Lit("but format was unclear. ") + Lit("Please consult a doctor ") + Lit("for advice.")
  const DefaultSummary: Str := Lit("Health Guidance")
  const DefaultRiskLevel: Str := Lit("Medium Risk")

  /** The object `generateAssessment` returns when recovery runs. */
  datatype Assessment = Assessment(
    summary: Str,
    recommendations: seq<Json>,
    culturalTips: Str,
    warningSigns: Str,
    riskLevel: Str,
    structuredData: bool)

  /** The tier that produced `parsedData`. */
  datatype Tier = Parsed | Extracted | PlainText

  // ---------------------------------------------------------------------
  // Tier 1: fences, then JSON.parse of the first `{` to the last `}`
  // ---------------------------------------------------------------------

  /** `cleanedText`: both kinds of Markdown fence deleted, then trimmed. */
  function StripFences(text: Str): Str
  {
    Trim(ReplaceAll(ReplaceAll(text, JsonFence, []), Fence, []))
  }

  lemma TrimSlice(s: Str) returns (i: nat, j: nat)
    ensures i <= j <= |s| && Trim(s) == s[i..j]
  {
    i, j :| 0 <= i <= j <= |s| && Trim(s) == s[i..j] && AllWhite(s, 0, i) && AllWhite(s, j, |s|);
  }

  /** No "```" survives the two fence replacements and the trim. */
  lemma CleanedHasNoFence(text: Str)
    ensures !Contains(StripFences(text), Lit("```"))
  {
    var once := ReplaceAll(text, JsonFence, []);
    var twice := ReplaceAll(once, Fence, []);
    NoFenceAfterRemoval(once);
    var i, j := TrimSlice(twice);
    if Contains(StripFences(text), Lit("```")) {
      ContainsInSlice(twice, i, j, Lit("```"));
    }
  }

  /** `parsedData` after tier 1: the parse of the text from its first `{` to
      its last `}`, `None` when there is no such span or `JSON.parse` throws.
      A span starts with `{`, so whatever parses is an object, and hence
      truthy. */
  function JsonTier(cleaned: Str): (parsed: Option<Json>)
    ensures parsed.Some? ==> parsed.value.JObject?
    ensures parsed.Some? ==> exists i, e :: IsBraceSpan(cleaned, i, e) && Parse(cleaned[i..e]) == parsed
    ensures forall i, e :: IsBraceSpan(cleaned, i, e) ==> parsed == Parse(cleaned[i..e])
  {
    BraceSpansUnique(cleaned);
    match BraceSpan(cleaned)
    case None => None
    case Some(span) => Parse(span)
  }

  // ---------------------------------------------------------------------
  // Tier 2: per-field extraction from the original text
  // ---------------------------------------------------------------------

  /** `m && m[1]`: the leftmost match of `p` exists and captured something. */
  predicate Found(text: Str, p: EntryPattern)
  {
    var m := Match(text, p);
    m.Some? && m.value != []
  }

  /** The capture of the first pattern in `ps` for which Found holds, or "". */
  function FirstFound(text: Str, ps: seq<EntryPattern>): Str
  {
    if ps == [] then []
    else if Found(text, ps[0]) then Match(text, ps[0]).value
    else FirstFound(text, ps[1..])
  }

  /** FirstFound is the capture of the first pattern that finds something,
      and "" exactly when no pattern does. */
  lemma {:induction false} FirstFoundIsFirst(text: Str, ps: seq<EntryPattern>)
    ensures var v := FirstFound(text, ps);
            v != [] ==> exists k :: 0 <= k < |ps| && Match(text, ps[k]) == Some(v)
                                    && forall j :: 0 <= j < k ==> !Found(text, ps[j])
    ensures FirstFound(text, ps) == [] <==> forall k :: 0 <= k < |ps| ==> !Found(text, ps[k])
  {
    if ps != [] && !Found(text, ps[0]) {
      FirstFoundIsFirst(text, ps[1..]);
      assert forall k :: 1 <= k < |ps| ==> ps[k] == ps[1..][k - 1];
      var v := FirstFound(text, ps);
      if v != [] {
        var k :| 0 <= k < |ps[1..]| && Match(text, ps[1..][k]) == Some(v)
                 && forall j :: 0 <= j < k ==> !Found(text, ps[1..][j]);
        assert Match(text, ps[k + 1]) == Some(v);
      }
    }
  }

  /** What `extractField(field)` returns for the original text. */
  function FieldValue(text: Str, field: Str): Str
  {
    FirstFound(text, FieldPatterns(field))
  }

  /** `extractField`: the patterns in order, returning the first non-empty
      capture of a leftmost match. */
  method ExtractField(text: Str, field: Str) returns (value: Str)
    ensures value == FieldValue(text, field)
  {
    var patterns := FieldPatterns(field);
    for k := 0 to |patterns|
      invariant FirstFound(text, patterns[k..]) == FirstFound(text, patterns)
    {
      var m := Match(text, patterns[k]);
      if m.Some? && m.value != [] {
        return m.value;
      }
      assert patterns[k..][1..] == patterns[k + 1..];
    }
    return [];
  }

  /** The tier-2 success condition. */
  predicate ExtractionSucceeds(text: Str)
  {
    |FieldValue(text, SummaryKey)| > ExtractionThreshold || |FieldValue(text, RecommendationsKey)| > ExtractionThreshold
  }

  /** The object literal tier 2 builds from its five captures. */
  function ExtractedObject(summary: Str, recommendations: Str, warningSigns: Str, culturalTips: Str, riskLevel: Str): (obj: Json)
    ensures Get(obj, SummaryKey) == Some(JString(summary))
    ensures Get(obj, RecommendationsKey) == Some(JString(recommendations))
    ensures Get(obj, WarningSignsKey) == Some(JString(warningSigns))
    ensures Get(obj, CulturalTipsKey) == Some(JString(culturalTips))
    ensures Get(obj, RiskLevelKey) == Some(JString(riskLevel))
    ensures Get(obj, StructuredDataKey) == None
  {
    var members := [ Member(SummaryKey, JString(summary)),
                     Member(RecommendationsKey, JString(recommendations)),
                     Member(WarningSignsKey, JString(warningSigns)),
                     Member(CulturalTipsKey, JString(culturalTips)),
                     Member(RiskLevelKey, JString(riskLevel)) ];
    KeysDistinct();
    LastBindingAt(members, 0, SummaryKey);
    LastBindingAt(members, 1, RecommendationsKey);
    LastBindingAt(members, 2, WarningSignsKey);
    LastBindingAt(members, 3, CulturalTipsKey);
    LastBindingAt(members, 4, RiskLevelKey);
    LastBindingAbsent(members, StructuredDataKey);
    JObject(members)
  }

  lemma KeysDistinct()
    ensures SummaryKey != RecommendationsKey && SummaryKey != WarningSignsKey && SummaryKey != CulturalTipsKey
    ensures SummaryKey != RiskLevelKey && SummaryKey != StructuredDataKey && SummaryKey != RawTextKey
    ensures RecommendationsKey != WarningSignsKey && RecommendationsKey != CulturalTipsKey
    ensures RecommendationsKey != RiskLevelKey && RecommendationsKey != StructuredDataKey && RecommendationsKey != RawTextKey
    ensures WarningSignsKey != CulturalTipsKey && WarningSignsKey != RiskLevelKey
    ensures WarningSignsKey != StructuredDataKey && WarningSignsKey != RawTextKey
    ensures CulturalTipsKey != RiskLevelKey && CulturalTipsKey != StructuredDataKey && CulturalTipsKey != RawTextKey
    ensures RiskLevelKey != StructuredDataKey && RiskLevelKey != RawTextKey && StructuredDataKey != RawTextKey
  {
    assert WarningSignsKey[0] != CulturalTipsKey[0];
    assert SummaryKey[0] != RawTextKey[0];
  }

  /** `parsedData` after tier 2, when tier 1 left it null. */
  function ExtractionTier(text: Str): (parsed: Option<Json>)
    ensures parsed.Some? <==> ExtractionSucceeds(text)
    ensures parsed.Some? ==> parsed.value.JObject?
  {
    if ExtractionSucceeds(text) then
      Some(ExtractedObject(FieldValue(text, SummaryKey), FieldValue(text, RecommendationsKey),
                           FieldValue(text, WarningSignsKey), FieldValue(text, CulturalTipsKey),
                           FieldValue(text, RiskLevelKey)))
    else None
  }

  /** Tier 2 as the source runs it: `summary` and `recommendations` first,
      the other three fields only once one of them is long enough. */
  method Extract(text: Str) returns (parsed: Option<Json>)
    ensures parsed == ExtractionTier(text)
  {
    parsed := None;
    var summary := ExtractField(text, SummaryKey);
    var recommendations := ExtractField(text, RecommendationsKey);
    if |summary| > ExtractionThreshold || |recommendations| > ExtractionThreshold {
      var warningSigns := ExtractField(text, WarningSignsKey);
      var culturalTips := ExtractField(text, CulturalTipsKey);
      var riskLevel := ExtractField(text, RiskLevelKey);
      parsed := Some(ExtractedObject(summary, recommendations, warningSigns, culturalTips, riskLevel));
    }
  }

  // ---------------------------------------------------------------------
  // Tier 3: strip the JSON syntax and keep the text
  // ---------------------------------------------------------------------

  /** The key labels of `keys` removed one key after the other. */
  function RemoveKeyLabels(s: Str, keys: seq<Str>): Str
    decreases |keys|
  {
    if keys == [] then s
    else ReplaceAll(RemoveKeyLabels(s, keys[..|keys| - 1]), KeyLabel(keys[|keys| - 1]), [])
  }

  /** The first key's labels go first: removing the labels of `[key] + keys`
      is removing those of `key`, then those of `keys`. */
  lemma {:induction false} RemoveFirstKeyLabel(s: Str, key: Str, keys: seq<Str>)
    ensures RemoveKeyLabels(s, [key] + keys) == RemoveKeyLabels(ReplaceAll(s, KeyLabel(key), []), keys)
    decreases |keys|
  {
    var all := [key] + keys;
    if keys == [] {
      assert all[..0] == [];
    } else {
      var init := keys[..|keys| - 1];
      assert all[..|all| - 1] == [key] + init;
      assert all[|all| - 1] == keys[|keys| - 1];
      RemoveFirstKeyLabel(s, key, init);
    }
  }

  /** Step C: stray quotes and commas at line ends and starts. */
  function CleanLineEnds(s: Str): Str
  {
    var a := ReplaceAll(s, QuoteCommaAtEol(Quote), [LineFeed]);
    var b := ReplaceAll(a, QuoteCommaAtEol(Apostrophe), [LineFeed]);
    var c := ReplaceAll(b, QuoteAtEol, []);
    ReplaceAll(c, QuoteAtLineStart, [])
  }

  /** `safeText` after steps A to C. */
  function SafeText(cleaned: Str): Str
  {
    CleanLineEnds(RemoveKeyLabels(StripTrailingBrace(StripLeadingBrace(cleaned)), KeysToRemove))
  }

  /** The plain-text summary: the trimmed text, or UnclearMessage when that
      is shorter than PlainTextMinimum. It is never shorter than the minimum
      and has no white unit at either end. */
  function PlainSummary(safeText: Str): (summary: Str)
    ensures |summary| >= PlainTextMinimum
    ensures summary != [] && !IsWhite(summary[0]) && !IsWhite(summary[|summary| - 1])
    ensures |Trim(safeText)| < PlainTextMinimum ==> summary == UnclearMessage
    ensures |Trim(safeText)| >= PlainTextMinimum ==> summary == Trim(safeText)
  {
    var t := Trim(safeText);
    if |t| < PlainTextMinimum then UnclearMessageTrimmed(); UnclearMessage else t
  }

  lemma UnclearMessageTrimmed()
    ensures |UnclearMessage| >= PlainTextMinimum
    ensures !IsWhite(UnclearMessage[0]) && !IsWhite(UnclearMessage[|UnclearMessage| - 1])
    ensures Trim(UnclearMessage) == UnclearMessage
  {
    assert UnclearMessage[0] == U('G');
    assert UnclearMessage[|UnclearMessage| - 1] == U('.');
    TrimOfTrimmed(UnclearMessage);
  }

  /** The object literal tier 3 builds around its summary. */
  function PlainTextObject(summary: Str): (obj: Json)
    ensures Get(obj, SummaryKey) == Some(JString(summary))
    ensures Get(obj, RawTextKey) == Some(JString(summary))
    ensures Get(obj, RecommendationsKey) == Some(JArray([]))
    ensures Get(obj, CulturalTipsKey) == Some(JString([]))
    ensures Get(obj, WarningSignsKey) == Some(JString([]))
    ensures Get(obj, RiskLevelKey) == Some(JString(DefaultRiskLevel))
    ensures Get(obj, StructuredDataKey) == Some(JBool(false))
  {
    var members := [ Member(SummaryKey, JString(summary)),
                     Member(RecommendationsKey, JArray([])),
                     Member(CulturalTipsKey, JString([])),
                     Member(WarningSignsKey, JString([])),
                     Member(RiskLevelKey, JString(DefaultRiskLevel)),
                     Member(RawTextKey, JString(summary)),
                     Member(StructuredDataKey, JBool(false)) ];
    KeysDistinct();
    LastBindingAt(members, 0, SummaryKey);
    LastBindingAt(members, 1, RecommendationsKey);
    LastBindingAt(members, 2, CulturalTipsKey);
    LastBindingAt(members, 3, WarningSignsKey);
    LastBindingAt(members, 4, RiskLevelKey);
    LastBindingAt(members, 5, RawTextKey);
    LastBindingAt(members, 6, StructuredDataKey);
    JObject(members)
  }

  /** The plain-text tier as the source runs it: `safeText` rewritten step by
      step, with one pass per key of `keysToRemove`. */
  method PlainTextTier(cleaned: Str) returns (parsed: Json)
    ensures parsed == PlainTextObject(PlainSummary(SafeText(cleaned)))
  {
    var safeText := cleaned;
    safeText := StripLeadingBrace(safeText);
    safeText := StripTrailingBrace(safeText);
    ghost var unbraced := safeText;
    var k := 0;
    while k < |KeysToRemove|
      invariant 0 <= k <= |KeysToRemove|
      invariant safeText == RemoveKeyLabels(unbraced, KeysToRemove[..k])
    {
      assert KeysToRemove[..k + 1][..k] == KeysToRemove[..k];
      safeText := ReplaceAll(safeText, KeyLabel(KeysToRemove[k]), []);
      k := k + 1;
    }
    assert KeysToRemove[..k] == KeysToRemove;
    safeText := ReplaceAll(safeText, QuoteCommaAtEol(Quote), [LineFeed]);
    safeText := ReplaceAll(safeText, QuoteCommaAtEol(Apostrophe), [LineFeed]);
    safeText := ReplaceAll(safeText, QuoteAtEol, []);
    safeText := ReplaceAll(safeText, QuoteAtLineStart, []);
    if |Trim(safeText)| < PlainTextMinimum {
      safeText := UnclearMessage;
      UnclearMessageTrimmed();
    }
    parsed := PlainTextObject(Trim(safeText));
  }

  // ---------------------------------------------------------------------
  // Final polish: sanitizeString and the result object
  // ---------------------------------------------------------------------

  /** The units the sanitizer deletes: `{ } " [ ]`. */
  predicate IsJsonPunct(u: Unit)
  {
    u == OpenBrace || u == CloseBrace || u == Quote || u == OpenBracket || u == CloseBracket
  }

  predicate NoJsonPunct(s: Str)
  {
    forall k :: 0 <= k < |s| ==> !IsJsonPunct(s[k])
  }

  /** `s.replace(/[{}"\[\]]/g, '')`. */
  function RemoveJsonPunct(s: Str): (r: Str)
    ensures NoJsonPunct(r)
    ensures |r| <= |s|
    ensures NoJsonPunct(s) ==> r == s
  {
    if s == [] then []
    else
      var rest := RemoveJsonPunct(s[1..]);
      if IsJsonPunct(s[0]) then rest else [s[0]] + rest
  }

  /** The deletion removes every `{ } " [ ]` and keeps every other unit as
      often as it occurs. */
  lemma {:induction false} RemoveJsonPunctCounts(s: Str)
    ensures forall u :: IsJsonPunct(u) ==> multiset(RemoveJsonPunct(s))[u] == 0
    ensures forall u :: !IsJsonPunct(u) ==> multiset(RemoveJsonPunct(s))[u] == multiset(s)[u]
    decreases |s|
  {
    if s != [] {
      RemoveJsonPunctCounts(s[1..]);
      assert s == [s[0]] + s[1..];
      var r := RemoveJsonPunct(s);
      forall u | IsJsonPunct(u) ensures multiset(r)[u] == 0 {
        assert u !in r;
      }
    }
  }

  /** On a single unit the deletion keeps it exactly when it is not `{ } " [ ]`;
      with RemoveJsonPunctAppend this determines the deletion on every text. */
  lemma RemoveJsonPunctUnit(u: Unit)
    ensures RemoveJsonPunct([u]) == if IsJsonPunct(u) then [] else [u]
  {
    assert [u][1..] == [];
  }

  /** Deleting the punctuation distributes over concatenation, so the units
      that remain keep their order. */
  lemma {:induction false} RemoveJsonPunctAppend(a: Str, b: Str)
    ensures RemoveJsonPunct(a + b) == RemoveJsonPunct(a) + RemoveJsonPunct(b)
    decreases |a|
  {
    if a != [] {
      assert (a + b)[0] == a[0];
      assert (a + b)[1..] == a[1..] + b;
      RemoveJsonPunctAppend(a[1..], b);
      if !IsJsonPunct(a[0]) {
        assert [a[0]] + (RemoveJsonPunct(a[1..]) + RemoveJsonPunct(b))
            == ([a[0]] + RemoveJsonPunct(a[1..])) + RemoveJsonPunct(b);
      }
    } else {
      assert a + b == b;
    }
  }

  /** The sanitizer's test: the trimmed string starts with `{`, `[` or `"`. */
  predicate LooksLikeJson(s: Str)
  {
    var t := Trim(s);
    t != [] && (t[0] == OpenBrace || t[0] == OpenBracket || t[0] == Quote)
  }

  /** `sanitizeString` on a string. */
  function SanitizeText(s: Str): Str
  {
    if LooksLikeJson(s) then RemoveJsonPunct(s) else s
  }

  /** `sanitizeString` on any value: a non-string gives "". */
  function Sanitize(v: Json): Str
  {
    if v.JString? then SanitizeText(v.s) else []
  }

  /** The cases of `sanitizeString`: a non-string gives ""; a string that
      looks like JSON loses every `{ } " [ ]` and at least one unit; any
      other string is returned as it is. */
  lemma SanitizeCases(v: Json)
    ensures !v.JString? ==> Sanitize(v) == []
    ensures v.JString? && LooksLikeJson(v.s) ==>
              NoJsonPunct(Sanitize(v)) && |Sanitize(v)| < |v.s| && Sanitize(v) == RemoveJsonPunct(v.s)
    ensures v.JString? && !LooksLikeJson(v.s) ==> Sanitize(v) == v.s
  {
    if v.JString? && LooksLikeJson(v.s) {
      var s := v.s;
      var i, j := TrimSlice(s);
      assert IsJsonPunct(s[i]) by { assert s[i] == Trim(s)[0]; }
      assert s == s[..i] + ([s[i]] + s[i + 1..]);
      RemoveJsonPunctAppend(s[..i], [s[i]] + s[i + 1..]);
      RemoveJsonPunctAppend([s[i]], s[i + 1..]);
      assert RemoveJsonPunct([s[i]]) == [] by {
        assert [s[i]][1..] == [];
      }
    }
  }

  /** A string without the punctuation never looks like JSON. */
  lemma NoPunctNotJsonLike(s: Str)
    requires NoJsonPunct(s)
    ensures !LooksLikeJson(s)
  {
    var i, j := TrimSlice(s);
    if Trim(s) != [] {
      assert Trim(s)[0] == s[i];
    }
  }

  /** `sanitizeString` is idempotent. */
  lemma SanitizeIdempotent(s: Str)
    ensures SanitizeText(SanitizeText(s)) == SanitizeText(s)
  {
    if LooksLikeJson(s) {
      NoPunctNotJsonLike(RemoveJsonPunct(s));
    }
  }

  /** `value || default`. */
  function OrElse(v: Option<Json>, default: Json): Json
  {
    if Truthy(v) then v.value else default
  }

  /** The `recommendations` of the result: an array as it is, any other truthy
      value as a one-element array of its sanitized form, otherwise empty. */
  function Recommendations(v: Option<Json>): seq<Json>
  {
    if v.Some? && v.value.JArray? then v.value.items
    else if Truthy(v) then [JString(Sanitize(v.value))]
    else []
  }

  /** The object `generateAssessment` returns from `parsedData`. */
  function Polish(parsed: Json): Assessment
  {
    Assessment(
      summary := Sanitize(OrElse(Get(parsed, SummaryKey), JString(DefaultSummary))),
      recommendations := Recommendations(Get(parsed, RecommendationsKey)),
      culturalTips := Sanitize(OrElse(Get(parsed, CulturalTipsKey), JString([]))),
      warningSigns := Sanitize(OrElse(Get(parsed, WarningSignsKey), JString([]))),
      riskLevel := Sanitize(OrElse(Get(parsed, RiskLevelKey), JString(DefaultRiskLevel))),
      structuredData := Get(parsed, StructuredDataKey) != Some(JBool(false)))
  }

  lemma DefaultsUnchanged()
    ensures SanitizeText(DefaultSummary) == DefaultSummary
    ensures SanitizeText(DefaultRiskLevel) == DefaultRiskLevel
    ensures SanitizeText(UnclearMessage) == UnclearMessage
  {
    assert DefaultSummary[0] == U('H') && DefaultSummary[|DefaultSummary| - 1] == U('e');
    TrimOfTrimmed(DefaultSummary);
    assert DefaultRiskLevel[0] == U('M') && DefaultRiskLevel[|DefaultRiskLevel| - 1] == U('k');
    TrimOfTrimmed(DefaultRiskLevel);
    UnclearMessageTrimmed();
  }

  lemma EmptyTextUnchanged()
    ensures SanitizeText([]) == []
  {
    TrimOfTrimmed([]);
  }

  /** The defaults of the result: a falsy `summary` becomes "Health Guidance",
      a falsy `riskLevel` "Medium Risk", falsy tips and signs "". */
  lemma PolishDefaults(parsed: Json)
    ensures !Truthy(Get(parsed, SummaryKey)) ==> Polish(parsed).summary == DefaultSummary
    ensures !Truthy(Get(parsed, RiskLevelKey)) ==> Polish(parsed).riskLevel == DefaultRiskLevel
    ensures !Truthy(Get(parsed, CulturalTipsKey)) ==> Polish(parsed).culturalTips == []
    ensures !Truthy(Get(parsed, WarningSignsKey)) ==> Polish(parsed).warningSigns == []
  {
    DefaultsUnchanged();
    EmptyTextUnchanged();
  }

  /** `recommendations` of the result: an array passes through unchanged; a
      truthy non-array becomes one sanitized string, which the sanitizer then
      leaves alone; anything else gives the empty array. */
  lemma PolishRecommendations(parsed: Json)
    ensures var v := Get(parsed, RecommendationsKey);
            v.Some? && v.value.JArray? ==> Polish(parsed).recommendations == v.value.items
    ensures var v := Get(parsed, RecommendationsKey);
            Truthy(v) && !v.value.JArray? ==>
              Polish(parsed).recommendations == [JString(Sanitize(v.value))]
              && SanitizeText(Polish(parsed).recommendations[0].s) == Polish(parsed).recommendations[0].s
    ensures !Truthy(Get(parsed, RecommendationsKey)) ==> Polish(parsed).recommendations == []
  {
    var v := Get(parsed, RecommendationsKey);
    if Truthy(v) && !v.value.JArray? {
      if v.value.JString? {
        SanitizeIdempotent(v.value.s);
      } else {
        EmptyTextUnchanged();
      }
    }
  }


  /** Every string of the result is already sanitized: sanitizing the result
      again changes nothing. */
  lemma PolishIsSanitized(parsed: Json)
    ensures var r := Polish(parsed);
            SanitizeText(r.summary) == r.summary && SanitizeText(r.culturalTips) == r.culturalTips
            && SanitizeText(r.warningSigns) == r.warningSigns && SanitizeText(r.riskLevel) == r.riskLevel
  {
    var r := Polish(parsed);
    FixedPoint(OrElse(Get(parsed, SummaryKey), JString(DefaultSummary)));
    FixedPoint(OrElse(Get(parsed, CulturalTipsKey), JString([])));
    FixedPoint(OrElse(Get(parsed, WarningSignsKey), JString([])));
    FixedPoint(OrElse(Get(parsed, RiskLevelKey), JString(DefaultRiskLevel)));
  }

  lemma FixedPoint(v: Json)
    ensures SanitizeText(Sanitize(v)) == Sanitize(v)
  {
    if v.JString? {
      SanitizeIdempotent(v.s);
    } else {
      EmptyTextUnchanged();
    }
  }

  /** `summary` of the result can be empty: a number is truthy but not a
      string, so `sanitizeString` turns it into "". */
  lemma SummaryCanBeEmpty()
    ensures Polish(JObject([Member(SummaryKey, JNumber(Lit("5")))])).summary == []
  {
    var lexeme := Lit("5");
    assert lexeme[0] == 0x35;
    assert !IsZeroLexeme(lexeme);
  }

  // ---------------------------------------------------------------------
  // The tiers in order
  // ---------------------------------------------------------------------

  /** `parsedData` once the tiers have run. */
  function RecoveredData(text: Str): Json
  {
    var cleaned := StripFences(text);
    match JsonTier(cleaned)
    case Some(obj) => obj
    case None =>
      match ExtractionTier(text)
      case Some(obj) => obj
      case None => PlainTextObject(PlainSummary(SafeText(cleaned)))
  }

  /** The recovery body of `generateAssessment` as the source runs it: local
      variables reassigned tier by tier, each tier entered only while
      `parsedData` is still null. */
  method Recover(text: Str) returns (result: Assessment, tier: Tier)
    ensures result == Polish(RecoveredData(text))
    ensures tier == Parsed <==> JsonTier(StripFences(text)).Some?
    ensures tier == Extracted <==> JsonTier(StripFences(text)).None? && ExtractionSucceeds(text)
    ensures tier == PlainText <==> JsonTier(StripFences(text)).None? && !ExtractionSucceeds(text)
  {
    var cleanedText := StripFences(text);
    var parsedData := JsonTier(cleanedText);
    assert Truthy(parsedData) == parsedData.Some?;
    tier := Parsed;
    if !Truthy(parsedData) {
      parsedData := Extract(text);
      assert Truthy(parsedData) == parsedData.Some?;
      if parsedData.Some? {
        tier := Extracted;
      }
    }
    if !Truthy(parsedData) {
      var plain := PlainTextTier(cleanedText);
      parsedData := Some(plain);
      tier := PlainText;
    }
    assert parsedData == Some(RecoveredData(text));
    result := Polish(parsedData.value);
  }

  /** What the plain-text tier leaves in the result: no recommendations, no
      tips or signs, "Medium Risk", `structuredData` false, and the sanitized
      plain text (never shorter than the minimum before sanitizing). */
  lemma PlainTextResult(text: Str)
    requires JsonTier(StripFences(text)).None? && !ExtractionSucceeds(text)
    ensures var r := Polish(RecoveredData(text));
            && r.recommendations == [] && r.culturalTips == [] && r.warningSigns == []
            && r.riskLevel == DefaultRiskLevel && !r.structuredData
            && r.summary == SanitizeText(PlainSummary(SafeText(StripFences(text))))
  {
    DefaultsUnchanged();
    EmptyTextUnchanged();
  }

  /** What the extraction tier leaves in the result: the sanitized captures,
      an empty `summary` or `riskLevel` replaced by its default, a captured
      `recommendations` as a one-element array, and `structuredData` true. */
  lemma ExtractedResult(text: Str)
    requires JsonTier(StripFences(text)).None? && ExtractionSucceeds(text)
    ensures var r := Polish(RecoveredData(text));
            var summary := FieldValue(text, SummaryKey);
            var recommendations := FieldValue(text, RecommendationsKey);
            && r.structuredData
            && r.summary == (if summary == [] then DefaultSummary else SanitizeText(summary))
            && r.recommendations == (if recommendations == [] then [] else [JString(SanitizeText(recommendations))])
            && r.culturalTips == SanitizeText(FieldValue(text, CulturalTipsKey))
            && r.warningSigns == SanitizeText(FieldValue(text, WarningSignsKey))
            && r.riskLevel == (var risk := FieldValue(text, RiskLevelKey);
                               if risk == [] then DefaultRiskLevel else SanitizeText(risk))
  {
    DefaultsUnchanged();
    EmptyTextUnchanged();
  }

  /** `structuredData` of the result is false exactly when the plain-text
      tier ran, or when the JSON tier parsed an object that itself says
      `structuredData: false`; the extraction tier always leaves it true. */
  lemma StructuredDataFlag(text: Str)
    ensures var c := StripFences(text);
            !Polish(RecoveredData(text)).structuredData <==>
              (JsonTier(c).None? && !ExtractionSucceeds(text))
              || (JsonTier(c).Some? && Get(JsonTier(c).value, StructuredDataKey) == Some(JBool(false)))
  {
    var c := StripFences(text);
    if JsonTier(c).None? {
      if ExtractionSucceeds(text) {
        ExtractedResult(text);
      } else {
        PlainTextResult(text);
      }
    }
  }

  // ---------------------------------------------------------------------
  // generateAssessment
  // ---------------------------------------------------------------------

  /** What the provider call gave: the reply's text, or a rejection (the
      network call or `response.text()` threw). */
  datatype ProviderReply = Replied(text: Str) | Rejected

  /** What `generateAssessment` resolves to: a recovered result, or one of
      the fixed error objects (`timedOut` false stands for the field being
      absent). */
  datatype Response =
    | Guidance(assessment: Assessment)
    | Sentinel(summary: Str, riskLevel: Str, error: bool, timedOut: bool)

  const ServiceUnavailable: Response :=
    Sentinel(Lit("Service temporarily unavailable. Please try again."), Lit("Unknown"), true, false)

  /** The controller's timeout value, resolved when the 15000 ms deadline wins
      the race; the race itself is not part of this model. */
  const TimedOut: Response :=
    Sentinel(Lit("Service timed out. Please try again."), Lit("Unknown"), true, true)

  /** `generateAssessment` once the prompt was sent: a rejection gives the
      fixed sentinel, any reply text a recovered result. */
  method GenerateAssessment(reply: ProviderReply) returns (response: Response)
    ensures reply.Rejected? ==> response == ServiceUnavailable
    ensures reply.Replied? ==> response == Guidance(Polish(RecoveredData(reply.text)))
  {
    match reply
    case Rejected =>
      response := ServiceUnavailable;
    case Replied(text) =>
      var result, _ := Recover(text);
      response := Guidance(result);
  }
}
