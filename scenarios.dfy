/** Whole replies run through the recovery pipeline: which tier ends up
    producing the result, and what the caller receives. */
module Scenarios {
  import opened JsText
  import opened Wrappers
  import opened Json
  import opened Patterns
  import opened Recovery

  // ---------------------------------------------------------------------
  // An empty reply
  // ---------------------------------------------------------------------

  lemma {:induction false} NoLabelsInEmpty(keys: seq<Str>)
    ensures RemoveKeyLabels([], keys) == []
    decreases |keys|
  {
    if keys != [] {
      NoLabelsInEmpty(keys[..|keys| - 1]);
    }
  }

  lemma NothingFoundInEmpty(field: Str)
    requires field != []
    ensures FieldValue([], field) == []
  {
    var ps := FieldPatterns(field);
    forall k | 0 <= k < |ps| ensures !Found([], ps[k]) {
      assert CaptureAt([], 0, ps[k]).None?;
    }
    FirstFoundIsFirst([], ps);
  }

  /** An empty reply falls through to the plain-text tier, whose text is too
      short, so the caller gets the "format was unclear" message. */
  lemma EmptyReply()
    ensures Polish(RecoveredData([])) == Assessment(UnclearMessage, [], [], [], DefaultRiskLevel, false)
  {
    TrimOfTrimmed([]);
    assert StripFences([]) == [];
    NothingFoundInEmpty(SummaryKey);
    NothingFoundInEmpty(RecommendationsKey);
    NoLabelsInEmpty(KeysToRemove);
    assert SafeText([]) == [];
    PlainTextResult([]);
    DefaultsUnchanged();
  }

  // ---------------------------------------------------------------------
  // The reply "{}"
  // ---------------------------------------------------------------------

  /** Without a backtick the two fence replacements change nothing. */
  lemma NoBacktickNoFence(s: Str)
    requires Backtick !in s
    ensures ReplaceAll(ReplaceAll(s, JsonFence, []), Fence, []) == s
  {
    forall k | 0 <= k < |s| ensures MatchAt(JsonFence, s, k).None? && MatchAt(Fence, s, k).None? {
      assert s[k] in s;
      assert Fold(s[k]) != Fold(Lit("```json")[0]);
      assert k + 7 <= |s| ==> s[k..k + 7][0] == s[k];
      assert k + 3 <= |s| ==> s[k..k + 3][0] == s[k];
    }
    NoMatchUnchanged(JsonFence, s, 0, []);
    NoMatchUnchanged(Fence, s, 0, []);
  }

  /** "{}" is valid JSON, so the first tier takes it: every field gets its
      default and `structuredData` stays true. */
  lemma EmptyObjectReply()
    ensures Polish(RecoveredData(Lit("{}"))) == Assessment(DefaultSummary, [], [], [], DefaultRiskLevel, true)
  {
    var s := Lit("{}");
    assert s == [OpenBrace, CloseBrace];
    NoBacktickNoFence(s);
    TrimOfTrimmed(s);
    assert StripFences(s) == s;
    assert FirstIndexOf(s, OpenBrace, 0) == 0;
    assert LastIndexOf(s, CloseBrace, 2) == Some(1);
    assert BraceSpan(s) == Some(s);
    assert ObjectBody(s, 1) == Some((JObject([]), 2));
    assert Parse(s) == Some(JObject([]));
    PolishDefaults(JObject([]));
  }

  // ---------------------------------------------------------------------
  // A fenced JSON reply
  // ---------------------------------------------------------------------

  /** The first pass deletes the opening "```json" and nothing after it:
      the rest has backticks only in its last three units. */
  lemma OpeningFenceRemoved(inner: Str)
    requires |inner| >= 3 && forall k :: 0 <= k < |inner| - 3 ==> inner[k] != Backtick
    ensures ReplaceAll(Lit("```json") + inner, JsonFence, []) == inner
  {
    var fence := Lit("```json");
    var reply := fence + inner;
    assert reply[..7] == fence;
    assert SameIgnoringCase(reply[0..7], fence);
    assert MatchAt(JsonFence, reply, 0) == Some(7);
    forall k | 7 <= k < |reply| ensures MatchAt(JsonFence, reply, k).None? {
      if k < |reply| - 3 {
        assert reply[k] == inner[k - 7];
        FenceNeedsBacktick(reply, k);
      }
    }
    CopyPrefix(JsonFence, reply, 7, |reply|, []);
    assert reply[7..] == inner;
  }

  /** The second pass deletes the closing "```" of a body without backticks. */
  lemma ClosingFenceRemoved(body: Str)
    requires Backtick !in body
    ensures ReplaceAll(body + Lit("```"), Fence, []) == body
  {
    var s := body + Lit("```");
    forall k | 0 <= k < |body| ensures MatchAt(Fence, s, k).None? {
      assert s[k] == body[k] && body[k] in body;
      FenceNeedsBacktick(s, k);
    }
    CopyPrefix(Fence, s, 0, |body|, []);
    assert s[|body|..|body| + 3] == Lit("```");
    assert MatchAt(Fence, s, |body|) == Some(|s|);
    assert s[0..|body|] == body;
  }

  /** An object's text is its own brace span. */
  lemma ObjectTextIsSpan(j: Str)
    requires |j| >= 2 && j[0] == OpenBrace && j[|j| - 1] == CloseBrace
    ensures JsonTier(j) == Parse(j)
  {
    assert IsBraceSpan(j, 0, |j|);
    assert j[0..|j|] == j;
  }

  /** A reply fenced as "```json", a line break, JSON text, a line break and
      "```" is parsed as the JSON text inside the fence. */
  lemma FencedJson(j: Str)
    requires Backtick !in j && |j| >= 2 && j[0] == OpenBrace && j[|j| - 1] == CloseBrace
    ensures JsonTier(StripFences(Lit("```json") + [LineFeed] + j + [LineFeed] + Lit("```"))) == Parse(j)
  {
    var body := [LineFeed] + j + [LineFeed];
    var inner := body + Lit("```");
    assert Lit("```json") + [LineFeed] + j + [LineFeed] + Lit("```") == Lit("```json") + inner;
    assert Backtick !in body by {
      assert forall k :: 0 <= k < |body| ==> body[k] == LineFeed || body[k] == j[k - 1];
    }
    assert forall k :: 0 <= k < |inner| - 3 ==> inner[k] == body[k];
    OpeningFenceRemoved(inner);
    ClosingFenceRemoved(body);
    TrimOfPadded(body, 1, |body| - 1);
    assert body[1..|body| - 1] == j;
    ObjectTextIsSpan(j);
  }

  // ---------------------------------------------------------------------
  // The reply {"structuredData":false}
  // ---------------------------------------------------------------------

  /** `{"structuredData":false}`. */
  const FlagFalse: Str := [OpenBrace, Quote] + StructuredDataKey + [Quote, Colon] + Lit("false") + [CloseBrace]

  lemma FlagFalseUnits()
    ensures |FlagFalse| == 24
    ensures FlagFalse[0] == OpenBrace && FlagFalse[1] == Quote
    ensures forall k :: 2 <= k < 16 ==> FlagFalse[k] == StructuredDataKey[k - 2]
    ensures FlagFalse[16] == Quote && FlagFalse[17] == Colon && FlagFalse[23] == CloseBrace
    ensures FlagFalse[18..23] == Lit("false") && FlagFalse[18] == U('f')
    ensures Backtick !in FlagFalse
    ensures forall k :: 0 <= k < 23 ==> FlagFalse[k] != CloseBrace
  {
    var s := FlagFalse;
    var key, f := StructuredDataKey, Lit("false");
    assert |key| == 14 && |f| == 5;
    assert s[2..16] == key;
    assert s[18..23] == f;
    KeyHasNoBrace();
    assert forall k :: 2 <= k < 16 ==> s[k] == key[k - 2];
    assert forall k :: 18 <= k < 23 ==> s[k] == f[k - 18];
  }

  /** The key `structuredData` has no backtick and no `}`. */
  lemma KeyHasNoBrace()
    ensures forall k :: 0 <= k < |StructuredDataKey| ==> StructuredDataKey[k] != Backtick && StructuredDataKey[k] != CloseBrace
  {
  }

  /** The fence step keeps the reply, and its brace span is all of it. */
  lemma FlagFalseSpan()
    ensures StripFences(FlagFalse) == FlagFalse
    ensures BraceSpan(FlagFalse) == Some(FlagFalse)
  {
    var s := FlagFalse;
    FlagFalseUnits();
    NoBacktickNoFence(s);
    TrimOfTrimmed(s);
    assert FirstIndexOf(s, OpenBrace, 0) == 0;
    assert LastIndexOf(s, CloseBrace, 24) == Some(23);
  }

  lemma FlagFalseKey()
    ensures StringAt(FlagFalse, 1) == Some((StructuredDataKey, 17))
  {
    var s := FlagFalse;
    FlagFalseUnits();
    PlainKey();
    assert s[2..16] == StructuredDataKey;
    StringAtPlain(s, 1, 16);
  }

  lemma PlainKey()
    ensures forall k :: 0 <= k < |StructuredDataKey| ==>
              StructuredDataKey[k] != Quote && StructuredDataKey[k] != Backslash && StructuredDataKey[k] >= 0x20
  {
  }

  lemma FlagFalseValue()
    ensures ValueAt(FlagFalse, 18) == Some((JBool(false), 23))
  {
    var s := FlagFalse;
    FlagFalseUnits();
    assert OccursAt(s, 18, Lit("false"));
    assert s[18..22][0] == s[18];
    assert !OccursAt(s, 18, Lit("true"));
  }

  /** The reply is valid JSON: an object with the one member
      `structuredData: false`. */
  lemma FlagFalseParses()
    ensures StripFences(FlagFalse) == FlagFalse
    ensures JsonTier(FlagFalse) == Some(JObject([Member(StructuredDataKey, JBool(false))]))
  {
    var s := FlagFalse;
    FlagFalseUnits();
    FlagFalseSpan();
    FlagFalseKey();
    FlagFalseValue();
    assert Lit("false")[0] == U('f');
    OneMemberObject(s, 1, StructuredDataKey, 17, JBool(false), 23);
    assert SkipJsonWhite(s, 0) == 0;
    assert ValueAt(s, 0) == ObjectBody(s, 1);
    assert SkipJsonWhite(s, 24) == 24;
  }

  /** A reply that says `structuredData: false` is taken by the JSON tier and
      still comes back with `structuredData` false, every other field at its
      default. */
  lemma FlagFalseReply()
    ensures Polish(RecoveredData(FlagFalse)) == Assessment(DefaultSummary, [], [], [], DefaultRiskLevel, false)
  {
    FlagFalseParses();
    var obj := JObject([Member(StructuredDataKey, JBool(false))]);
    LastBindingAt(obj.members, 0, StructuredDataKey);
    KeysDistinct();
    LastBindingAbsent(obj.members, SummaryKey);
    LastBindingAbsent(obj.members, RecommendationsKey);
    LastBindingAbsent(obj.members, CulturalTipsKey);
    LastBindingAbsent(obj.members, WarningSignsKey);
    LastBindingAbsent(obj.members, RiskLevelKey);
    PolishDefaults(obj);
  }

  // ---------------------------------------------------------------------
  // Plain prose
  // ---------------------------------------------------------------------

  /** A text without colons matches none of the field patterns. */
  lemma NoColonNothingFound(text: Str, field: Str)
    requires Colon !in text
    ensures FieldValue(text, field) == []
  {
    var ps := FieldPatterns(field);
    forall k | 0 <= k < |ps| ensures !Found(text, ps[k]) {
      MatchNeedsColon(text, ps[k]);
    }
    FirstFoundIsFirst(text, ps);
  }

  /** Every field pattern has a colon between its key and its value. */
  lemma MatchNeedsColon(text: Str, p: EntryPattern)
    ensures Match(text, p).Some? ==> Colon in text
  {
    if Match(text, p).Some? {
      FirstCaptureIsFirst(text, p, 0);
      var i :| 0 <= i <= |text| && CaptureAt(text, i, p) == Match(text, p);
      CaptureIsMatch(text, i, p, Match(text, p).value);
      var b: nat, d: nat, e: nat :| EntryAt(text, i, p, b, d, e);
      assert text[b] in text;
    }
  }

  lemma {:induction false} NoColonNoLabels(s: Str, keys: seq<Str>)
    requires Colon !in s
    ensures RemoveKeyLabels(s, keys) == s
    decreases |keys|
  {
    if keys != [] {
      NoColonNoLabels(s, keys[..|keys| - 1]);
      var lastLabel := KeyLabel(keys[|keys| - 1]);
      forall k | 0 <= k < |s| ensures MatchAt(lastLabel, s, k).None? {
        KeyLabelNeedsColon(s, k, lastLabel.key);
      }
      NoMatchUnchanged(lastLabel, s, 0, []);
    }
  }

  lemma NoQuoteUnchanged(p: Pattern, s: Str, replacement: Str)
    requires Quote !in s && Apostrophe !in s
    requires (p.QuoteCommaAtEol? && IsQuote(p.quote)) || p.QuoteAtEol? || p.QuoteAtLineStart?
    ensures ReplaceAll(s, p, replacement) == s
  {
    forall k | 0 <= k < |s| ensures MatchAt(p, s, k).None? {
      QuotePatternNeedsQuote(p, s, k);
    }
    NoMatchUnchanged(p, s, 0, replacement);
  }

  lemma NoQuoteCleanLineEnds(s: Str)
    requires Quote !in s && Apostrophe !in s
    ensures CleanLineEnds(s) == s
  {
    NoQuoteUnchanged(QuoteCommaAtEol(Quote), s, [LineFeed]);
    NoQuoteUnchanged(QuoteCommaAtEol(Apostrophe), s, [LineFeed]);
    NoQuoteUnchanged(QuoteAtEol, s, []);
    NoQuoteUnchanged(QuoteAtLineStart, s, []);
  }

  /** Trimming keeps only units of the text. */
  lemma TrimKeepsUnits(text: Str)
    ensures forall u :: u in Trim(text) ==> u in text
  {
    var lo, hi := TrimSlice(text);
  }

  /** Prose without braces, colons or backticks fails the first two tiers. */
  lemma ProseFailsFirstTiers(text: Str)
    requires OpenBrace !in text && Colon !in text && Backtick !in text
    ensures StripFences(text) == Trim(text)
    ensures JsonTier(StripFences(text)).None? && !ExtractionSucceeds(text)
  {
    NoBacktickNoFence(text);
    TrimKeepsUnits(text);
    var c := Trim(text);
    assert BraceSpan(c).None? by {
      assert FirstIndexOf(c, OpenBrace, 0) == |c|;
    }
    NoColonNothingFound(text, SummaryKey);
    NoColonNothingFound(text, RecommendationsKey);
  }

  /** Steps A to C leave prose without JSON punctuation, apostrophes and colons alone. */
  lemma ProseSafeText(c: Str)
    requires NoJsonPunct(c) && Apostrophe !in c && Colon !in c
    ensures SafeText(c) == c
  {
    assert OpenBrace !in c && CloseBrace !in c && Quote !in c;
    assert StripLeadingBrace(c) == c;
    assert StripTrailingBrace(c) == c;
    NoColonNoLabels(c, KeysToRemove);
    NoQuoteCleanLineEnds(c);
  }

  lemma ProseUnitsSurviveTrim(text: Str)
    requires NoJsonPunct(text) && Apostrophe !in text && Colon !in text
    ensures NoJsonPunct(Trim(text)) && Apostrophe !in Trim(text) && Colon !in Trim(text)
  {
    TrimKeepsUnits(text);
  }

  /** Plain prose, long enough and free of braces, brackets, quotes, colons
      and backticks, reaches the plain-text tier and comes back as the
      summary, trimmed and otherwise unchanged. */
  lemma PlainProseIsKept(text: Str)
    requires NoJsonPunct(text) && Apostrophe !in text && Colon !in text && Backtick !in text
    requires |Trim(text)| >= PlainTextMinimum
    ensures Polish(RecoveredData(text)) == Assessment(Trim(text), [], [], [], DefaultRiskLevel, false)
  {
    var c := Trim(text);
    assert c != [] && !IsWhite(c[0]) && !IsWhite(c[|c| - 1]);
    TrimOfTrimmed(c);
    assert OpenBrace !in text;
    ProseFailsFirstTiers(text);
    ProseUnitsSurviveTrim(text);
    ProseSafeText(c);
    assert PlainSummary(SafeText(c)) == c;
    PlainTextResult(text);
    NoPunctNotJsonLike(c);
  }

  // ---------------------------------------------------------------------
  // A quoted entry outside any JSON object
  // ---------------------------------------------------------------------

  const TakeRest: Str := Lit("Take rest")

  /** `"summary": "Take rest"`. */
  const QuotedSummary: Str := [Quote] + SummaryKey + [Quote, Colon, Space, Quote] + TakeRest + [Quote]

  lemma QuotedSummaryUnits()
    ensures |QuotedSummary| == 22
    ensures QuotedSummary[1..8] == SummaryKey && QuotedSummary[12..21] == TakeRest
    ensures Backtick !in QuotedSummary && OpenBrace !in QuotedSummary
    ensures NoJsonPunct(TakeRest) && Quote !in TakeRest
  {
    assert forall k :: 0 <= k < |SummaryKey| ==> SummaryKey[k] != Backtick && SummaryKey[k] != OpenBrace;
    assert forall k :: 0 <= k < |TakeRest| ==> TakeRest[k] != Backtick && !IsJsonPunct(TakeRest[k]);
    var s := QuotedSummary;
    assert s == [Quote] + SummaryKey + [Quote, Colon, Space, Quote] + TakeRest + [Quote];
    assert s[1..8] == SummaryKey;
    assert s[12..21] == TakeRest;
  }

  /** The text is not JSON (it has no brace), but the first extraction
      pattern finds the summary, longer than the threshold: the summary is
      kept and `structuredData` is true. */
  lemma QuotedSummaryIsExtracted()
    ensures var r := Polish(RecoveredData(QuotedSummary));
            r.summary == TakeRest && r.structuredData
  {
    QuotedSummaryTiers();
    ExtractedResult(QuotedSummary);
    QuotedSummaryUnits();
    NoPunctNotJsonLike(TakeRest);
  }

  lemma QuotedSummaryTiers()
    ensures JsonTier(StripFences(QuotedSummary)).None?
    ensures FieldValue(QuotedSummary, SummaryKey) == TakeRest
  {
    var s := QuotedSummary;
    QuotedSummaryUnits();
    NoBacktickNoFence(s);
    TrimOfTrimmed(s);
    assert StripFences(s) == s;
    assert BraceSpan(s).None? by {
      assert FirstIndexOf(s, OpenBrace, 0) == |s|;
    }
    QuotedSummaryMatch();
  }

  lemma QuotedSummaryMatch()
    ensures FieldValue(QuotedSummary, SummaryKey) == TakeRest
  {
    var s := QuotedSummary;
    QuotedSummaryUnits();
    var p := FieldPatterns(SummaryKey)[0];
    assert LabelAt(s, 0, p);
    assert NoneEqual(s, 12, 21, Quote) by {
      forall k | 12 <= k < 21 ensures s[k] != Quote {
        assert s[k] == TakeRest[k - 12];
      }
    }
    assert EntryAt(s, 0, p, 9, 11, 21);
    MatchIsCapture(s, 0, p, 9, 11, 21);
    assert Match(s, p) == Some(TakeRest);
  }

  // ---------------------------------------------------------------------
  // Field extraction that finds nothing
  // ---------------------------------------------------------------------

  /** A case-insensitive occurrence starts with the key's first unit. */
  lemma OccursStartsWith(s: Str, a: nat, key: Str)
    requires key != []
    ensures OccursAtIgnoringCase(s, a, key) ==> a < |s| && Fold(s[a]) == Fold(key[0])
  {
    if OccursAtIgnoringCase(s, a, key) {
      assert s[a..a + |key|][0] == s[a];
    }
  }

  /** When no field pattern captures anywhere, `extractField` returns "". */
  lemma NoCaptureNothingFound(text: Str, field: Str)
    requires forall k, i :: 0 <= k < 5 && 0 <= i <= |text| ==> CaptureAt(text, i, FieldPatterns(field)[k]).None?
    ensures FieldValue(text, field) == []
  {
    var ps := FieldPatterns(field);
    forall k | 0 <= k < |ps| ensures !Found(text, ps[k]) {
      NoCaptureFound(text, ps[k], 0);
    }
    FirstFoundIsFirst(text, ps);
  }

  /** A text that never spells the key finds nothing for it. */
  lemma NoKeyNothingFound(text: Str, field: Str)
    requires forall a :: 0 <= a <= |text| ==> !OccursAtIgnoringCase(text, a, field)
    ensures FieldValue(text, field) == []
  {
    forall k, i | 0 <= k < 5 && 0 <= i <= |text|
      ensures CaptureAt(text, i, FieldPatterns(field)[k]).None?
    {
      assert !LabelAt(text, i, FieldPatterns(field)[k]);
    }
    NoCaptureNothingFound(text, field);
  }

  // ---------------------------------------------------------------------
  // A reply cut off inside its first value: { "summary": "Good
  // ---------------------------------------------------------------------

  const Good: Str := Lit("Good")

  /** `"Good`: a string that never closes. */
  const OpenGood: Str := [Quote] + Good

  /** `"summary": `, the label the key-label pattern removes. */
  const SummaryLabel: Str := [Quote] + SummaryKey + [Quote, Colon, Space]

  /** ` "summary": "Good`, what follows the opening brace. */
  const CutOffTail: Str := [Space] + SummaryLabel + OpenGood

  /** `{ "summary": "Good`: a reply cut off inside its first value. */
  const CutOff: Str := [OpenBrace] + CutOffTail

  lemma CutOffUnits()
    ensures CutOff == [OpenBrace, Space, Quote, U('s'), U('u'), U('m'), U('m'), U('a'), U('r'), U('y'),
                       Quote, Colon, Space, Quote, U('G'), U('o'), U('o'), U('d')]
    ensures SummaryKey == CutOff[3..10]
  {
    SummaryLabelUnits();
    GoodUnits();
  }

  lemma SummaryLabelUnits()
    ensures SummaryLabel == [Quote, U('s'), U('u'), U('m'), U('m'), U('a'), U('r'), U('y'), Quote, Colon, Space]
  {
    assert SummaryKey == [U('s'), U('u'), U('m'), U('m'), U('a'), U('r'), U('y')];
  }

  /** No fence, so only the trim applies, and that keeps the reply as it is. */
  lemma CutOffNoFence()
    ensures StripFences(CutOff) == CutOff
  {
    CutOffUnits();
    NoBacktickNoFence(CutOff);
    TrimOfPadded(CutOff, 0, |CutOff|);
  }

  /** There is no `}`, so tier 1 gives nothing. */
  lemma CutOffNoObject()
    ensures JsonTier(CutOff).None?
  {
    CutOffUnits();
    assert LastIndexOf(CutOff, CloseBrace, |CutOff|).None?;
  }

  /** No unit folds to `r`, so no recommendations pattern applies. */
  lemma CutOffNoRecommendations()
    ensures FieldValue(CutOff, RecommendationsKey) == []
  {
    var s := CutOff;
    CutOffUnits();
    forall a | 0 <= a <= |s| ensures !OccursAtIgnoringCase(s, a, RecommendationsKey) {
      OccursStartsWith(s, a, RecommendationsKey);
    }
    NoKeyNothingFound(s, RecommendationsKey);
  }

  /** The units of the reply around its one colon; `s` (folded) occurs only at 3. */
  lemma CutOffLayout()
    ensures |CutOff| == 18 && CutOff[2] == Quote && CutOff[3..10] == SummaryKey && CutOff[10] == Quote
    ensures CutOff[11] == Colon && CutOff[12] == Space && CutOff[13] == Quote && CutOff[14..] == Good
    ensures forall a :: 0 <= a < |CutOff| && a != 3 ==> Fold(CutOff[a]) != Fold(SummaryKey[0])
  {
    CutOffUnits();
  }

  /** Only the two double-quoted-key patterns at 2 and the bare-key pattern
      at 3 find the label `summary`. */
  lemma CutOffSummaryLabels(k: nat, i: nat)
    requires k < 5 && i <= |CutOff|
    requires LabelAt(CutOff, i, FieldPatterns(SummaryKey)[k])
    ensures (i == 2 && k < 2) || (i == 3 && k == 4)
  {
    var p := FieldPatterns(SummaryKey)[k];
    CutOffLayout();
    var a := if p.keyQuote.None? then i else i + 1;
    OccursStartsWith(CutOff, a, SummaryKey);
  }

  /** After `"summary": ` comes `"Good`, a double-quoted value that never
      closes, and no apostrophe-quoted one. */
  lemma CutOffQuotedKeyCapture(k: nat)
    requires k < 2
    ensures CaptureAt(CutOff, 2, FieldPatterns(SummaryKey)[k]).None?
  {
    var s := CutOff;
    CutOffLayout();
    GoodUnits();
    SkipWhiteExact(s, 11, 11);
    SkipWhiteExact(s, 12, 13);
    if k == 0 {
      assert forall a :: 14 <= a < |s| ==> s[a] == Good[a - 14];
      assert FirstIndexOf(s, Quote, 14) == |s|;
    }
  }

  /** After the bare `summary` comes a quote, not a colon. */
  lemma CutOffBareKeyCapture()
    ensures CaptureAt(CutOff, 3, FieldPatterns(SummaryKey)[4]).None?
  {
    CutOffLayout();
    SkipWhiteExact(CutOff, 10, 10);
  }

  /** The summary patterns find the key, but the value never closes. */
  lemma CutOffNoSummary()
    ensures FieldValue(CutOff, SummaryKey) == []
  {
    forall k, i | 0 <= k < 5 && 0 <= i <= |CutOff|
      ensures CaptureAt(CutOff, i, FieldPatterns(SummaryKey)[k]).None?
    {
      if LabelAt(CutOff, i, FieldPatterns(SummaryKey)[k]) {
        CutOffSummaryLabels(k, i);
        if k < 2 {
          CutOffQuotedKeyCapture(k);
        } else {
          CutOffBareKeyCapture();
        }
      }
    }
    NoCaptureNothingFound(CutOff, SummaryKey);
  }

  /** The reply fails the first two tiers. */
  lemma CutOffFirstTiers()
    ensures StripFences(CutOff) == CutOff
    ensures JsonTier(StripFences(CutOff)).None? && !ExtractionSucceeds(CutOff)
  {
    CutOffNoFence();
    CutOffNoObject();
    CutOffNoSummary();
    CutOffNoRecommendations();
  }

  /** A text that starts with `{` loses exactly that unit in step A. */
  lemma LeadingBraceGoes(s: Str)
    requires s != [] && s[0] == OpenBrace
    ensures StripLeadingBrace(s) == s[1..]
  {
    assert SkipWhite(s, 0) == 0;
  }

  /** A text whose last unit is neither white nor `}` keeps its end in step A. */
  lemma NoTrailingBrace(s: Str)
    requires s != [] && !IsWhite(s[|s| - 1]) && s[|s| - 1] != CloseBrace
    ensures StripTrailingBrace(s) == s
  {
    assert TrailingWhite(s) == 0;
  }

  /** A key label that matches once, with no colon after it, is all that
      step B removes for that key. */
  lemma OneLabelRemoved(t: Str, key: Str, m: nat, e: nat)
    requires m < |t| && e <= |t| && MatchAt(KeyLabel(key), t, m) == Some(e)
    requires forall k :: 0 <= k < m ==> MatchAt(KeyLabel(key), t, k).None?
    requires Colon !in t[e..]
    ensures ReplaceAll(t, KeyLabel(key), []) == t[..m] + t[e..]
  {
    var kl := KeyLabel(key);
    ReplaceNext(kl, t, 0, m, e, []);
    forall k | e <= k < |t| ensures MatchAt(kl, t, k).None? {
      forall k' | k <= k' < |t| ensures t[k'] != Colon {
        assert t[k'] == t[e..][k' - e];
      }
      KeyLabelNeedsColon(t, k, key);
    }
    NoMatchUnchanged(kl, t, e, []);
    assert t[0..m] == t[..m];
  }

  /** Step A: the leading `{` goes; there is no trailing `}`. */
  lemma CutOffBraces()
    ensures StripTrailingBrace(StripLeadingBrace(CutOff)) == CutOffTail
  {
    LeadingBraceGoes(CutOff);
    var t := CutOffTail;
    assert CutOff[1..] == t;
    GoodUnits();
    assert t[|t| - 1] == Good[3];
    NoTrailingBrace(t);
  }

  lemma TailUnits()
    ensures |CutOffTail| == 17 && CutOffTail[2..9] == SummaryKey
    ensures CutOffTail[0] == Space && CutOffTail[1] == Quote && CutOffTail[9] == Quote
    ensures CutOffTail[10] == Colon && CutOffTail[11] == Space && CutOffTail[12] == Quote
  {
    var t := CutOffTail;
    assert t == [Space, Quote] + SummaryKey + [Quote, Colon, Space] + OpenGood;
    assert t[2..9] == SummaryKey;
  }

  /** In ` "summary": "Good`, the label pattern matches from 1 to 12 and nowhere before. */
  lemma CutOffLabelAt()
    ensures MatchAt(KeyLabel(SummaryKey), CutOffTail, 0).None?
    ensures MatchAt(KeyLabel(SummaryKey), CutOffTail, 1) == Some(12)
  {
    var t := CutOffTail;
    TailUnits();
    OccursStartsWith(t, 0, SummaryKey);
    assert t[2..9] == SummaryKey;
    assert IsColonRun(t, 10, 12) by {
      assert AllWhite(t, 10, 10) && t[10] == Colon && AllWhite(t, 11, 12) && t[12] == Quote;
    }
    KeyLabelMatch(t, 1, SummaryKey, 12);
    KeyLabelMatch(t, 0, SummaryKey, 0);
  }

  /** Replacing the one label leaves ` "Good`. */
  lemma CutOffLabelRemoved()
    ensures ReplaceAll(CutOffTail, KeyLabel(SummaryKey), []) == [Space] + OpenGood
  {
    var t := CutOffTail;
    CutOffLabelAt();
    GoodUnits();
    assert |SummaryLabel| == 11;
    assert t[..1] == [Space];
    assert t[12..] == OpenGood;
    OneLabelRemoved(t, SummaryKey, 1, 12);
  }

  /** Step B: only the `summary` label is there to remove. */
  lemma CutOffLabels()
    ensures RemoveKeyLabels(StripTrailingBrace(StripLeadingBrace(CutOff)), KeysToRemove) == [Space] + OpenGood
  {
    CutOffBraces();
    CutOffLabelRemoved();
    GoodUnits();
    var r := [Space] + OpenGood;
    assert KeysToRemove == [SummaryKey] + KeysToRemove[1..];
    RemoveFirstKeyLabel(CutOffTail, SummaryKey, KeysToRemove[1..]);
    assert Colon !in r by {
      assert r == [Space, Quote] + Good;
    }
    NoColonNoLabels(r, KeysToRemove[1..]);
  }

  /** Step C: neither line-end pattern nor `^"` fires on ` "Good`. */
  lemma CutOffLineEnds()
    ensures CleanLineEnds([Space] + OpenGood) == [Space] + OpenGood
  {
    var r := [Space] + OpenGood;
    assert r == [Space, Quote, U('G'), U('o'), U('o'), U('d')];
    assert EolEnd(r, 2).None? by {
      assert SkipWhite(r, 2) == 2;
    }
    forall k | 0 <= k < |r|
      ensures MatchAt(QuoteCommaAtEol(Quote), r, k).None? && MatchAt(QuoteCommaAtEol(Apostrophe), r, k).None?
      ensures MatchAt(QuoteAtEol, r, k).None? && MatchAt(QuoteAtLineStart, r, k).None?
    {
    }
    NoMatchUnchanged(QuoteCommaAtEol(Quote), r, 0, [LineFeed]);
    NoMatchUnchanged(QuoteCommaAtEol(Apostrophe), r, 0, [LineFeed]);
    NoMatchUnchanged(QuoteAtEol, r, 0, []);
    NoMatchUnchanged(QuoteAtLineStart, r, 0, []);
  }

  lemma GoodUnits()
    ensures Good == [U('G'), U('o'), U('o'), U('d')] && OpenGood == [Quote, U('G'), U('o'), U('o'), U('d')]
    ensures NoJsonPunct(Good) && Colon !in Good && !IsWhite(Good[3])
  {
  }

  /** ` "Good` trims to `"Good`: five units, enough to be kept. */
  lemma CutOffTrimmed()
    ensures PlainSummary([Space] + OpenGood) == OpenGood
  {
    var r := [Space] + OpenGood;
    GoodUnits();
    assert r[|r| - 1] == Good[3];
    TrimOfPadded(r, 1, |r|);
    assert r[1..] == OpenGood;
  }

  /** `"Good` starts with a quote, so the sanitizer deletes that. */
  lemma GoodSanitized()
    ensures SanitizeText(OpenGood) == Good
  {
    var q := OpenGood;
    GoodUnits();
    assert q[|q| - 1] == Good[3];
    TrimOfPadded(q, 0, |q|);
    assert LooksLikeJson(q);
    RemoveJsonPunctAppend([Quote], Good);
    RemoveJsonPunctUnit(Quote);
  }

  /** `{ "summary": "Good` fails tier 1 (no `}`) and tier 2 (the value never
      closes). Tier 3 deletes the `{` and the label, which leaves ` "Good`;
      trimmed that is `"Good`, five units, so it is kept, and the sanitizer
      deletes its quote. */
  lemma CutOffReply()
    ensures Polish(RecoveredData(CutOff)) == Assessment(Good, [], [], [], DefaultRiskLevel, false)
  {
    CutOffFirstTiers();
    CutOffLabels();
    CutOffLineEnds();
    CutOffTrimmed();
    GoodSanitized();
    assert SafeText(CutOff) == [Space] + OpenGood;
    PlainTextResult(CutOff);
  }

  // ---------------------------------------------------------------------
  // Stray quotes and commas at line ends
  // ---------------------------------------------------------------------

  const Eat: Str := Lit("Eat")
  const Nap: Str := Lit("Nap")
  const Go: Str := Lit("Go")

  /** `Eat",` LF `"Nap',` LF `Go"`: lines left over from a broken list. */
  const Stray: Str := Eat + [Quote, Comma, LineFeed, Quote] + Nap + [Apostrophe, Comma, LineFeed] + Go + [Quote]

  /** After `",\s*$` becomes a line feed. */
  const StrayC1: Str := Eat + [LineFeed, LineFeed, Quote] + Nap + [Apostrophe, Comma, LineFeed] + Go + [Quote]

  /** After `',\s*$` becomes a line feed. */
  const StrayC2: Str := Eat + [LineFeed, LineFeed, Quote] + Nap + [LineFeed, LineFeed] + Go + [Quote]

  /** After `"\s*$` is deleted. */
  const StrayC3: Str := Eat + [LineFeed, LineFeed, Quote] + Nap + [LineFeed, LineFeed] + Go

  /** After `^"` is deleted: `Eat` LF LF `Nap` LF LF `Go`. */
  const Unstrayed: Str := Eat + [LineFeed, LineFeed] + Nap + [LineFeed, LineFeed] + Go

  lemma WordUnits()
    ensures Eat == [U('E'), U('a'), U('t')] && Nap == [U('N'), U('a'), U('p')] && Go == [U('G'), U('o')]
  {
  }

  lemma StrayUnits()
    ensures Stray == [U('E'), U('a'), U('t'), Quote, Comma, LineFeed, Quote, U('N'), U('a'), U('p'),
                      Apostrophe, Comma, LineFeed, U('G'), U('o'), Quote]
  {
    WordUnits();
  }

  lemma StrayC1Units()
    ensures StrayC1 == [U('E'), U('a'), U('t'), LineFeed, LineFeed, Quote, U('N'), U('a'), U('p'),
                        Apostrophe, Comma, LineFeed, U('G'), U('o'), Quote]
  {
    WordUnits();
  }

  lemma StrayC2Units()
    ensures StrayC2 == [U('E'), U('a'), U('t'), LineFeed, LineFeed, Quote, U('N'), U('a'), U('p'),
                        LineFeed, LineFeed, U('G'), U('o'), Quote]
  {
    WordUnits();
  }

  lemma StrayC3Units()
    ensures StrayC3 == [U('E'), U('a'), U('t'), LineFeed, LineFeed, Quote, U('N'), U('a'), U('p'),
                        LineFeed, LineFeed, U('G'), U('o')]
  {
    WordUnits();
  }

  lemma UnstrayedUnits()
    ensures Unstrayed == [U('E'), U('a'), U('t'), LineFeed, LineFeed, U('N'), U('a'), U('p'),
                          LineFeed, LineFeed, U('G'), U('o')]
  {
    WordUnits();
  }

  /** `q,` at the end of a line occurs only at `m`, so the quote-comma rule
      matches nowhere else. */
  lemma QuoteCommaOnlyAt(s: Str, q: Unit, m: nat)
    requires forall k :: 0 <= k < |s| - 1 && k != m ==> s[k] != q || s[k + 1] != Comma
    ensures forall k :: 0 <= k < |s| && k != m ==> MatchAt(QuoteCommaAtEol(q), s, k).None?
  {
  }

  /** A `"` followed by a unit that is not white ends no line. */
  lemma QuoteAtEolOnlyAt(s: Str, m: nat)
    requires forall k :: 0 <= k < |s| && k != m && s[k] == Quote ==> k + 1 < |s| && !IsWhite(s[k + 1])
    ensures forall k :: 0 <= k < |s| && k != m ==> MatchAt(QuoteAtEol, s, k).None?
  {
    forall k | 0 <= k < |s| && k != m && s[k] == Quote ensures EolEnd(s, k + 1).None? {
      assert SkipWhite(s, k + 1) == k + 1;
    }
  }

  /** The `"` and `,` ending the first line go; the line feed stays. */
  lemma StrayStep1()
    ensures ReplaceAll(Stray, QuoteCommaAtEol(Quote), [LineFeed]) == StrayC1
  {
    var s := Stray;
    StrayMatch1();
    OnlyMatchReplaced(QuoteCommaAtEol(Quote), s, 3, 5, [LineFeed]);
    StrayPieces();
  }

  lemma StrayPieces()
    ensures Stray[..3] + [LineFeed] + Stray[5..] == StrayC1
  {
    StrayUnits();
    StrayC1Units();
  }

  /** `\s*$` after the first `",` stops before the line feed. */
  lemma StrayMatch1()
    ensures MatchAt(QuoteCommaAtEol(Quote), Stray, 3) == Some(5)
    ensures forall k :: 0 <= k < |Stray| && k != 3 ==> MatchAt(QuoteCommaAtEol(Quote), Stray, k).None?
  {
    var s := Stray;
    StrayUnits();
    assert SkipWhite(s, 5) == 6;
    assert LastLineTerminator(s, 5, 6) == Some(5);
    QuoteCommaOnlyAt(s, Quote, 3);
  }

  /** The `'` and `,` ending the second line go. */
  lemma StrayStep2()
    ensures ReplaceAll(StrayC1, QuoteCommaAtEol(Apostrophe), [LineFeed]) == StrayC2
  {
    var s := StrayC1;
    StrayC1Units();
    StrayC2Units();
    assert SkipWhite(s, 11) == 12;
    assert MatchAt(QuoteCommaAtEol(Apostrophe), s, 9) == Some(11);
    QuoteCommaOnlyAt(s, Apostrophe, 9);
    OnlyMatchReplaced(QuoteCommaAtEol(Apostrophe), s, 9, 11, [LineFeed]);
  }

  /** The `"` ending the text goes; the one opening the second line does
      not, since a letter follows it. */
  lemma StrayStep3()
    ensures ReplaceAll(StrayC2, QuoteAtEol, []) == StrayC3
  {
    var s := StrayC2;
    StrayC2Units();
    StrayC3Units();
    assert MatchAt(QuoteAtEol, s, |s| - 1) == Some(|s|);
    QuoteAtEolOnlyAt(s, |s| - 1);
    OnlyMatchReplaced(QuoteAtEol, s, |s| - 1, |s|, []);
  }

  /** The `"` opening the second line goes. */
  lemma StrayStep4()
    ensures ReplaceAll(StrayC3, QuoteAtLineStart, []) == Unstrayed
  {
    var s := StrayC3;
    StrayC3Units();
    UnstrayedUnits();
    forall k | 0 <= k < |s| && k != 5 ensures MatchAt(QuoteAtLineStart, s, k).None? {
    }
    OnlyMatchReplaced(QuoteAtLineStart, s, 5, 6, []);
  }

  /** Step C on the leftover lines: each of its four rules fires once. */
  lemma StrayLineEnds()
    ensures CleanLineEnds(Stray) == Unstrayed
  {
    StrayStep1();
    StrayStep2();
    StrayStep3();
    StrayStep4();
  }

  lemma StrayUnitsFree()
    ensures OpenBrace !in Stray && Colon !in Stray && Backtick !in Stray
    ensures Stray[0] == U('E') && Stray[|Stray| - 1] == Quote
  {
    StrayUnits();
  }

  /** Without braces, colons or backticks, the lines fail the first two tiers. */
  lemma StrayFirstTiers()
    ensures StripFences(Stray) == Stray
    ensures JsonTier(StripFences(Stray)).None? && !ExtractionSucceeds(Stray)
  {
    StrayUnitsFree();
    TrimOfPadded(Stray, 0, |Stray|);
    ProseFailsFirstTiers(Stray);
  }

  /** Steps A and B leave the lines alone; step C cleans them. */
  lemma StraySafeText()
    ensures SafeText(Stray) == Unstrayed
  {
    var s := Stray;
    StrayUnits();
    assert StripLeadingBrace(s) == s by {
      assert SkipWhite(s, 0) == 0;
    }
    NoTrailingBrace(s);
    NoColonNoLabels(s, KeysToRemove);
    StrayLineEnds();
  }

  lemma UnstrayedTrimmed()
    ensures |Unstrayed| == 12 && Unstrayed[0] == U('E') && Trim(Unstrayed) == Unstrayed
  {
    var c := Unstrayed;
    UnstrayedUnits();
    assert !IsWhite(c[0]) && !IsWhite(c[|c| - 1]);
    TrimOfPadded(c, 0, |c|);
  }

  /** The cleaned lines are trimmed already, long enough, and start with a
      letter, so the sanitizer keeps them. */
  lemma UnstrayedSummary()
    ensures SanitizeText(PlainSummary(Unstrayed)) == Unstrayed
  {
    UnstrayedTrimmed();
    assert PlainSummary(Unstrayed) == Unstrayed;
    assert !LooksLikeJson(Unstrayed);
  }

  /** The leftover lines `Eat",` `"Nap',` `Go"` reach the plain-text tier
      and come back as the summary `Eat` LF LF `Nap` LF LF `Go`. */
  lemma StrayReply()
    ensures Polish(RecoveredData(Stray)) == Assessment(Unstrayed, [], [], [], DefaultRiskLevel, false)
  {
    StrayFirstTiers();
    StraySafeText();
    UnstrayedSummary();
    PlainTextResult(Stray);
  }
}
