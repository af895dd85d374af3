/** The regular expressions of the recovery pipeline, each re-implemented as
    a scanner with the leftmost-match semantics of ECMA-262.

    Every pattern here has exactly one way to match at a given start index
    once its greedy quantifiers are followed (`\s` never holds a quote, a
    colon or a brace), so a match is a function of the start index. */
module Patterns {
  import opened JsText
  import opened Wrappers

  // ---------------------------------------------------------------------
  // Global replacement (`String.prototype.replace` with the `g` flag)
  // ---------------------------------------------------------------------

  /** The patterns the pipeline replaces globally. */
  datatype Pattern =
    | JsonFence                    // /```json/gi
    | Fence                        // /```/g
    | KeyLabel(key: Str)           // /['"]?KEY['"]?\s*:\s*/gi
    | QuoteCommaAtEol(quote: Unit) // /",\s*$/gm and /',\s*$/gm
    | QuoteAtEol                   // /"\s*$/gm
    | QuoteAtLineStart             // /^"/gm

  predicate IsQuote(u: Unit)
  {
    u == Quote || u == Apostrophe
  }

  /** The last line terminator in `s[lo..hi]`, if any. */
  function LastLineTerminator(s: Str, lo: nat, hi: nat): (r: Option<nat>)
    requires lo <= hi <= |s|
    ensures r.Some? ==> lo <= r.value < hi && IsLineTerminator(s[r.value])
                        && forall k :: r.value < k < hi ==> !IsLineTerminator(s[k])
    ensures r.None? ==> forall k :: lo <= k < hi ==> !IsLineTerminator(s[k])
    decreases hi - lo
  {
    if lo == hi then None
    else if IsLineTerminator(s[hi - 1]) then Some(hi - 1)
    else LastLineTerminator(s, lo, hi - 1)
  }

  /** Where a greedy `\s*$` under the `m` flag that starts at `j` ends: `$`
      holds at the end of the input and just before a line terminator, and
      `\s` includes line terminators, so the longest white prefix that is
      followed by one of those wins. */
  function EolEnd(s: Str, j: nat): (r: Option<nat>)
    requires j <= |s|
    ensures r.Some? ==> j <= r.value <= |s| && AllWhite(s, j, r.value)
                        && (r.value == |s| || IsLineTerminator(s[r.value]))
    ensures r.Some? ==> forall k :: r.value < k <= |s| && AllWhite(s, j, k) ==>
                          k < |s| && !IsLineTerminator(s[k])
    ensures r.None? ==> forall k :: j <= k <= |s| && AllWhite(s, j, k) ==>
                          k < |s| && !IsLineTerminator(s[k])
  {
    var w := SkipWhite(s, j);
    if w == |s| then Some(w)
    else
      var t := LastLineTerminator(s, j, w);
      assert forall k :: j <= k <= |s| && AllWhite(s, j, k) ==> k <= w;
      t
  }

  /** The label `['"]?KEY['"]?\s*:\s*` from the key at `a`. */
  function LabelRest(s: Str, a: nat, key: Str): (r: Option<nat>)
    requires a <= |s|
    ensures r.Some? ==> a + |key| < r.value <= |s| && OccursAtIgnoringCase(s, a, key)
  {
    if !OccursAtIgnoringCase(s, a, key) then None
    else
      var b := a + |key|;
      var quoted := if b < |s| && IsQuote(s[b]) then ColonAt(s, b + 1) else None;
      if quoted.Some? then quoted else ColonAt(s, b)
  }

  /** `\s*:\s*` from `c`: the end of the white run after the colon. */
  function ColonAt(s: Str, c: nat): (r: Option<nat>)
    requires c <= |s|
    ensures r.Some? ==> c < r.value <= |s|
    ensures r.Some? ==> var d := SkipWhite(s, c); d < |s| && s[d] == Colon && r.value == SkipWhite(s, d + 1)
    ensures r.None? ==> var d := SkipWhite(s, c); d == |s| || s[d] != Colon
  {
    var d := SkipWhite(s, c);
    if d < |s| && s[d] == Colon then Some(SkipWhite(s, d + 1)) else None
  }

  /** `s[c..e]` is `\s*:\s*` with both white runs taken whole: white units,
      a colon at `d`, and every white unit after it. */
  ghost predicate IsColonRun(s: Str, c: nat, e: nat)
  {
    exists d :: c <= d < e <= |s| && AllWhite(s, c, d) && s[d] == Colon
                && AllWhite(s, d + 1, e) && (e == |s| || !IsWhite(s[e]))
  }

  lemma ColonAtMeansRun(s: Str, c: nat, e: nat)
    requires c <= |s|
    ensures ColonAt(s, c) == Some(e) <==> IsColonRun(s, c, e)
  {
    if ColonAt(s, c) == Some(e) {
      var d := SkipWhite(s, c);
      assert c <= d < e <= |s| && AllWhite(s, c, d) && s[d] == Colon && AllWhite(s, d + 1, e);
    }
    if IsColonRun(s, c, e) {
      var d :| c <= d < e <= |s| && AllWhite(s, c, d) && s[d] == Colon
                && AllWhite(s, d + 1, e) && (e == |s| || !IsWhite(s[e]));
      SkipWhiteExact(s, c, d);
      SkipWhiteExact(s, d + 1, e);
    }
  }

  /** A match of `['"]?KEY['"]?\s*:\s*` from `i` to `e`, spelled out with the
      regular expression's greedy choices: a quote at `i` is taken, then the
      key follows up to ASCII case, a quote straight after the key is taken,
      and `\s*:\s*` follows with both white runs taken whole. */
  ghost predicate IsKeyLabelMatch(s: Str, i: nat, key: Str, e: nat)
  {
    var a := if i < |s| && IsQuote(s[i]) then i + 1 else i;
    var b := a + |key|;
    var c := if b < |s| && IsQuote(s[b]) then b + 1 else b;
    OccursAtIgnoringCase(s, a, key) && IsColonRun(s, c, e)
  }

  /** The scanner for a key label matches from `i` to `e` exactly when the
      label is spelled out there. The keys never start with a quote, so the
      regular expression's backtracking over its optional quotes never finds
      a second way to match. */
  lemma KeyLabelMatch(s: Str, i: nat, key: Str, e: nat)
    requires i <= |s| && key != [] && !IsQuote(key[0])
    ensures MatchAt(KeyLabel(key), s, i) == Some(e) <==> IsKeyLabelMatch(s, i, key, e)
  {
    var a := if i < |s| && IsQuote(s[i]) then i + 1 else i;
    if i < |s| && IsQuote(s[i]) {
      assert !OccursAtIgnoringCase(s, i, key) by {
        if i + |key| <= |s| {
          assert s[i..i + |key|][0] == s[i];
        }
      }
    }
    LabelRestMatch(s, a, key, e);
  }

  lemma LabelRestMatch(s: Str, a: nat, key: Str, e: nat)
    requires a <= |s|
    ensures var b := a + |key|;
            var c := if b < |s| && IsQuote(s[b]) then b + 1 else b;
            LabelRest(s, a, key) == Some(e) <==> OccursAtIgnoringCase(s, a, key) && IsColonRun(s, c, e)
  {
    if OccursAtIgnoringCase(s, a, key) {
      var b := a + |key|;
      if b < |s| && IsQuote(s[b]) {
        assert SkipWhite(s, b) == b;
        ColonAtMeansRun(s, b + 1, e);
      } else {
        ColonAtMeansRun(s, b, e);
      }
    }
  }

  /** The end of the match of `p` that starts exactly at `i`, if there is one. */
  function MatchAt(p: Pattern, s: Str, i: nat): (r: Option<nat>)
    requires i <= |s|
    ensures r.Some? ==> i < r.value <= |s|
  {
    match p
    case JsonFence =>
      var fence := Lit("```json");
      if OccursAtIgnoringCase(s, i, fence) then Some(i + |fence|) else None
    case Fence =>
      var fence := Lit("```");
      if OccursAt(s, i, fence) then Some(i + |fence|) else None
    case KeyLabel(key) =>
      // `['"]?` is greedy: with the quote first, without it if that fails.
      var quoted := if i < |s| && IsQuote(s[i]) then LabelRest(s, i + 1, key) else None;
      if quoted.Some? then quoted else LabelRest(s, i, key)
    case QuoteCommaAtEol(q) =>
      if i + 1 < |s| && s[i] == q && s[i + 1] == Comma then EolEnd(s, i + 2) else None
    case QuoteAtEol =>
      if i < |s| && s[i] == Quote then EolEnd(s, i + 1) else None
    case QuoteAtLineStart =>
      if i < |s| && s[i] == Quote && (i == 0 || IsLineTerminator(s[i - 1])) then Some(i + 1) else None
  }

  /** The replacement of every match of `p` from index `i` on: the search for
      the next match resumes where the previous one ended. */
  function ReplaceFrom(p: Pattern, s: Str, i: nat, replacement: Str): (r: Str)
    requires i <= |s|
    decreases |s| - i
  {
    if i == |s| then []
    else
      match MatchAt(p, s, i)
      case Some(e) => replacement + ReplaceFrom(p, s, e, replacement)
      case None => [s[i]] + ReplaceFrom(p, s, i + 1, replacement)
  }

  /** `s.replace(p, replacement)` with the `g` flag. */
  function ReplaceAll(s: Str, p: Pattern, replacement: Str): Str
  {
    ReplaceFrom(p, s, 0, replacement)
  }

  /** Units at which `p` does not match are copied as they are. */
  lemma {:induction false} CopyPrefix(p: Pattern, s: Str, i: nat, m: nat, replacement: Str)
    requires i <= m <= |s|
    requires forall k :: i <= k < m ==> MatchAt(p, s, k).None?
    ensures ReplaceFrom(p, s, i, replacement) == s[i..m] + ReplaceFrom(p, s, m, replacement)
    decreases m - i
  {
    if i < m {
      var tail := ReplaceFrom(p, s, m, replacement);
      CopyPrefix(p, s, i + 1, m, replacement);
      CopyUnit(p, s, i, replacement);
      assert s[i..m] == [s[i]] + s[i + 1..m];
      assert [s[i]] + (s[i + 1..m] + tail) == ([s[i]] + s[i + 1..m]) + tail;
    } else {
      assert s[i..m] == [];
    }
  }

  /** One step of the scan: a unit where `p` does not match is copied. */
  lemma CopyUnit(p: Pattern, s: Str, i: nat, replacement: Str)
    requires i < |s| && MatchAt(p, s, i).None?
    ensures ReplaceFrom(p, s, i, replacement) == [s[i]] + ReplaceFrom(p, s, i + 1, replacement)
  {
  }

  /** Both fences start with a backtick. */
  lemma FenceNeedsBacktick(s: Str, k: nat)
    requires k < |s| && s[k] != Backtick
    ensures MatchAt(JsonFence, s, k).None? && MatchAt(Fence, s, k).None?
  {
    assert Fold(s[k]) != Fold(Lit("```json")[0]);
    assert k + 7 <= |s| ==> s[k..k + 7][0] == s[k];
    assert k + 3 <= |s| ==> s[k..k + 3][0] == s[k];
  }

  /** Deleting matches never lengthens a text. */
  lemma {:induction false} DeleteFromShrinks(p: Pattern, s: Str, i: nat)
    requires i <= |s|
    ensures |ReplaceFrom(p, s, i, [])| <= |s| - i
    decreases |s| - i
  {
    if i < |s| {
      match MatchAt(p, s, i)
      case Some(e) => DeleteFromShrinks(p, s, e);
      case None => DeleteFromShrinks(p, s, i + 1);
    }
  }

  /** Deleting matches adds no unit that was not in the text. */
  lemma {:induction false} DeleteKeepsUnits(p: Pattern, s: Str, i: nat, u: Unit)
    requires i <= |s| && u !in s[i..]
    ensures u !in ReplaceFrom(p, s, i, [])
    decreases |s| - i
  {
    if i < |s| {
      match MatchAt(p, s, i)
      case Some(e) =>
        assert s[i..] == s[i..e] + s[e..];
        DeleteKeepsUnits(p, s, e, u);
      case None =>
        assert s[i..] == [s[i]] + s[i + 1..];
        DeleteKeepsUnits(p, s, i + 1, u);
    }
  }

  /** A pattern that matches once, at `m`, is replaced there and nowhere else. */
  lemma OnlyMatchReplaced(p: Pattern, s: Str, m: nat, e: nat, replacement: Str)
    requires m < |s| && MatchAt(p, s, m) == Some(e)
    requires forall k :: 0 <= k < |s| && k != m ==> MatchAt(p, s, k).None?
    ensures ReplaceAll(s, p, replacement) == s[..m] + replacement + s[e..]
  {
    ReplaceNext(p, s, 0, m, e, replacement);
    NoMatchUnchanged(p, s, e, replacement);
    assert s[0..m] == s[..m];
  }

  /** Whatever the replacement, a text in which the pattern never matches is
      left as it is. */
  lemma {:induction false} NoMatchUnchanged(p: Pattern, s: Str, i: nat, replacement: Str)
    requires i <= |s|
    requires forall k :: i <= k < |s| ==> MatchAt(p, s, k).None?
    ensures ReplaceFrom(p, s, i, replacement) == s[i..]
    decreases |s| - i
  {
    if i < |s| {
      NoMatchUnchanged(p, s, i + 1, replacement);
      assert s[i..] == [s[i]] + s[i + 1..];
    }
  }

  /** A key label ends in a colon, so none starts where no colon follows. */
  lemma KeyLabelNeedsColon(s: Str, i: nat, key: Str)
    requires i <= |s| && forall k :: i <= k < |s| ==> s[k] != Colon
    ensures MatchAt(KeyLabel(key), s, i).None?
  {
    forall c | i <= c <= |s| ensures ColonAt(s, c).None? {
      var d := SkipWhite(s, c);
      assert d == |s| || s[d] != Colon;
    }
  }

  /** The three line-end patterns and the line-start pattern all need a quote. */
  lemma QuotePatternNeedsQuote(p: Pattern, s: Str, i: nat)
    requires i <= |s| && Quote !in s && Apostrophe !in s
    requires (p.QuoteCommaAtEol? && IsQuote(p.quote)) || p.QuoteAtEol? || p.QuoteAtLineStart?
    ensures MatchAt(p, s, i).None?
  {
    if i < |s| {
      assert s[i] in s;
    }
  }

  // ---------------------------------------------------------------------
  // Fences
  // ---------------------------------------------------------------------

  /** Three backticks at index `k` of `t`. */
  predicate FenceAt(t: Str, k: int)
  {
    0 <= k && k + 3 <= |t| && t[k] == Backtick && t[k + 1] == Backtick && t[k + 2] == Backtick
  }

  lemma FenceAtMeansOccurs(t: Str)
    ensures Contains(t, Lit("```")) <==> exists k :: FenceAt(t, k)
  {
    var fence := Lit("```");
    assert fence == [Backtick, Backtick, Backtick];
    if Contains(t, fence) {
      var k :| 0 <= k <= |t| && OccursAt(t, k, fence);
      assert t[k..k + 3] == fence;
      assert t[k] == t[k..k + 3][0] && t[k + 1] == t[k..k + 3][1] && t[k + 2] == t[k..k + 3][2];
      assert FenceAt(t, k);
    }
    if exists k :: FenceAt(t, k) {
      var k :| FenceAt(t, k);
      assert t[k..k + 3] == fence;
      assert OccursAt(t, k, fence);
    }
  }

  /** The next match after `i` starts at `m` and ends at `e`: the units
      before it are copied and the match is replaced. */
  lemma ReplaceNext(p: Pattern, s: Str, i: nat, m: nat, e: nat, replacement: Str)
    requires i <= m < |s| && MatchAt(p, s, m) == Some(e)
    requires forall k :: i <= k < m ==> MatchAt(p, s, k).None?
    ensures ReplaceFrom(p, s, i, replacement) == s[i..m] + replacement + ReplaceFrom(p, s, e, replacement)
  {
    CopyPrefix(p, s, i, m, replacement);
    assert ReplaceFrom(p, s, m, replacement) == replacement + ReplaceFrom(p, s, e, replacement);
  }

  /** A unit that is not a backtick is copied: no fence can start there. */
  lemma FenceCopies(s: Str, i: nat)
    requires i < |s| && s[i] != Backtick
    ensures ReplaceFrom(Fence, s, i, []) == [s[i]] + ReplaceFrom(Fence, s, i + 1, [])
  {
    assert Lit("```")[0] == Backtick;
  }

  /** After `/```/g` is replaced by nothing, no three backticks are left in a
      row: a backtick that is copied is never directly followed by a removed
      fence, so no new fence forms across a removal. */
  lemma {:induction false} NoFenceFrom(s: Str, i: nat)
    requires i <= |s|
    ensures forall k :: !FenceAt(ReplaceFrom(Fence, s, i, []), k)
    decreases |s| - i
  {
    if i < |s| {
      match MatchAt(Fence, s, i)
      case Some(e) =>
        assert ReplaceFrom(Fence, s, i, []) == ReplaceFrom(Fence, s, e, []);
        NoFenceFrom(s, e);
      case None =>
        var rest := ReplaceFrom(Fence, s, i + 1, []);
        var r := [s[i]] + rest;
        assert ReplaceFrom(Fence, s, i, []) == r;
        NoFenceFrom(s, i + 1);
        forall k ensures !FenceAt(r, k) {
          if k > 0 {
            assert FenceAt(r, k) ==> FenceAt(rest, k - 1);
          } else if s[i] == Backtick {
            // No fence starts at i, so one of the next two units is not a
            // backtick, and it is copied to the second or third place of r.
            assert Lit("```")[0] == Backtick && Lit("```")[1] == Backtick && Lit("```")[2] == Backtick;
            if i + 1 == |s| {
              assert |r| == 1;
            } else if s[i + 1] != Backtick {
              FenceCopies(s, i + 1);
              assert r[1] != Backtick;
            } else {
              assert i + 2 == |s| || s[i + 2] != Backtick;
              assert MatchAt(Fence, s, i + 1).None?;
              assert rest == [s[i + 1]] + ReplaceFrom(Fence, s, i + 2, []);
              if i + 2 == |s| {
                assert |r| == 2;
              } else {
                FenceCopies(s, i + 2);
                assert r[2] != Backtick;
              }
            }
          }
        }
    }
  }

  /** `s.replace(/```/g, '')` contains no "```". */
  lemma NoFenceAfterRemoval(s: Str)
    ensures !Contains(ReplaceAll(s, Fence, []), Lit("```"))
  {
    NoFenceFrom(s, 0);
    FenceAtMeansOccurs(ReplaceAll(s, Fence, []));
  }

  /** A substring of a text without `pat` is without `pat`. */
  lemma ContainsInSlice(s: Str, lo: nat, hi: nat, pat: Str)
    requires lo <= hi <= |s|
    requires Contains(s[lo..hi], pat)
    ensures Contains(s, pat)
  {
    var t := s[lo..hi];
    var k :| 0 <= k <= |t| && OccursAt(t, k, pat);
    assert t[k..k + |pat|] == pat;
    assert forall m :: lo + k <= m < lo + k + |pat| ==> s[m] == t[m - lo];
    assert s[lo + k..lo + k + |pat|] == pat;
    assert OccursAt(s, lo + k, pat);
  }

  // ---------------------------------------------------------------------
  // The first `{` to the last `}`: /\{[\s\S]*\}/
  // ---------------------------------------------------------------------

  function FirstIndexOf(s: Str, u: Unit, from: nat): (r: nat)
    requires from <= |s|
    ensures from <= r <= |s|
    ensures r < |s| ==> s[r] == u
    ensures forall k :: from <= k < r ==> s[k] != u
    decreases |s| - from
  {
    if from == |s| || s[from] == u then from else FirstIndexOf(s, u, from + 1)
  }

  function LastIndexOf(s: Str, u: Unit, hi: nat): (r: Option<nat>)
    requires hi <= |s|
    ensures r.Some? ==> r.value < hi && s[r.value] == u && forall k :: r.value < k < hi ==> s[k] != u
    ensures r.None? ==> forall k :: 0 <= k < hi ==> s[k] != u
    decreases hi
  {
    if hi == 0 then None
    else if s[hi - 1] == u then Some(hi - 1)
    else LastIndexOf(s, u, hi - 1)
  }

  /** `s[i..e]` runs from the first `{` of `s` to its last `}`. */
  predicate IsBraceSpan(s: Str, i: int, e: int)
  {
    0 <= i < e <= |s| && s[i] == OpenBrace && s[e - 1] == CloseBrace
    && (forall k :: 0 <= k < i ==> s[k] != OpenBrace)
    && (forall k :: e <= k < |s| ==> s[k] != CloseBrace)
  }

  /** `s.match(/\{[\s\S]*\}/)`: the leftmost `{` and, greedily, the last `}`
      after it. */
  function BraceSpan(s: Str): (r: Option<Str>)
    ensures r.Some? ==> exists i, e :: IsBraceSpan(s, i, e) && r.value == s[i..e]
    ensures r.Some? ==> |r.value| >= 2 && r.value[0] == OpenBrace && r.value[|r.value| - 1] == CloseBrace
    ensures r.None? ==> forall i, j :: 0 <= i < j < |s| && s[i] == OpenBrace ==> s[j] != CloseBrace
  {
    var i := FirstIndexOf(s, OpenBrace, 0);
    if i == |s| then None
    else
      match LastIndexOf(s, CloseBrace, |s|)
      case None => None
      case Some(j) => if i < j then Some(s[i..j + 1]) else None
  }

  /** The span from the first `{` to the last `}` is what the match returns. */
  lemma BraceSpanUnique(s: Str, i: nat, e: nat)
    requires IsBraceSpan(s, i, e)
    ensures BraceSpan(s) == Some(s[i..e])
  {
    assert FirstIndexOf(s, OpenBrace, 0) == i;
    assert LastIndexOf(s, CloseBrace, |s|) == Some(e - 1);
  }

  lemma BraceSpansUnique(s: Str)
    ensures forall i, e :: IsBraceSpan(s, i, e) ==> BraceSpan(s) == Some(s[i..e])
  {
    forall i, e | IsBraceSpan(s, i, e) ensures BraceSpan(s) == Some(s[i..e]) {
      BraceSpanUnique(s, i, e);
    }
  }

  // ---------------------------------------------------------------------
  // The wrapping braces of the plain-text tier
  // ---------------------------------------------------------------------

  /** `s.replace(/^[\s\n]*\{/, '')`: white units and one `{` at the very start. */
  function StripLeadingBrace(s: Str): (r: Str)
    ensures (exists w :: 0 <= w < |s| && AllWhite(s, 0, w) && s[w] == OpenBrace) ==>
              exists w :: 0 <= w < |s| && AllWhite(s, 0, w) && s[w] == OpenBrace && r == s[w + 1..]
    ensures (forall w :: 0 <= w < |s| && AllWhite(s, 0, w) ==> s[w] != OpenBrace) ==> r == s
  {
    var w := SkipWhite(s, 0);
    if w < |s| && s[w] == OpenBrace then s[w + 1..] else s
  }

  /** `s.replace(/\}[\s\n]*$/, '')`: a `}` followed only by white units up to
      the end of the input. At most one `}` can be so placed. */
  function StripTrailingBrace(s: Str): (r: Str)
    ensures (exists j :: 0 <= j < |s| && s[j] == CloseBrace && AllWhite(s, j + 1, |s|)) ==>
              exists j :: 0 <= j < |s| && s[j] == CloseBrace && AllWhite(s, j + 1, |s|) && r == s[..j]
    ensures (forall j :: 0 <= j < |s| && s[j] == CloseBrace ==> !AllWhite(s, j + 1, |s|)) ==> r == s
  {
    var n := TrailingWhite(s);
    if n < |s| && s[|s| - n - 1] == CloseBrace then
      assert AllWhite(s, |s| - n, |s|);
      s[..|s| - n - 1]
    else
      assert forall j :: 0 <= j < |s| && s[j] == CloseBrace ==> !AllWhite(s, j + 1, |s|) by {
        forall j | 0 <= j < |s| && s[j] == CloseBrace && AllWhite(s, j + 1, |s|) ensures false {
        }
      }
      s
  }

  // ---------------------------------------------------------------------
  // The field patterns of the field-extraction tier
  // ---------------------------------------------------------------------

  /** `Q1 KEY Q1 \s*:\s* Q2 ([^Q2]*) Q2` with the `i` flag; `keyQuote` is
      `None` for the unquoted key. */
  datatype EntryPattern = EntryPattern(keyQuote: Option<Unit>, key: Str, valueQuote: Unit)

  function LabelLength(p: EntryPattern): nat
  {
    if p.keyQuote.Some? then |p.key| + 2 else |p.key|
  }

  /** The key part of `p`, quotes included, at `i`. */
  predicate LabelAt(s: Str, i: nat, p: EntryPattern)
  {
    match p.keyQuote
    case None => OccursAtIgnoringCase(s, i, p.key)
    case Some(q) =>
      i + |p.key| + 2 <= |s| && s[i] == q && OccursAtIgnoringCase(s, i + 1, p.key) && s[i + 1 + |p.key|] == q
  }

  lemma LabelFits(s: Str, i: nat, p: EntryPattern)
    requires LabelAt(s, i, p)
    ensures i + LabelLength(p) <= |s|
  {
  }

  /** No unit of `s[lo..hi]` is `u`. */
  predicate NoneEqual(s: Str, lo: nat, hi: nat, u: Unit)
    requires lo <= hi <= |s|
  {
    forall k :: lo <= k < hi ==> s[k] != u
  }

  /** The match of `p` at `i` spelled out: the label, white units up to the
      colon at `b`, white units up to the opening quote at `d`, the captured
      units, and the closing quote at `e`. */
  predicate EntryAt(s: Str, i: nat, p: EntryPattern, b: nat, d: nat, e: nat)
  {
    && LabelAt(s, i, p)
    && i + LabelLength(p) <= b < d < e < |s|
    && AllWhite(s, i + LabelLength(p), b) && s[b] == Colon
    && AllWhite(s, b + 1, d) && s[d] == p.valueQuote
    && NoneEqual(s, d + 1, e, p.valueQuote) && s[e] == p.valueQuote
  }

  /** `p` matches at `i` with capture `c`. */
  ghost predicate Matches(s: Str, i: nat, p: EntryPattern, c: Str)
  {
    exists b: nat, d: nat, e: nat :: EntryAt(s, i, p, b, d, e) && c == s[d + 1..e]
  }

  /** The capture of `p` when it matches at exactly `i`. */
  function CaptureAt(s: Str, i: nat, p: EntryPattern): (r: Option<Str>)
    requires i <= |s|
  {
    if !LabelAt(s, i, p) then None
    else
      var b := SkipWhite(s, i + LabelLength(p));
      if b == |s| || s[b] != Colon then None
      else
        var d := SkipWhite(s, b + 1);
        if d == |s| || s[d] != p.valueQuote then None
        else
          var e := FirstIndexOf(s, p.valueQuote, d + 1);
          if e == |s| then None else Some(s[d + 1..e])
  }

  /** The scanner and the spelled-out match agree, both ways. */
  lemma CaptureAtMeansMatch(s: Str, i: nat, p: EntryPattern, c: Str)
    requires i <= |s| && IsQuote(p.valueQuote)
    ensures CaptureAt(s, i, p) == Some(c) <==> Matches(s, i, p, c)
  {
    if CaptureAt(s, i, p) == Some(c) {
      CaptureIsMatch(s, i, p, c);
    }
    if Matches(s, i, p, c) {
      var b: nat, d: nat, e: nat :| EntryAt(s, i, p, b, d, e) && c == s[d + 1..e];
      MatchIsCapture(s, i, p, b, d, e);
    }
  }

  lemma CaptureIsMatch(s: Str, i: nat, p: EntryPattern, c: Str)
    requires i <= |s|
    requires CaptureAt(s, i, p) == Some(c)
    ensures Matches(s, i, p, c)
  {
    LabelFits(s, i, p);
    var b := SkipWhite(s, i + LabelLength(p));
    var d := SkipWhite(s, b + 1);
    var e := FirstIndexOf(s, p.valueQuote, d + 1);
    assert EntryAt(s, i, p, b, d, e);
  }

  lemma MatchIsCapture(s: Str, i: nat, p: EntryPattern, b: nat, d: nat, e: nat)
    requires IsQuote(p.valueQuote)
    requires EntryAt(s, i, p, b, d, e)
    ensures CaptureAt(s, i, p) == Some(s[d + 1..e])
  {
    SkipWhiteExact(s, i + LabelLength(p), b);
    SkipWhiteExact(s, b + 1, d);
    FirstIndexExact(s, p.valueQuote, d + 1, e);
  }

  lemma {:induction false} FirstIndexExact(s: Str, u: Unit, from: nat, e: nat)
    requires from <= e < |s| && s[e] == u && NoneEqual(s, from, e, u)
    ensures FirstIndexOf(s, u, from) == e
    decreases e - from
  {
    if from < e {
      FirstIndexExact(s, u, from + 1, e);
    }
  }

  /** `s.match(p)` searched from index `from`: the capture of the leftmost
      match. */
  function FirstCapture(s: Str, p: EntryPattern, from: nat): (r: Option<Str>)
    requires from <= |s|
    decreases |s| - from
  {
    var here := CaptureAt(s, from, p);
    if here.Some? then here
    else if from == |s| then None
    else FirstCapture(s, p, from + 1)
  }

  /** A capture FirstCapture returns is that of the match with the smallest
      start index. */
  lemma {:induction false} FirstCaptureIsFirst(s: Str, p: EntryPattern, from: nat)
    requires from <= |s|
    requires FirstCapture(s, p, from).Some?
    ensures exists i :: from <= i <= |s| && CaptureAt(s, i, p) == FirstCapture(s, p, from)
                        && forall j :: from <= j < i ==> CaptureAt(s, j, p).None?
    decreases |s| - from
  {
    var here := CaptureAt(s, from, p);
    if here.None? {
      var r := FirstCapture(s, p, from + 1);
      assert FirstCapture(s, p, from) == r;
      FirstCaptureIsFirst(s, p, from + 1);
      var i :| from + 1 <= i <= |s| && CaptureAt(s, i, p) == r
               && forall j :: from + 1 <= j < i ==> CaptureAt(s, j, p).None?;
      assert forall j :: from <= j < i ==> CaptureAt(s, j, p).None?;
    } else {
      assert FirstCapture(s, p, from) == here;
    }
  }

  /** FirstCapture finds nothing only when no index has a match. */
  lemma {:induction false} FirstCaptureNone(s: Str, p: EntryPattern, from: nat)
    requires from <= |s|
    requires FirstCapture(s, p, from).None?
    ensures forall i :: from <= i <= |s| ==> CaptureAt(s, i, p).None?
    decreases |s| - from
  {
    if from < |s| {
      assert FirstCapture(s, p, from) == FirstCapture(s, p, from + 1);
      FirstCaptureNone(s, p, from + 1);
    }
  }

  /** When no position from `from` on matches, the search finds nothing. */
  lemma {:induction false} NoCaptureFound(s: Str, p: EntryPattern, from: nat)
    requires from <= |s|
    requires forall i :: from <= i <= |s| ==> CaptureAt(s, i, p).None?
    ensures FirstCapture(s, p, from).None?
    decreases |s| - from
  {
    if from < |s| {
      NoCaptureFound(s, p, from + 1);
    }
  }

  /** `s.match(p)`. */
  function Match(s: Str, p: EntryPattern): Option<Str>
  {
    FirstCapture(s, p, 0)
  }

  /** What `s.match(p)` returns, in terms of the spelled-out match: the capture
      of a match at some index, with no match at any earlier index. */
  lemma MatchIsLeftmost(s: Str, p: EntryPattern)
    requires IsQuote(p.valueQuote)
    ensures Match(s, p).Some? ==> exists i :: 0 <= i <= |s| && Matches(s, i, p, Match(s, p).value)
                                   && forall j, c :: 0 <= j < i ==> !Matches(s, j, p, c)
    ensures Match(s, p).None? ==> forall i, c :: 0 <= i <= |s| ==> !Matches(s, i, p, c)
  {
    var r := Match(s, p);
    if r.Some? {
      FirstCaptureIsFirst(s, p, 0);
      var i :| 0 <= i <= |s| && CaptureAt(s, i, p) == r && forall j :: 0 <= j < i ==> CaptureAt(s, j, p).None?;
      CaptureAtMeansMatch(s, i, p, r.value);
      forall j, c | 0 <= j < i ensures !Matches(s, j, p, c) {
        CaptureAtMeansMatch(s, j, p, c);
      }
    } else {
      FirstCaptureNone(s, p, 0);
      forall i, c | 0 <= i <= |s| ensures !Matches(s, i, p, c) {
        CaptureAtMeansMatch(s, i, p, c);
      }
    }
  }

  /** The five patterns `extractField` tries, in order. */
  function FieldPatterns(field: Str): (ps: seq<EntryPattern>)
    ensures |ps| == 5 && forall k :: 0 <= k < 5 ==> ps[k].key == field
  {
    [ EntryPattern(Some(Quote), field, Quote),
      EntryPattern(Some(Quote), field, Apostrophe),
      EntryPattern(Some(Apostrophe), field, Quote),
      EntryPattern(Some(Apostrophe), field, Apostrophe),
      EntryPattern(None, field, Quote) ]
  }
}
