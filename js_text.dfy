/** JavaScript string values as the recovery pipeline sees them.

    A JavaScript string is a sequence of UTF-16 code units: `length`, `trim`,
    regular expressions without the `u` flag and the `\uXXXX` escapes of JSON
    all work on code units, so the model does too. */
module JsText {

  /** One UTF-16 code unit. */
  newtype Unit = u: int | 0 <= u < 0x1_0000

  /** A JavaScript string. */
  type Str = seq<Unit>

  // Code units of the ASCII punctuation the core's patterns use.
  const Tab: Unit := 0x09
  const LineFeed: Unit := 0x0A
  const CarriageReturn: Unit := 0x0D
  const Space: Unit := 0x20
  const Quote: Unit := 0x22
  const Apostrophe: Unit := 0x27
  const Plus: Unit := 0x2B
  const Comma: Unit := 0x2C
  const Minus: Unit := 0x2D
  const Dot: Unit := 0x2E
  const Slash: Unit := 0x2F
  const Colon: Unit := 0x3A
  const OpenBracket: Unit := 0x5B
  const Backslash: Unit := 0x5C
  const CloseBracket: Unit := 0x5D
  const Backtick: Unit := 0x60
  const OpenBrace: Unit := 0x7B
  const CloseBrace: Unit := 0x7D

  /** The code unit of a character of the Basic Multilingual Plane; every
      constant of the core is written in that plane. */
  function U(c: char): Unit
  {
    if c as int < 0x1_0000 then c as int as Unit else 0xFFFD
  }

  /** A string constant of the source, as code units. */
  function Lit(s: string): (r: Str)
    ensures |r| == |s|
    ensures forall i :: 0 <= i < |s| ==> r[i] == U(s[i])
  {
    seq(|s|, i requires 0 <= i < |s| => U(s[i]))
  }

  /** `\s` of a JavaScript regular expression and the set `trim` removes:
      WhiteSpace and LineTerminator of ECMA-262. */
  predicate IsWhite(u: Unit)
  {
    u == 0x09 || u == 0x0A || u == 0x0B || u == 0x0C || u == 0x0D || u == 0x20 ||
    u == 0xA0 || u == 0x1680 || 0x2000 <= u <= 0x200A || u == 0x2028 || u == 0x2029 ||
    u == 0x202F || u == 0x205F || u == 0x3000 || u == 0xFEFF
  }

  /** LineTerminator of ECMA-262: where `^` and `$` match under the `m` flag. */
  predicate IsLineTerminator(u: Unit)
  {
    u == 0x0A || u == 0x0D || u == 0x2028 || u == 0x2029
  }

  predicate AllWhite(s: Str, lo: int, hi: int)
    requires 0 <= lo <= hi <= |s|
  {
    forall k :: lo <= k < hi ==> IsWhite(s[k])
  }

  /** The index of the first non-white unit at or after `i`, or `|s|`. */
  function SkipWhite(s: Str, i: nat): (j: nat)
    requires i <= |s|
    ensures i <= j <= |s|
    ensures AllWhite(s, i, j)
    ensures j == |s| || !IsWhite(s[j])
    decreases |s| - i
  {
    if i == |s| || !IsWhite(s[i]) then i else SkipWhite(s, i + 1)
  }

  /** A white run followed by a non-white unit (or the end) is what SkipWhite skips. */
  lemma {:induction false} SkipWhiteExact(s: Str, i: nat, j: nat)
    requires i <= j <= |s|
    requires AllWhite(s, i, j)
    requires j == |s| || !IsWhite(s[j])
    ensures SkipWhite(s, i) == j
    decreases j - i
  {
    if i < j {
      SkipWhiteExact(s, i + 1, j);
    }
  }

  /** The number of white units at the end of `s`. */
  function TrailingWhite(s: Str): (n: nat)
    ensures n <= |s|
    ensures AllWhite(s, |s| - n, |s|)
    ensures n == |s| || !IsWhite(s[|s| - n - 1])
    decreases |s|
  {
    if s == [] || !IsWhite(s[|s| - 1]) then 0
    else
      var n := TrailingWhite(s[..|s| - 1]);
      assert forall k :: |s| - 1 - n <= k < |s| - 1 ==> s[k] == s[..|s| - 1][k];
      n + 1
  }

  /** `String.prototype.trim`: the white units at both ends removed. */
  function Trim(s: Str): (r: Str)
    ensures exists i, j :: 0 <= i <= j <= |s| && r == s[i..j] && AllWhite(s, 0, i) && AllWhite(s, j, |s|)
    ensures r != [] ==> !IsWhite(r[0]) && !IsWhite(r[|r| - 1])
    ensures r == [] ==> AllWhite(s, 0, |s|)
  {
    var i := SkipWhite(s, 0);
    var t := s[i..];
    var n := TrailingWhite(t);
    assert forall k :: |t| - n <= k < |t| ==> t[k] == s[i + k];
    var r := t[..|t| - n];
    assert r == s[i..|s| - n];
    r
  }

  /** Trimming a string that already has no white unit at either end changes nothing. */
  lemma TrimOfTrimmed(s: Str)
    requires s == [] || (!IsWhite(s[0]) && !IsWhite(s[|s| - 1]))
    ensures Trim(s) == s
  {
    if s != [] {
      var i := SkipWhite(s, 0);
      assert i == 0;
      var n := TrailingWhite(s);
      assert n == 0;
    }
  }

  /** Trimming cuts exactly the white runs before a non-white first unit and
      after a non-white last unit. */
  lemma TrimOfPadded(s: Str, i: nat, j: nat)
    requires i < j <= |s| && AllWhite(s, 0, i) && AllWhite(s, j, |s|)
    requires !IsWhite(s[i]) && !IsWhite(s[j - 1])
    ensures Trim(s) == s[i..j]
  {
    SkipWhiteExact(s, 0, i);
    var t := s[i..];
    assert AllWhite(t, j - i, |t|) by {
      assert forall k :: j - i <= k < |t| ==> t[k] == s[k + i];
    }
    TrailingWhiteFrom(t, j - i);
  }

  /** The white run at the end of `t` is what follows its last unit that is
      not white. */
  lemma {:induction false} TrailingWhiteFrom(t: Str, j: nat)
    requires 0 < j <= |t| && !IsWhite(t[j - 1]) && AllWhite(t, j, |t|)
    ensures TrailingWhite(t) == |t| - j
    decreases |t| - j
  {
    if j < |t| {
      var u := t[..|t| - 1];
      assert u[j - 1] == t[j - 1];
      assert AllWhite(u, j, |u|) by {
        assert forall k :: j <= k < |u| ==> u[k] == t[k];
      }
      TrailingWhiteFrom(u, j);
    }
  }

  /** ASCII upper case to lower case; every other unit unchanged. */
  function Fold(u: Unit): Unit
  {
    if 0x41 <= u <= 0x5A then u + 0x20 else u
  }

  /** Equality under the `i` flag of a non-Unicode regular expression, for an
      ASCII pattern: ECMA-262 Canonicalize never maps a unit at or above 128
      to an ASCII one, so only ASCII letters pair up. */
  predicate SameIgnoringCase(a: Str, b: Str)
  {
    |a| == |b| && forall k :: 0 <= k < |a| ==> Fold(a[k]) == Fold(b[k])
  }

  /** `pat` occurs at index `i` of `s`, exactly. */
  predicate OccursAt(s: Str, i: nat, pat: Str)
  {
    i + |pat| <= |s| && s[i..i + |pat|] == pat
  }

  /** `pat` occurs at index `i` of `s`, ignoring ASCII case. */
  predicate OccursAtIgnoringCase(s: Str, i: nat, pat: Str)
  {
    i + |pat| <= |s| && SameIgnoringCase(s[i..i + |pat|], pat)
  }

  /** `s` contains `pat` somewhere. */
  predicate Contains(s: Str, pat: Str)
  {
    exists i :: 0 <= i <= |s| && OccursAt(s, i, pat)
  }
}
