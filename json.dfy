/** `JSON.parse`: the strict JSON grammar of ECMA-404 (RFC 8259), as the
    recovery pipeline's first tier uses it. A text is accepted or rejected
    exactly as `JSON.parse` accepts it or throws a SyntaxError; numbers are kept
    as their lexeme, since the pipeline only ever asks whether one is zero. */
module Json {
  import opened JsText
  import opened Wrappers

  /** A JavaScript value produced by `JSON.parse`. An object keeps its members
      in text order, duplicates included; a lookup takes the last one. */
  datatype Json =
    | JNull
    | JBool(b: bool)
    | JNumber(lexeme: Str)
    | JString(s: Str)
    | JArray(items: seq<Json>)
    | JObject(members: seq<Member>)

  datatype Member = Member(key: Str, value: Json)

  /** The whitespace of the JSON grammar (narrower than `\s`). */
  predicate IsJsonWhite(u: Unit)
  {
    u == Space || u == Tab || u == LineFeed || u == CarriageReturn
  }

  function SkipJsonWhite(s: Str, i: nat): (j: nat)
    requires i <= |s|
    ensures i <= j <= |s|
    ensures forall k :: i <= k < j ==> IsJsonWhite(s[k])
    ensures j == |s| || !IsJsonWhite(s[j])
    decreases |s| - i
  {
    if i == |s| || !IsJsonWhite(s[i]) then i else SkipJsonWhite(s, i + 1)
  }

  predicate IsDigit(u: Unit)
  {
    0x30 <= u <= 0x39
  }

  /** The end of the run of decimal digits that starts at `i`. */
  function DigitsEnd(s: Str, i: nat): (j: nat)
    requires i <= |s|
    ensures i <= j <= |s|
    ensures forall k :: i <= k < j ==> IsDigit(s[k])
    ensures j == |s| || !IsDigit(s[j])
    decreases |s| - i
  {
    if i == |s| || !IsDigit(s[i]) then i else DigitsEnd(s, i + 1)
  }

  /** The value of a hexadecimal digit, or -1. */
  function HexValue(u: Unit): (v: int)
    ensures -1 <= v < 16
  {
    if 0x30 <= u <= 0x39 then (u - 0x30) as int
    else if 0x41 <= u <= 0x46 then (u - 0x41) as int + 10
    else if 0x61 <= u <= 0x66 then (u - 0x61) as int + 10
    else -1
  }

  /** The end of the fraction and exponent parts after the integer part
      ending at `b`, or -1 when they are malformed. */
  function NumberTail(s: Str, b: nat): (e: int)
    requires b <= |s|
    ensures e == -1 || b <= e <= |s|
  {
    var c :=
      if b < |s| && s[b] == Dot then
        (var d := DigitsEnd(s, b + 1); if d == b + 1 then -1 else d)
      else b;
    if c == -1 then -1
    else if c < |s| && (s[c] == 0x65 || s[c] == 0x45) then
      var e0 := if c + 1 < |s| && (s[c + 1] == Plus || s[c + 1] == Minus) then c + 2 else c + 1;
      var e := DigitsEnd(s, e0);
      if e == e0 then -1 else e
    else c
  }

  /** The end of the number token `-? (0 | [1-9][0-9]*) (. [0-9]+)? ([eE] [+-]? [0-9]+)?`
      that starts at `i`. */
  function NumberEnd(s: Str, i: nat): (r: Option<nat>)
    requires i <= |s|
    ensures r.Some? ==> i < r.value <= |s|
  {
    var a := if i < |s| && s[i] == Minus then i + 1 else i;
    if a == |s| || !IsDigit(s[a]) then None
    else
      var b := if s[a] == 0x30 then a + 1 else DigitsEnd(s, a);
      var e := NumberTail(s, b);
      if e == -1 then None else Some(e)
  }

  /** The characters of a string literal from `i` (just after the opening
      quote), decoded onto `acc`, and the index just after the closing quote. */
  function StringChars(s: Str, i: nat, acc: Str): (r: Option<(Str, nat)>)
    requires i <= |s|
    ensures r.Some? ==> i < r.value.1 <= |s|
    decreases |s| - i
  {
    if i == |s| then None
    else if s[i] == Quote then Some((acc, i + 1))
    else if s[i] < 0x20 then None
    else if s[i] != Backslash then StringChars(s, i + 1, acc + [s[i]])
    else if i + 1 == |s| then None
    else
      var e := s[i + 1];
      if e == Quote || e == Backslash || e == Slash then StringChars(s, i + 2, acc + [e])
      else if e == 0x62 then StringChars(s, i + 2, acc + [0x08])
      else if e == 0x66 then StringChars(s, i + 2, acc + [0x0C])
      else if e == 0x6E then StringChars(s, i + 2, acc + [LineFeed])
      else if e == 0x72 then StringChars(s, i + 2, acc + [CarriageReturn])
      else if e == 0x74 then StringChars(s, i + 2, acc + [Tab])
      else if e == 0x75 && i + 6 <= |s| && HexValue(s[i + 2]) >= 0 && HexValue(s[i + 3]) >= 0
              && HexValue(s[i + 4]) >= 0 && HexValue(s[i + 5]) >= 0 then
        var code := ((HexValue(s[i + 2]) * 16 + HexValue(s[i + 3])) * 16 + HexValue(s[i + 4])) * 16
                    + HexValue(s[i + 5]);
        StringChars(s, i + 6, acc + [code as Unit])
      else None
  }

  /** A run of plain units (no quote, no backslash, no control unit) up to a
      closing quote is decoded as itself. */
  lemma {:induction false} StringCharsPlain(s: Str, i: nat, j: nat, acc: Str)
    requires i <= j < |s| && s[j] == Quote
    requires forall k :: i <= k < j ==> s[k] != Quote && s[k] != Backslash && s[k] >= 0x20
    ensures StringChars(s, i, acc) == Some((acc + s[i..j], j + 1))
    decreases j - i
  {
    if i < j {
      StringCharsPlain(s, i + 1, j, acc + [s[i]]);
      assert acc + [s[i]] + s[i + 1..j] == acc + s[i..j];
    } else {
      assert acc + s[i..j] == acc;
    }
  }

  /** A string literal starting at `i`. */
  function StringAt(s: Str, i: nat): (r: Option<(Str, nat)>)
    requires i <= |s|
    ensures r.Some? ==> i < r.value.1 <= |s|
  {
    if i < |s| && s[i] == Quote then StringChars(s, i + 1, []) else None
  }

  /** A string literal without escapes or control units is its contents. */
  lemma StringAtPlain(s: Str, i: nat, j: nat)
    requires i < j < |s| && s[i] == Quote && s[j] == Quote
    requires forall k :: i < k < j ==> s[k] != Quote && s[k] != Backslash && s[k] >= 0x20
    ensures StringAt(s, i) == Some((s[i + 1..j], j + 1))
  {
    StringCharsPlain(s, i + 1, j, []);
    assert [] + s[i + 1..j] == s[i + 1..j];
  }

  /** A value starting exactly at `i`, and the index just after it. */
  function ValueAt(s: Str, i: nat): (r: Option<(Json, nat)>)
    requires i <= |s|
    ensures r.Some? ==> i < r.value.1 <= |s|
    decreases |s| - i, 0
  {
    if i == |s| then None
    else if s[i] == OpenBrace then ObjectBody(s, i + 1)
    else if s[i] == OpenBracket then ArrayBody(s, i + 1)
    else if s[i] == Quote then
      match StringAt(s, i)
      case None => None
      case Some((v, j)) => Some((JString(v), j))
    else if OccursAt(s, i, Lit("true")) then Some((JBool(true), i + 4))
    else if OccursAt(s, i, Lit("false")) then Some((JBool(false), i + 5))
    else if OccursAt(s, i, Lit("null")) then Some((JNull, i + 4))
    else
      match NumberEnd(s, i)
      case None => None
      case Some(j) => Some((JNumber(s[i..j]), j))
  }

  /** An object after its `{`. */
  function ObjectBody(s: Str, i: nat): (r: Option<(Json, nat)>)
    requires i <= |s|
    ensures r.Some? ==> r.value.0.JObject? && i < r.value.1 <= |s|
    decreases |s| - i, 2
  {
    var j := SkipJsonWhite(s, i);
    if j < |s| && s[j] == CloseBrace then Some((JObject([]), j + 1))
    else Members(s, j, [])
  }

  /** The members of an object from the key at `i`, after those in `acc`. */
  function Members(s: Str, i: nat, acc: seq<Member>): (r: Option<(Json, nat)>)
    requires i <= |s|
    ensures r.Some? ==> r.value.0.JObject? && i < r.value.1 <= |s|
    decreases |s| - i, 1
  {
    match StringAt(s, i)
    case None => None
    case Some((key, j)) => MemberValue(s, key, j, acc)
  }

  /** What follows a member's key: a `:`, the value, and what comes after it. */
  function MemberValue(s: Str, key: Str, j: nat, acc: seq<Member>): (r: Option<(Json, nat)>)
    requires j <= |s|
    ensures r.Some? ==> r.value.0.JObject? && j < r.value.1 <= |s|
    decreases |s| - j, 0
  {
    var k := SkipJsonWhite(s, j);
    if k == |s| || s[k] != Colon then None
    else
      match ValueAt(s, SkipJsonWhite(s, k + 1))
      case None => None
      case Some((v, m)) => MembersAfter(s, m, acc + [Member(key, v)])
  }

  /** What follows a member's value: a `,` and more members, or the `}`. */
  function MembersAfter(s: Str, m: nat, acc: seq<Member>): (r: Option<(Json, nat)>)
    requires m <= |s|
    ensures r.Some? ==> r.value.0.JObject? && m < r.value.1 <= |s|
    decreases |s| - m, 0
  {
    var n := SkipJsonWhite(s, m);
    if n < |s| && s[n] == Comma then Members(s, SkipJsonWhite(s, n + 1), acc)
    else if n < |s| && s[n] == CloseBrace then Some((JObject(acc), n + 1))
    else None
  }

  /** An object of one member written without white space: `{"key":value}`. */
  lemma OneMemberObject(s: Str, i: nat, key: Str, j: nat, v: Json, m: nat)
    requires i < |s| && s[i] == Quote
    requires StringAt(s, i) == Some((key, j)) && j < |s| && s[j] == Colon
    requires j + 1 < |s| && !IsJsonWhite(s[j + 1]) && ValueAt(s, j + 1) == Some((v, m))
    requires m < |s| && s[m] == CloseBrace
    ensures ObjectBody(s, i) == Some((JObject([Member(key, v)]), m + 1))
  {
    assert SkipJsonWhite(s, i) == i;
    LastMember(s, i, key, j, v, m, []);
    assert [] + [Member(key, v)] == [Member(key, v)];
  }

  /** The last member of an object, after those in `acc`, written without
      white space: `"key":value}`. */
  lemma LastMember(s: Str, i: nat, key: Str, j: nat, v: Json, m: nat, acc: seq<Member>)
    requires i < |s|
    requires StringAt(s, i) == Some((key, j)) && j < |s| && s[j] == Colon
    requires j + 1 < |s| && !IsJsonWhite(s[j + 1]) && ValueAt(s, j + 1) == Some((v, m))
    requires m < |s| && s[m] == CloseBrace
    ensures Members(s, i, acc) == Some((JObject(acc + [Member(key, v)]), m + 1))
  {
    NoWhiteToSkip(s, j);
    NoWhiteToSkip(s, j + 1);
    NoWhiteToSkip(s, m);
    KeyStep(s, i, key, j, acc);
    ValueStep(s, key, j, v, m, acc);
  }

  /** A member whose key `key` is read at `i` goes on after the key. */
  lemma KeyStep(s: Str, i: nat, key: Str, j: nat, acc: seq<Member>)
    requires i < |s| && StringAt(s, i) == Some((key, j))
    ensures Members(s, i, acc) == MemberValue(s, key, j, acc)
  {
  }

  /** A `:` and a value `v` after a key go on after the value. */
  lemma ValueStep(s: Str, key: Str, j: nat, v: Json, m: nat, acc: seq<Member>)
    requires j < |s| && SkipJsonWhite(s, j) == j && s[j] == Colon
    requires SkipJsonWhite(s, j + 1) == j + 1 && ValueAt(s, j + 1) == Some((v, m))
    ensures MemberValue(s, key, j, acc) == MembersAfter(s, m, acc + [Member(key, v)])
  {
  }

  /** At a unit that is not white space, skipping white space stays put. */
  lemma NoWhiteToSkip(s: Str, i: nat)
    requires i < |s| && !IsJsonWhite(s[i])
    ensures SkipJsonWhite(s, i) == i
  {
  }

  /** An array after its `[`. */
  function ArrayBody(s: Str, i: nat): (r: Option<(Json, nat)>)
    requires i <= |s|
    ensures r.Some? ==> r.value.0.JArray? && i < r.value.1 <= |s|
    decreases |s| - i, 2
  {
    var j := SkipJsonWhite(s, i);
    if j < |s| && s[j] == CloseBracket then Some((JArray([]), j + 1))
    else Elements(s, j, [])
  }

  /** The elements of an array from the one at `i`, after those in `acc`. */
  function Elements(s: Str, i: nat, acc: seq<Json>): (r: Option<(Json, nat)>)
    requires i <= |s|
    ensures r.Some? ==> r.value.0.JArray? && i < r.value.1 <= |s|
    decreases |s| - i, 1
  {
    match ValueAt(s, i)
    case None => None
    case Some((v, m)) =>
      var n := SkipJsonWhite(s, m);
      if n < |s| && s[n] == Comma then Elements(s, SkipJsonWhite(s, n + 1), acc + [v])
      else if n < |s| && s[n] == CloseBracket then Some((JArray(acc + [v]), n + 1))
      else None
  }

  /** `JSON.parse(s)`: `None` where it throws a SyntaxError. A text that
      starts with `{` can only parse to an object. */
  function Parse(s: Str): (r: Option<Json>)
    ensures r.Some? && |s| > 0 && s[0] == OpenBrace ==> r.value.JObject?
    ensures r.Some? && |s| > 0 && s[0] == OpenBracket ==> r.value.JArray?
  {
    var i := SkipJsonWhite(s, 0);
    match ValueAt(s, i)
    case None => None
    case Some((v, j)) => if SkipJsonWhite(s, j) == |s| then Some(v) else None
  }

  /** The value bound to `key` by the last member that names it. */
  function LastBinding(members: seq<Member>, key: Str): Option<Json>
  {
    if members == [] then None
    else if members[|members| - 1].key == key then Some(members[|members| - 1].value)
    else LastBinding(members[..|members| - 1], key)
  }

  /** A lookup finds the last member naming the key, and finds nothing
      exactly when no member names it. */
  lemma {:induction false} LastBindingFound(members: seq<Member>, key: Str)
    ensures var r := LastBinding(members, key);
            r.Some? ==> exists k :: 0 <= k < |members| && members[k] == Member(key, r.value)
                          && forall l :: k < l < |members| ==> members[l].key != key
    ensures LastBinding(members, key).None? <==> forall k :: 0 <= k < |members| ==> members[k].key != key
    decreases |members|
  {
    if members != [] {
      var n := |members| - 1;
      var front := members[..n];
      LastBindingFound(front, key);
      if members[n].key != key {
        var r := LastBinding(front, key);
        if r.Some? {
          var k :| 0 <= k < |front| && front[k] == Member(key, r.value)
                   && forall l :: k < l < |front| ==> front[l].key != key;
          assert members[k] == front[k];
          assert forall l :: k < l < |members| ==> members[l].key != key by {
            forall l | k < l < |members| ensures members[l].key != key {
              if l < n { assert members[l] == front[l]; }
            }
          }
        } else {
          assert forall k :: 0 <= k < n ==> members[k] == front[k];
        }
      }
    }
  }

  /** A member that no later member overrides is the one a lookup finds. */
  lemma {:induction false} LastBindingAt(members: seq<Member>, k: nat, key: Str)
    requires k < |members| && members[k].key == key
    requires forall l :: k < l < |members| ==> members[l].key != key
    ensures LastBinding(members, key) == Some(members[k].value)
    decreases |members|
  {
    if k < |members| - 1 {
      var front := members[..|members| - 1];
      assert front[k] == members[k];
      LastBindingAt(front, k, key);
    }
  }

  /** A key that no member names is not found. */
  lemma {:induction false} LastBindingAbsent(members: seq<Member>, key: Str)
    requires forall k :: 0 <= k < |members| ==> members[k].key != key
    ensures LastBinding(members, key) == None
    decreases |members|
  {
    if members != [] {
      var front := members[..|members| - 1];
      assert forall k :: 0 <= k < |front| ==> front[k] == members[k];
      LastBindingAbsent(front, key);
    }
  }

  /** The property access `v.key` on a value from `JSON.parse`: `None` is
      `undefined`. Neither arrays, strings, numbers nor booleans have the
      properties the pipeline reads. */
  function Get(v: Json, key: Str): Option<Json>
  {
    if v.JObject? then LastBinding(v.members, key) else None
  }

  /** A number lexeme whose digits before any exponent are all zero. */
  predicate IsZeroLexeme(lexeme: Str)
  {
    forall k :: 0 <= k < |lexeme| && IsDigit(lexeme[k]) ==>
      lexeme[k] == 0x30 || exists l :: 0 <= l < k && (lexeme[l] == 0x65 || lexeme[l] == 0x45)
  }

  /** JavaScript truthiness of a property value; `None` is `undefined`. */
  predicate Truthy(v: Option<Json>)
  {
    match v
    case None => false
    case Some(JNull) => false
    case Some(JBool(b)) => b
    case Some(JNumber(lexeme)) => !IsZeroLexeme(lexeme)
    case Some(JString(s)) => s != []
    case Some(JArray(_)) => true
    case Some(JObject(_)) => true
  }
}
