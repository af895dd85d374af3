/** The two values `generateAssessment` derives from its request before it
    writes the prompt: the target language and the symptom text. */
module Request {
  import opened JsText
  import opened Wrappers

  const English: Str := Lit("English")
  const Hindi: Str := Lit("Hindi (हिंदी)")
  const Marathi: Str := Lit("Marathi (मराठी)")

  /** The own entries of `languageMap`, in source order. */
  const LanguageEntries: seq<(Str, Str)> :=
    [ (Lit("en"), English), (Lit("hi"), Hindi), (Lit("mr"), Marathi),
      (Lit("English"), English), (Lit("Hindi"), Hindi), (Lit("Marathi"), Marathi) ]

  /** The names `languageMap` inherits from `Object.prototype`; a lookup of
      one of them yields a function (or, for `__proto__`, the prototype
      object), which is truthy. */
  const InheritedNames: seq<Str> :=
    [ Lit("constructor"), Lit("hasOwnProperty"), Lit("isPrototypeOf"), Lit("propertyIsEnumerable"),
      Lit("toLocaleString"), Lit("toString"), Lit("valueOf"), Lit("__proto__"),
      Lit("__defineGetter__"), Lit("__defineSetter__"), Lit("__lookupGetter__"), Lit("__lookupSetter__") ]

  /** What `targetLanguage` becomes: a language name, or a member inherited
      from `Object.prototype`, which the prompt then interpolates as text. */
  datatype Target = Named(name: Str) | Inherited(member: Str)

  /** The value of the own entry named `key`, if any. */
  function OwnEntry(entries: seq<(Str, Str)>, key: Str): Option<Str>
  {
    if entries == [] then None
    else if entries[0].0 == key then Some(entries[0].1)
    else OwnEntry(entries[1..], key)
  }

  /** A lookup finds an entry with that key, and finds nothing exactly when
      no entry has it. */
  lemma {:induction false} OwnEntryFound(entries: seq<(Str, Str)>, key: Str)
    ensures var r := OwnEntry(entries, key);
            r.Some? ==> exists k :: 0 <= k < |entries| && entries[k] == (key, r.value)
    ensures OwnEntry(entries, key).None? <==> forall k :: 0 <= k < |entries| ==> entries[k].0 != key
    decreases |entries|
  {
    if entries != [] && entries[0].0 != key {
      OwnEntryFound(entries[1..], key);
      assert forall k :: 1 <= k < |entries| ==> entries[k] == entries[1..][k - 1];
      var r := OwnEntry(entries[1..], key);
      if r.Some? {
        var k :| 0 <= k < |entries[1..]| && entries[1..][k] == (key, r.value);
        assert entries[k + 1] == (key, r.value);
      }
    }
  }

  /** `languageMap[language] || languageMap['en']`, for a string-valued or
      missing `language`; a missing one looks up the key "undefined". */
  function TargetLanguage(language: Option<Str>): Target
  {
    var key := if language.Some? then language.value else Lit("undefined");
    match OwnEntry(LanguageEntries, key)
    case Some(name) => Named(name)
    case None => if key in InheritedNames then Inherited(key) else Named(English)
  }

  lemma OwnKeysDistinct()
    ensures forall j, k :: 0 <= j < k < |LanguageEntries| ==> LanguageEntries[j].0 != LanguageEntries[k].0
  {
    assert Lit("en")[0] != Lit("hi")[0] && Lit("en")[0] != Lit("mr")[0] && Lit("hi")[0] != Lit("mr")[0];
    assert Lit("English")[0] != Lit("Marathi")[0];
  }

  /** Every own key maps to its entry: the codes and the English names of
      the three languages. */
  lemma KnownLanguages()
    ensures TargetLanguage(Some(Lit("en"))) == Named(English)
    ensures TargetLanguage(Some(Lit("hi"))) == Named(Hindi)
    ensures TargetLanguage(Some(Lit("mr"))) == Named(Marathi)
    ensures TargetLanguage(Some(Lit("English"))) == Named(English)
    ensures TargetLanguage(Some(Lit("Hindi"))) == Named(Hindi)
    ensures TargetLanguage(Some(Lit("Marathi"))) == Named(Marathi)
  {
    OwnKeysDistinct();
    var e := LanguageEntries;
    OwnEntryOfDistinct(e, 0);
    OwnEntryOfDistinct(e, 1);
    OwnEntryOfDistinct(e, 2);
    OwnEntryOfDistinct(e, 3);
    OwnEntryOfDistinct(e, 4);
    OwnEntryOfDistinct(e, 5);
  }

  lemma {:induction false} OwnEntryOfDistinct(entries: seq<(Str, Str)>, k: nat)
    requires k < |entries|
    requires forall i, j :: 0 <= i < j < |entries| ==> entries[i].0 != entries[j].0
    ensures OwnEntry(entries, entries[k].0) == Some(entries[k].1)
  {
    if k > 0 {
      assert entries[0].0 != entries[k].0;
      assert entries[1..][k - 1] == entries[k];
      OwnEntryOfDistinct(entries[1..], k - 1);
    }
  }

  /** The result is always one of the three language names, unless the key
      names a member of `Object.prototype`; any other unknown or missing
      language falls back to English. */
  lemma TargetLanguageCases(language: Option<Str>)
    ensures var t := TargetLanguage(language);
            t.Named? ==> t.name == English || t.name == Hindi || t.name == Marathi
    ensures var key := if language.Some? then language.value else Lit("undefined");
            ((forall k :: 0 <= k < |LanguageEntries| ==> LanguageEntries[k].0 != key) && key !in InheritedNames)
            ==> TargetLanguage(language) == Named(English)
    ensures TargetLanguage(language).Inherited? ==> TargetLanguage(language).member in InheritedNames
  {
    var key := if language.Some? then language.value else Lit("undefined");
    OwnEntryFound(LanguageEntries, key);
    var r := OwnEntry(LanguageEntries, key);
    if r.Some? {
      var k :| 0 <= k < |LanguageEntries| && LanguageEntries[k] == (key, r.value);
      assert r.value == LanguageEntries[k].1;
    }
  }

  /** A missing `language` reads the key "undefined", which is no entry, so
      the prompt asks for English. */
  lemma MissingLanguageIsEnglish()
    ensures TargetLanguage(None) == Named(English)
  {
    var key := Lit("undefined");
    MissingKeyIsNoEntry();
    forall k | 0 <= k < |InheritedNames| ensures InheritedNames[k] != key {
      assert InheritedNames[k][0] != key[0] || |InheritedNames[k]| != |key|;
    }
    OwnEntryFound(LanguageEntries, key);
  }

  /** A language named after a member of `Object.prototype` is no own entry,
      yet the lookup finds the inherited member, which is truthy: the
      fallback to English does not happen. */
  lemma InheritedNameSkipsFallback()
    ensures TargetLanguage(Some(Lit("toString"))) == Inherited(Lit("toString"))
  {
    var key := Lit("toString");
    forall k | 0 <= k < |LanguageEntries| ensures LanguageEntries[k].0 != key {
      assert |key| == 8;
    }
    OwnEntryFound(LanguageEntries, key);
    assert InheritedNames[5] == key;
  }

  /** The fallback as evidently intended: only own entries of `languageMap`
      count, so the result is always one of the three language names, and
      English whenever the language is missing or no own key. */
  function OwnTargetLanguage(language: Option<Str>): (name: Str)
    ensures name == English || name == Hindi || name == Marathi
    ensures (language.None? || forall k :: 0 <= k < |LanguageEntries| ==> LanguageEntries[k].0 != language.value)
            ==> name == English
  {
    var key := if language.Some? then language.value else Lit("undefined");
    OwnEntryFound(LanguageEntries, key);
    MissingKeyIsNoEntry();
    match OwnEntry(LanguageEntries, key)
    case Some(name) => name
    case None => English
  }

  lemma MissingKeyIsNoEntry()
    ensures forall k :: 0 <= k < |LanguageEntries| ==> LanguageEntries[k].0 != Lit("undefined")
  {
    var key := Lit("undefined");
    forall k | 0 <= k < |LanguageEntries| ensures LanguageEntries[k].0 != key {
      assert |key| == 9;
    }
  }

  /** The two lookups agree on every language that names no member of
      `Object.prototype`. */
  lemma OwnTargetLanguageAgrees(language: Option<Str>)
    requires language.Some? ==> language.value !in InheritedNames
    ensures TargetLanguage(language) == Named(OwnTargetLanguage(language))
  {
    MissingKeyIsNoEntry();
    OwnEntryFound(LanguageEntries, Lit("undefined"));
  }

  // ---------------------------------------------------------------------
  // Symptoms
  // ---------------------------------------------------------------------

  /** `symptoms` of the request: an array of strings, or anything the prompt
      interpolates as it is (modelled as its text). */
  datatype Symptoms = SymptomList(items: seq<Str>) | SymptomText(text: Str)

  const Separator: Str := [Comma, Space]

  /** `items.join(', ')`. */
  function Join(items: seq<Str>): (r: Str)
    ensures items == [] ==> r == []
    ensures |items| == 1 ==> r == items[0]
  {
    if items == [] then []
    else if |items| == 1 then items[0]
    else items[0] + Separator + Join(items[1..])
  }

  /** `Array.isArray(symptoms) ? symptoms.join(', ') : symptoms`. */
  function SymptomsText(symptoms: Symptoms): Str
  {
    match symptoms
    case SymptomList(items) => Join(items)
    case SymptomText(text) => text
  }

  /** The text up to the first ", ", and the rest after it; the whole text
      when there is no comma. */
  function Split(s: Str): (parts: seq<Str>)
    ensures |parts| >= 1
    decreases |s|
  {
    if Comma !in s then [s]
    else
      var i := FirstComma(s, 0);
      if i + 1 < |s| && s[i + 1] == Space then [s[..i]] + Split(s[i + 2..]) else [s]
  }

  function FirstComma(s: Str, from: nat): (i: nat)
    requires from <= |s|
    ensures from <= i <= |s|
    ensures i < |s| ==> s[i] == Comma
    ensures forall k :: from <= k < i ==> s[k] != Comma
    decreases |s| - from
  {
    if from == |s| || s[from] == Comma then from else FirstComma(s, from + 1)
  }

  /** Split takes a comma-free head and its separator off the front. */
  lemma SplitHead(head: Str, tail: Str)
    requires Comma !in head
    ensures Split(head + Separator + tail) == [head] + Split(tail)
  {
    var s := head + Separator + tail;
    assert s[|head|] == Comma && s[|head| + 1] == Space;
    assert forall k :: 0 <= k < |head| ==> s[k] == head[k];
    assert FirstComma(s, 0) == |head|;
    assert s[..|head|] == head;
    assert s[|head| + 2..] == tail;
  }

  /** A list of symptoms none of which holds a comma is recovered from its
      joined text: the join loses nothing. */
  lemma {:induction false} SplitJoin(items: seq<Str>)
    requires items != []
    requires forall k :: 0 <= k < |items| ==> Comma !in items[k]
    ensures Split(Join(items)) == items
    decreases |items|
  {
    if |items| == 1 {
      assert Comma !in items[0];
    } else {
      SplitHead(items[0], Join(items[1..]));
      SplitJoin(items[1..]);
      assert items == [items[0]] + items[1..];
    }
  }

  /** The joined text is as long as the symptoms plus one separator between
      each two of them. */
  lemma {:induction false} JoinLength(items: seq<Str>)
    requires items != []
    ensures |Join(items)| == TotalLength(items) + 2 * (|items| - 1)
    decreases |items|
  {
    if |items| > 1 {
      JoinLength(items[1..]);
    }
  }

  function TotalLength(items: seq<Str>): nat
  {
    if items == [] then 0 else |items[0]| + TotalLength(items[1..])
  }
}
