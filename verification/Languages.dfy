/**
 * getUniqueLanguages and getLanguageColor (script.js): the language list
 * offered by the filter control and the colour of each language swatch.
 */
module Languages {
  import opened Wrappers
  import opened Repos

  // ---------------------------------------------------------------------------
  // getUniqueLanguages

  /** `repos.map((repo) => repo.language).filter((lang) => lang !== null)`. */
  function NonNullLanguages(repos: seq<Repository>): (r: seq<string>)
    ensures |r| <= |repos|
    ensures forall x :: x in r <==> exists i :: 0 <= i < |repos| && repos[i].language == Some(x)
  {
    if repos == [] then []
    else
      var rest := NonNullLanguages(repos[1..]);
      assert forall i :: 1 <= i < |repos| ==> repos[i] == repos[1..][i - 1];
      match repos[0].language
      case None => rest
      case Some(l) => [l] + rest
  }

  /**
   * The index of the first repository whose language is `x`, or `|repos|`
   * when there is none.
   */
  function FirstRepoWith(repos: seq<Repository>, x: string): (i: nat)
    ensures i <= |repos|
    ensures i < |repos| ==> repos[i].language == Some(x)
    ensures forall j :: 0 <= j < i ==> repos[j].language != Some(x)
  {
    if repos == [] then 0
    else if repos[0].language == Some(x) then 0
    else
      var i := 1 + FirstRepoWith(repos[1..], x);
      assert forall j :: 1 <= j < i ==> repos[j] == repos[1..][j - 1];
      i
  }

  /** No value occurs twice. */
  predicate NoDuplicates(s: seq<string>)
  {
    forall i, j :: 0 <= i < j < |s| ==> s[i] != s[j]
  }

  /** The index of the first occurrence of `x` in `s`. */
  function FirstIndex(s: seq<string>, x: string): (i: nat)
    requires x in s
    ensures i < |s| && s[i] == x && x !in s[..i]
  {
    if s[0] == x then 0
    else
      var i := 1 + FirstIndex(s[1..], x);
      assert s[..i] == [s[0]] + s[1..][..i - 1];
      i
  }

  /**
   * `[...new Set(s)]`: a Set remembers the order in which its values were
   * first added, so the spread lists each value once, at its first occurrence.
   */
  function Distinct(s: seq<string>): (r: seq<string>)
    ensures forall x :: x in r <==> x in s
    ensures NoDuplicates(r)
  {
    if s == [] then []
    else
      var d := Distinct(s[..|s| - 1]);
      var x := s[|s| - 1];
      assert s == s[..|s| - 1] + [x];
      if x in d then d else d + [x]
  }

  /** getUniqueLanguages. */
  function UniqueLanguages(repos: seq<Repository>): seq<string>
  {
    Distinct(NonNullLanguages(repos))
  }

  lemma FirstIndexOfPrefix(s: seq<string>, y: string, x: string)
    requires x in s
    ensures x in s + [y] && FirstIndex(s + [y], x) == FirstIndex(s, x)
  {
    var i := FirstIndex(s, x);
    var j := FirstIndex(s + [y], x);
    assert (s + [y])[i] == x;
    assert s[..i] == (s + [y])[..i];
  }

  /** `Distinct` keeps values in the order of their first occurrence. */
  lemma {:induction false} DistinctFirstOccurrenceOrder(s: seq<string>)
    ensures forall i, j :: 0 <= i < j < |Distinct(s)| ==>
      FirstIndex(s, Distinct(s)[i]) < FirstIndex(s, Distinct(s)[j])
  {
    if s != [] {
      var init, x := s[..|s| - 1], s[|s| - 1];
      assert s == init + [x];
      var d := Distinct(init);
      DistinctFirstOccurrenceOrder(init);
      forall z | z in d ensures FirstIndex(s, z) == FirstIndex(init, z) {
        FirstIndexOfPrefix(init, x, z);
      }
      if x !in d {
        var i := FirstIndex(s, x);
        assert x !in init;
      }
    }
  }

  /**
   * The language list keeps the repositories' order: a language that comes
   * first in it comes first among the repositories.
   */
  lemma {:induction false} NonNullLanguagesOrder(repos: seq<Repository>, x: string, y: string)
    requires x in NonNullLanguages(repos) && y in NonNullLanguages(repos)
    requires FirstIndex(NonNullLanguages(repos), x) < FirstIndex(NonNullLanguages(repos), y)
    ensures FirstRepoWith(repos, x) < FirstRepoWith(repos, y) < |repos|
  {
    var langs, rest := NonNullLanguages(repos), NonNullLanguages(repos[1..]);
    assert forall i :: 1 <= i < |repos| ==> repos[i] == repos[1..][i - 1];
    match repos[0].language
    case None =>
      assert langs == rest;
      NonNullLanguagesOrder(repos[1..], x, y);
    case Some(l) =>
      assert langs == [l] + rest && langs[1..] == rest;
      if x != l {
        assert y != l;
        NonNullLanguagesOrder(repos[1..], x, y);
      } else {
        var j := FirstRepoWith(repos, y);
        assert j < |repos| by {
          var k :| 0 <= k < |repos| && repos[k].language == Some(y);
        }
      }
  }

  /**
   * What getUniqueLanguages promises: every non-null language of the input
   * exactly once, nothing else, in the order in which the languages first
   * appear.
   */
  lemma UniqueLanguagesCorrect(repos: seq<Repository>)
    ensures var r := UniqueLanguages(repos);
      && (forall x :: x in r <==> exists i :: 0 <= i < |repos| && repos[i].language == Some(x))
      && NoDuplicates(r)
      && (forall i, j :: 0 <= i < j < |r| ==> FirstRepoWith(repos, r[i]) < FirstRepoWith(repos, r[j]))
  {
    var langs, r := NonNullLanguages(repos), UniqueLanguages(repos);
    DistinctFirstOccurrenceOrder(langs);
    forall i, j | 0 <= i < j < |r|
      ensures FirstRepoWith(repos, r[i]) < FirstRepoWith(repos, r[j])
    {
      assert r[i] in r && r[j] in r;
      NonNullLanguagesOrder(repos, r[i], r[j]);
    }
  }

  // ---------------------------------------------------------------------------
  // getLanguageColor

  /** The `colors` object literal of getLanguageColor. */
  const LanguageColors: map<string, string> := map[
    "JavaScript" := "#f1e05a",
    "TypeScript" := "#2b7489",
    "HTML" := "#e34c26",
    "CSS" := "#563d7c",
    "Python" := "#3572A5",
    "Java" := "#b07219",
    "C#" := "#178600",
    "PHP" := "#4F5D95",
    "Go" := "#00ADD8",
    "Ruby" := "#701516",
    "Swift" := "#ffac45",
    "Kotlin" := "#F18E33",
    "Rust" := "#dea584",
    "C++" := "#f34b7d",
    "C" := "#555555"
  ]

  /** The colour of any language missing from the table. */
  const DefaultColor: string := "#6E40C9"

  predicate IsHexDigit(c: char)
  {
    '0' <= c <= '9' || 'a' <= c <= 'f' || 'A' <= c <= 'F'
  }

  /** A CSS colour of the form `#rrggbb`. */
  predicate IsHexColor(s: string)
  {
    |s| == 7 && s[0] == '#' && forall i :: 1 <= i < 7 ==> IsHexDigit(s[i])
  }

  /**
   * getLanguageColor, looking at the table's own entries only: every answer
   * is a `#rrggbb` colour, the table's entry for a listed language and the
   * fallback for every other string. No listed language shares the fallback.
   */
  function LanguageColor(language: string): (c: string)
    ensures IsHexColor(c)
    ensures language in LanguageColors ==> c == LanguageColors[language]
    ensures c == DefaultColor <==> language !in LanguageColors
  {
    if language in LanguageColors then LanguageColors[language] else DefaultColor
  }

  // ---------------------------------------------------------------------------
  // getLanguageColor as written: `colors[language] || "#6E40C9"`

  /**
   * The JavaScript values a property read on the `colors` object can yield.
   * `colors` is an ordinary object literal, so a name it does not define is
   * looked up on Object.prototype.
   */
  datatype JsValue = JsString(s: string) | JsFunction(name: string) | JsObject | JsUndefined

  /** The methods every object literal inherits from Object.prototype. */
  const ObjectPrototypeMethods: set<string> := {
    "constructor", "hasOwnProperty", "isPrototypeOf", "propertyIsEnumerable",
    "toLocaleString", "toString", "valueOf",
    "__defineGetter__", "__defineSetter__", "__lookupGetter__", "__lookupSetter__"
  }

  /** `colors[language]`, own properties first, then the prototype chain. */
  function ColorsLookup(language: string): JsValue
  {
    if language in LanguageColors then JsString(LanguageColors[language])
    else if language in ObjectPrototypeMethods then JsFunction(language)
    else if language == "__proto__" then JsObject
    else JsUndefined
  }

  /** JavaScript truthiness of the values above. */
  predicate Truthy(v: JsValue)
  {
    match v
    case JsString(s) => s != ""
    case JsFunction(_) => true
    case JsObject => true
    case JsUndefined => false
  }

  function LanguageColorAsWritten(language: string): JsValue
  {
    var v := ColorsLookup(language);
    if Truthy(v) then v else JsString(DefaultColor)
  }

  /** As written, the language "toString" gets a function, not a colour. */
  lemma AsWrittenReturnsFunction()
    ensures LanguageColorAsWritten("toString") == JsFunction("toString")
    ensures forall c :: LanguageColorAsWritten("toString") != JsString(c)
  {
  }

  /** Outside the inherited property names, the code as written is `LanguageColor`. */
  lemma AsWrittenAgrees(language: string)
    requires language !in ObjectPrototypeMethods && language != "__proto__"
    ensures LanguageColorAsWritten(language) == JsString(LanguageColor(language))
  {
  }
}
