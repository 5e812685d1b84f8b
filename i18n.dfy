/** The localisation of lib/i18n.tsx: the German/English translation table, the `t` lookup with
    `{name}` parameters, and the language state restored from and written to the 'language'
    storage key. The table holds the entries the rest of this model refers to. */
module I18n {
  import opened Basics
  import opened Text
  import opened Numbers

  datatype Language = De | En

  datatype Entry = Entry(de: string, en: string)

  function Pick(e: Entry, language: Language): string {
    match language
    case De => e.de
    case En => e.en
  }

  /** The storage value of a language. */
  function Code(language: Language): string {
    match language
    case De => "de"
    case En => "en"
  }

  const Translations: map<string, Entry> := map[
    "showing_wines" := Entry("Ergebnisse: {count}", "Results: {count}"),
    "password_strength" := Entry("Passwortstärke", "Password Strength"),
    "strength_weak" := Entry("Schwach", "Weak"),
    "strength_medium" := Entry("Mittel", "Medium"),
    "strength_strong" := Entry("Stark", "Strong"),
    "passwords_not_matching" := Entry("Passwörter stimmen nicht überein", "Passwords do not match")
  ]

  function Placeholder(name: string): string {
    "{" + name + "}"
  }

  /** The parameters applied in entry order, each replacing the first occurrence of its
      placeholder in the text the earlier ones left. */
  function ApplyParams(text: string, params: seq<(string, string)>): (r: string)
    ensures params == [] ==> r == text
    decreases |params|
  {
    if params == [] then text
    else
      var last := params[|params| - 1];
      ReplaceFirst(ApplyParams(text, params[..|params| - 1]), Placeholder(last.0), last.1)
  }

  /** A text without braces, given values without braces, has no placeholder to replace. */
  lemma {:induction false} ApplyParamsPlain(text: string, params: seq<(string, string)>)
    requires '{' !in text && forall i :: 0 <= i < |params| ==> '{' !in params[i].1
    ensures ApplyParams(text, params) == text
    decreases |params|
  {
    if params != [] {
      var last := params[|params| - 1];
      assert forall i :: 0 <= i < |params| - 1 ==> params[..|params| - 1][i] == params[i];
      ApplyParamsPlain(text, params[..|params| - 1]);
      NoPlaceholder(text, last.0);
    }
  }

  /** Every placeholder starts with an opening brace. */
  lemma NoPlaceholder(s: string, name: string)
    ensures '{' !in s ==> !Contains(s, Placeholder(name))
  {
    if Contains(s, Placeholder(name)) {
      var i :| 0 <= i <= |s| - |Placeholder(name)| && OccursAt(s, Placeholder(name), i);
      assert s[i] == s[i..i + |Placeholder(name)|][0];
    }
  }

  /** `t(key, params)`: an unknown key is its own text; a known key gives its text in the
      language, with the parameters applied. */
  function Translated(table: map<string, Entry>, language: Language, key: string, params: seq<(string, string)>): (r: string)
    ensures key !in table ==> r == key
    ensures key in table && params == [] ==> r == Pick(table[key], language)
  {
    if key !in table then key
    else ApplyParams(Pick(table[key], language), params)
  }

  /** A single parameter is one replacement. */
  lemma ApplyOne(text: string, name: string, value: string)
    ensures ApplyParams(text, [(name, value)]) == ReplaceFirst(text, Placeholder(name), value)
  {
    assert [(name, value)][..0] == [];
  }

  /** A placeholder whose first `{` comes after a brace-free prefix is replaced there, and what
      follows it, later occurrences included, stays. */
  lemma ReplaceAfterPrefix(prefix: string, name: string, rest: string, value: string)
    requires '{' !in prefix
    ensures ReplaceFirst(prefix + Placeholder(name) + rest, Placeholder(name), value) == prefix + value + rest
  {
    var p := Placeholder(name);
    var s := prefix + p + rest;
    assert s[|prefix|..|prefix| + |p|] == p;
    forall j | 0 <= j < |prefix| ensures !OccursAt(s, p, j) {
      assert s[j] == prefix[j];
      assert p[0] == '{';
    }
    FirstOccurrence(s, p, |prefix|);
    assert s[..|prefix|] == prefix;
    assert s[|prefix| + |p|..] == rest;
  }

  /** The result count of the catalogue: "Results: n" in English, "Ergebnisse: n" in German. */
  lemma ShowingWines(n: nat)
    ensures Translated(Translations, En, "showing_wines", [("count", NatToString(n))]) == "Results: " + NatToString(n)
    ensures Translated(Translations, De, "showing_wines", [("count", NatToString(n))]) == "Ergebnisse: " + NatToString(n)
  {
    ShowingWinesEntry();
    TranslatedLone(Translations, En, "showing_wines", "Results: ", "count", NatToString(n));
    TranslatedLone(Translations, De, "showing_wines", "Ergebnisse: ", "count", NatToString(n));
  }

  lemma ShowingWinesEntry()
    ensures "showing_wines" in Translations
    ensures Translations["showing_wines"] == Entry("Ergebnisse: " + Placeholder("count"), "Results: " + Placeholder("count"))
  {
    assert Translations["showing_wines"] == Entry("Ergebnisse: {count}", "Results: {count}");
  }

  /** A text made of a brace-free prefix and one placeholder gets the value in its place. */
  lemma TranslatedLone(table: map<string, Entry>, language: Language, key: string, prefix: string, name: string, value: string)
    requires key in table && Pick(table[key], language) == prefix + Placeholder(name) && '{' !in prefix
    ensures Translated(table, language, key, [(name, value)]) == prefix + value
  {
    LonePlaceholder(prefix, name, value);
  }

  lemma LonePlaceholder(prefix: string, name: string, value: string)
    requires '{' !in prefix
    ensures ApplyParams(prefix + Placeholder(name), [(name, value)]) == prefix + value
  {
    ApplyOne(prefix + Placeholder(name), name, value);
    ReplaceAfterPrefix(prefix, name, "", value);
    assert prefix + Placeholder(name) + "" == prefix + Placeholder(name);
    assert prefix + value + "" == prefix + value;
  }

  /** A parameter replaces only the first of two occurrences of its placeholder. */
  lemma OnlyFirstOccurrence(value: string)
    ensures Translated(map["k" := Entry("{n} / {n}", "{n} / {n}")], En, "k", [("n", value)]) == value + " / {n}"
  {
    var table := map["k" := Entry("{n} / {n}", "{n} / {n}")];
    assert Translated(table, En, "k", [("n", value)]) == ApplyParams("{n} / {n}", [("n", value)]);
    assert "{n} / {n}" == Placeholder("n") + " / {n}";
    LeadingPlaceholder("n", " / {n}", value);
  }

  /** A text that starts with a placeholder has that one replaced and keeps the rest. */
  lemma LeadingPlaceholder(name: string, rest: string, value: string)
    ensures ApplyParams(Placeholder(name) + rest, [(name, value)]) == value + rest
  {
    ApplyOne(Placeholder(name) + rest, name, value);
    ReplaceAfterPrefix("", name, rest, value);
    assert "" + Placeholder(name) + rest == Placeholder(name) + rest;
    assert "" + value + rest == value + rest;
  }

  /** The language a stored value selects at the first render: only "de" and "en" are adopted,
      anything else keeps the default German. */
  function RestoredLanguage(saved: Option<string>): (r: Language)
    ensures saved == Some("en") <==> r == En
  {
    if saved == Some("en") then En else De
  }

  /** The language written by `setLanguage` is the one restored. */
  lemma RestoreRoundTrip(language: Language)
    ensures RestoredLanguage(Some(Code(language))) == language
  {
    match language
    case De => assert Code(De) != "en";
    case En =>
  }

  class LanguageProvider {
    var language: Language
    /** The 'language' entry of the browser storage. */
    var stored: Option<string>

    /** The first render: German, unless the stored value is exactly "de" or "en". */
    constructor(saved: Option<string>)
      ensures saved == Some("de") ==> language == De
      ensures saved == Some("en") ==> language == En
      ensures saved != Some("de") && saved != Some("en") ==> language == De
      ensures stored == saved
    {
      language := De;
      stored := saved;
      new;
      if saved.Some? && saved.value != "" && (saved.value == "de" || saved.value == "en") {
        language := if saved.value == "de" then De else En;
      }
    }

    /** `handleSetLanguage`. */
    method SetLanguage(lang: Language)
      modifies this
      ensures language == lang && stored == Some(Code(lang))
    {
      language := lang;
      stored := Some(Code(lang));
    }

    /** `t(key, params)` in the current language, the parameters applied one after the other. */
    method Translate(key: string, params: seq<(string, string)>) returns (text: string)
      ensures text == Translated(Translations, language, key, params)
    {
      if key !in Translations {
        return key;
      }
      text := Pick(Translations[key], language);
      var i := 0;
      while i < |params|
        invariant 0 <= i <= |params|
        invariant text == ApplyParams(Pick(Translations[key], language), params[..i])
      {
        assert params[..i + 1][..i] == params[..i];
        text := ReplaceFirst(text, Placeholder(params[i].0), params[i].1);
        i := i + 1;
      }
      assert params[..i] == params;
    }
  }

  /** The language chosen survives a reload. */
  method LanguageSurvivesReload(previous: Option<string>, lang: Language) returns (reloaded: Language)
    ensures reloaded == lang
  {
    var p := new LanguageProvider(previous);
    p.SetLanguage(lang);
    var q := new LanguageProvider(p.stored);
    reloaded := q.language;
  }
}
