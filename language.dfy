/** The interface language (src/contexts/LanguageContext.tsx): the translation lookup with its
    fallback to the key, the reading direction, switching languages, and adopting the language
    saved by an earlier visit. */
module Language {
  import opened Js
  import opened ContentModel

  /** The code a language is stored and announced under. */
  function Code(l: Lang): string {
    if l == He then "he" else "en"
  }

  /** The saved value is adopted only when it names one of the two languages. */
  function ParseSaved(saved: Option<string>): (r: Option<Lang>)
    ensures r.Some? <==> saved.Some? && (saved.value == "he" || saved.value == "en")
    ensures r.Some? ==> Code(r.value) == saved.value
  {
    if saved == Some("he") then Some(He)
    else if saved == Some("en") then Some(En)
    else None
  }

  /** Storing a language and reading it back gives the same language. */
  lemma SavedRoundTrip(l: Lang)
    ensures ParseSaved(Some(Code(l))) == Some(l)
  {
  }

  /** The two dictionaries, key to text. */
  datatype Translations = Translations(he: map<string, string>, en: map<string, string>)

  function Dictionary(tr: Translations, l: Lang): map<string, string> {
    if l == He then tr.he else tr.en
  }

  /** `t(key)`: the active language's text for `key`; a missing or empty entry falls back to the
      key itself. */
  function Translate(tr: Translations, l: Lang, key: string): (r: string)
    ensures key in Dictionary(tr, l) && Dictionary(tr, l)[key] != "" ==> r == Dictionary(tr, l)[key]
    ensures !(key in Dictionary(tr, l) && Dictionary(tr, l)[key] != "") ==> r == key
    ensures key != "" ==> r != ""
  {
    var d := Dictionary(tr, l);
    if key in d && d[key] != "" then d[key] else key
  }

  /** The document direction for a language. */
  function Direction(l: Lang): string {
    if l == He then "rtl" else "ltr"
  }

  /** The provider's state together with the parts of the browser it writes: the saved
      `language` entry and the root element's `dir` and `lang`. */
  class LanguageState {
    var language: Lang
    var storedLanguage: Option<string>
    var documentDir: string
    var documentLang: string
    const translations: Translations

    /** Mounting: starts in Hebrew and adopts a valid saved language. Nothing is written. */
    constructor (translations: Translations, saved: Option<string>, dir: string, lang: string)
      ensures language == if ParseSaved(saved).Some? then ParseSaved(saved).value else He
      ensures storedLanguage == saved && documentDir == dir && documentLang == lang
      ensures this.translations == translations
    {
      this.translations := translations;
      var adopted := ParseSaved(saved);
      language := if adopted.Some? then adopted.value else He;
      storedLanguage := saved;
      documentDir := dir;
      documentLang := lang;
    }

    /** `t(key)` in the current language. */
    function T(key: string): string
      reads this
    {
      Translate(translations, language, key)
    }

    /** `isRTL`. */
    predicate IsRTL()
      reads this
    {
      language == He
    }

    /** `handleSetLanguage(lang)`: switches, saves the choice, and sets the document's
        direction and language. */
    method SetLanguage(lang: Lang)
      modifies this
      ensures language == lang && storedLanguage == Some(Code(lang))
      ensures documentDir == Direction(lang) && documentLang == Code(lang)
      ensures IsRTL() <==> documentDir == "rtl"
    {
      language := lang;
      storedLanguage := Some(Code(lang));
      documentDir := Direction(lang);
      documentLang := Code(lang);
    }
  }

  /** The direction is right-to-left exactly for Hebrew. */
  lemma DirectionIsRtlIffHebrew(l: Lang)
    ensures Direction(l) == "rtl" <==> l == He
    ensures Direction(l) == "ltr" <==> l == En
  {
  }
}
