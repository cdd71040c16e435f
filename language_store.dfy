/**
 * The localization state of `src/store/useLanguageStore.ts`: the current
 * language, and a lookup of display strings in that language's table that
 * falls back to the key. The string tables of `src/i18n/translations.ts`
 * are a parameter of the store.
 */
module Localization {
  import opened ResumeTypes

  /** The languages the tables cover. */
  datatype Language = En | Es

  /** One language's strings, by section and then by key. */
  type Table = map<string, map<string, string>>

  /** `table[section]?.[key]`: absent when the section or the key is missing. */
  function Lookup(table: Table, section: string, key: string): Option<string> {
    if section in table && key in table[section] then Some(table[section][key]) else None
  }

  class LanguageStore {
    var currentLanguage: Language
    const translations: Language -> Table

    /** The store starts in English. */
    constructor(translations: Language -> Table)
      ensures currentLanguage == En && this.translations == translations
    {
      currentLanguage := En;
      this.translations := translations;
    }

    /**
     * `t(section, key)`: the current language's string when the table has a
     * non-empty one, and the key itself otherwise (a missing section, a
     * missing key, or an empty string). It reads the state and changes
     * nothing; a non-empty key always gives a non-empty text.
     */
    function T(section: string, key: string): (r: string)
      reads this
      ensures var table := translations(currentLanguage);
        if section in table && key in table[section] && table[section][key] != ""
        then r == table[section][key]
        else r == key
      ensures key != "" ==> r != ""
    {
      var found := Lookup(translations(currentLanguage), section, key);
      if found.Some? && found.value != "" then found.value else key
    }

    /** `setLanguage`: the current language becomes the argument; the tables stay. */
    method SetLanguage(language: Language)
      modifies this
      ensures currentLanguage == language
    {
      currentLanguage := language;
    }
  }
}
