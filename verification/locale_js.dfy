/**
 * The older, untyped copy of the translation resolver (src/utils/i18n.js). It
 * takes language and page names as arbitrary strings, returns language codes as
 * strings, walks key paths with a loop, and has no canonical-URL helper. Each
 * operation is related here to its typed counterpart in `Locale`.
 */
module LocaleJs {
  import opened Options
  import opened Text
  import opened Locale

  /** The language code of a pathname, as a string. */
  function GetLangFromParams(pathname: string): (code: string)
    ensures code == "en" || code == "ro"
    ensures code == LangCode(Locale.GetLangFromParams(pathname))
  {
    if StartsWith(pathname, "/en") then "en" else "ro"
  }

  /**
   * The translation object for any language and page name. A page name with no
   * bundle in the selected language spreads nothing, leaving only `common`.
   */
  function LoadTranslations(table: Translations, lang: string, page: string): (r: Bundle)
    requires WellFormed(table)
    ensures forall p: Page :: PageKey(p) == page ==> r == Locale.LoadTranslations(table, lang, p)
    ensures page !in LangData(table, lang) ==> r == map["common" := Node(LangData(table, lang)["common"])]
    ensures page == "common" ==> r.Keys == {"common"} + LangData(table, lang)["common"].Keys
    ensures var sections := if lang == "en" then table.en else table.ro;
            var bundle := if page in sections then sections[page] else map[];
            && r.Keys == {"common"} + bundle.Keys
            && (forall k :: k in bundle ==> r[k] == bundle[k])
            && ("common" !in bundle ==> r["common"] == Node(sections["common"]))
  {
    Merge(LangData(table, lang), page)
  }

  /** Any code other than "ro" and "en", such as "fr", loads the Romanian bundles. */
  lemma UnknownLanguageFallsBack(table: Translations, lang: string, page: string)
    requires WellFormed(table)
    requires lang != "ro" && lang != "en"
    ensures LoadTranslations(table, lang, page) == LoadTranslations(table, "ro", page)
  {
  }

  /**
   * `t` as the loop it is written as: walk the segments one by one, and return the
   * key path at the first segment that is missing or that meets a non-object.
   * It agrees with the recursive `Locale.T` on every input.
   */
  method T(translations: Tree, keyPath: string) returns (r: Tree)
    ensures r == Locale.T(translations, keyPath)
  {
    var keys := Split(keyPath, '.');
    var value := translations;
    for i := 0 to |keys|
      invariant Lookup(translations, keys[..i]) == Some(value)
    {
      var key := keys[i];
      LookupStep(translations, keys, i);
      if value.Node? && key in value.children {
        value := value.children[key];
      } else {
        TMissingSegment(translations, keyPath, i);
        return Leaf(keyPath);
      }
    }
    assert keys[..|keys|] == keys;
    return value;
  }

  /** The alternate-language paths; `currentLang` is any string and is ignored. */
  function GetAlternatePaths(currentLang: string, currentPath: string): (r: AlternatePaths)
    ensures forall lang: Lang :: r == Locale.GetAlternatePaths(lang, currentPath)
  {
    var basePath := StripPrefix(currentPath, "/en");
    AlternatePaths(if basePath == "" then "/" else basePath, "/en" + basePath)
  }
}
