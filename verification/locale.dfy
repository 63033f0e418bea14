/**
 * The translation resolver of the site (src/utils/i18n.ts): language detection
 * from the URL pathname, assembly of a page's translation object from the
 * language's `common` bundle and the page bundle, dot-path lookup with the key
 * path itself as the fallback, and the cross-language and canonical URLs.
 */
module Locale {
  import opened Options
  import opened Text

  /** The two site languages; `Ro` is the default. */
  datatype Lang = Ro | En

  /** The pages that have a bundle of their own. */
  datatype Page = Home | Services | About | Contact

  function LangCode(lang: Lang): string
  {
    match lang
    case Ro => "ro"
    case En => "en"
  }

  function PageKey(page: Page): string
  {
    match page
    case Home => "home"
    case Services => "services"
    case About => "about"
    case Contact => "contact"
  }

  /** The language a code names, if it names one of the two. */
  function ParseLang(code: string): (lang: Option<Lang>)
    ensures lang.Some? ==> LangCode(lang.value) == code
    ensures lang.None? ==> code != "ro" && code != "en"
  {
    if code == "ro" then Some(Ro)
    else if code == "en" then Some(En)
    else None
  }

  /** A JSON translation value: a string, or an object of further values. */
  datatype Tree = Leaf(text: string) | Node(children: map<string, Tree>)

  /** One translation file: the top-level object of a JSON locale file. */
  type Bundle = map<string, Tree>

  /** A language's bundles by section name ("common", "home", ...). */
  type Sections = map<string, Bundle>

  /** The table of all loaded bundles, per language. */
  datatype Translations = Translations(ro: Sections, en: Sections)
  {
    function Of(lang: Lang): Sections
    {
      match lang
      case Ro => ro
      case En => en
    }
  }

  /** Every language has its `common` bundle. */
  predicate WellFormed(table: Translations)
  {
    "common" in table.ro && "common" in table.en
  }

  // ---------------------------------------------------------------------------
  // Language detection

  /** `en` for any pathname beginning with "/en", `ro` for every other one. */
  function GetLangFromParams(pathname: string): (lang: Lang)
    ensures lang == En <==> StartsWith(pathname, "/en")
  {
    if StartsWith(pathname, "/en") then En else Ro
  }

  /** The prefix test has no segment boundary and is case-sensitive. */
  lemma LangDetectionExamples()
    ensures GetLangFromParams("/en/services") == En
    ensures GetLangFromParams("/en") == En
    ensures GetLangFromParams("/english") == En
    ensures GetLangFromParams("/EN/services") == Ro
    ensures GetLangFromParams("/services") == Ro
    ensures GetLangFromParams("/") == Ro
    ensures GetLangFromParams("") == Ro
  {
    assert "/en/services"[..3] == "/en";
    assert "/english"[..3] == "/en";
    assert "/EN/services"[..3][1] == 'E';
  }

  // ---------------------------------------------------------------------------
  // Bundle selection and merge

  /** `translations[lang] || translations['ro']`: an unknown code falls back to `ro`. */
  function LangData(table: Translations, lang: string): (sections: Sections)
    ensures lang == "en" ==> sections == table.en
    ensures lang != "en" ==> sections == table.ro
  {
    match ParseLang(lang)
    case Some(l) => table.Of(l)
    case None => table.ro
  }

  /** `langData[key]` as spread into an object: a missing bundle contributes no keys. */
  function Section(sections: Sections, key: string): Bundle
  {
    if key in sections then sections[key] else map[]
  }

  /**
   * `{ common: langData.common, ...langData[key] }`: the page bundle's keys beside
   * `common`. The spread comes second, so a page key `common` overrides the
   * common bundle.
   */
  function Merge(sections: Sections, key: string): (r: Bundle)
    requires "common" in sections
    ensures r.Keys == {"common"} + Section(sections, key).Keys
    ensures forall k :: k in Section(sections, key) ==> r[k] == Section(sections, key)[k]
    ensures "common" !in Section(sections, key) ==> r["common"] == Node(sections["common"])
  {
    map["common" := Node(sections["common"])] + Section(sections, key)
  }

  /** The translation object a page renders with. */
  function LoadTranslations(table: Translations, lang: string, page: Page): (r: Bundle)
    requires WellFormed(table)
    ensures var sections := if lang == "en" then table.en else table.ro;
            var bundle := Section(sections, PageKey(page));
            && r.Keys == {"common"} + bundle.Keys
            && (forall k :: k in bundle ==> r[k] == bundle[k])
            && ("common" !in bundle ==> r["common"] == Node(sections["common"]))
  {
    Merge(LangData(table, lang), PageKey(page))
  }

  /** Any code other than "ro" and "en" loads exactly what "ro" loads. */
  lemma LoadTranslationsFallback(table: Translations, lang: string, page: Page)
    requires WellFormed(table)
    requires lang != "ro" && lang != "en"
    ensures LoadTranslations(table, lang, page) == LoadTranslations(table, "ro", page)
  {
  }

  // ---------------------------------------------------------------------------
  // Key-path lookup

  /** `value && typeof value === 'object' && key in value`, for own keys. */
  predicate HasKey(value: Tree, key: string)
  {
    value.Node? && key in value.children
  }

  /** The value reached by following `keys` from `value`, if every step exists. */
  function Lookup(value: Tree, keys: seq<string>): (r: Option<Tree>)
    ensures |keys| == 0 ==> r == Some(value)
    ensures |keys| > 0 && value.Leaf? ==> r.None?
    ensures |keys| > 0 && r.Some? ==> HasKey(value, keys[0])
    ensures |keys| == 1 && HasKey(value, keys[0]) ==> r == Some(value.children[keys[0]])
    decreases |keys|
  {
    if |keys| == 0 then Some(value)
    else if HasKey(value, keys[0]) then Lookup(value.children[keys[0]], keys[1..])
    else None
  }

  /** Lookup along a concatenated path is lookup along the first part, then the second. */
  lemma {:induction false} LookupAppend(value: Tree, a: seq<string>, b: seq<string>)
    ensures Lookup(value, a + b) ==
              match Lookup(value, a)
              case None => None
              case Some(mid) => Lookup(mid, b)
    decreases |a|
  {
    if |a| == 0 {
      assert a + b == b;
    } else {
      assert (a + b)[0] == a[0];
      assert (a + b)[1..] == a[1..] + b;
      if HasKey(value, a[0]) {
        LookupAppend(value.children[a[0]], a[1..], b);
      }
    }
  }

  /** Every segment of `keys` exists in the value reached by the segments before it. */
  ghost predicate PathPresent(value: Tree, keys: seq<string>)
  {
    forall i :: 0 <= i < |keys| ==>
      Lookup(value, keys[..i]).Some? && HasKey(Lookup(value, keys[..i]).value, keys[i])
  }

  /** One more segment: the value reached so far must be an object holding it. */
  lemma LookupStep(value: Tree, keys: seq<string>, i: nat)
    requires i < |keys|
    ensures Lookup(value, keys[..i + 1]) ==
              if Lookup(value, keys[..i]).Some? && HasKey(Lookup(value, keys[..i]).value, keys[i])
              then Some(Lookup(value, keys[..i]).value.children[keys[i]])
              else None
  {
    assert keys[..i + 1] == keys[..i] + [keys[i]];
    LookupAppend(value, keys[..i], [keys[i]]);
  }

  /** Lookup succeeds exactly when every segment is present. */
  lemma LookupSomeIffPathPresent(value: Tree, keys: seq<string>)
    ensures Lookup(value, keys).Some? <==> PathPresent(value, keys)
  {
    if PathPresent(value, keys) && |keys| > 0 {
      LookupFullPath(value, keys);
    }
    if !PathPresent(value, keys) {
      LookupStopsAtMissing(value, keys);
    }
  }

  /** A path with a missing segment fails. */
  lemma LookupStopsAtMissing(value: Tree, keys: seq<string>)
    requires !PathPresent(value, keys)
    ensures Lookup(value, keys).None?
  {
    var i :| 0 <= i < |keys| &&
      !(Lookup(value, keys[..i]).Some? && HasKey(Lookup(value, keys[..i]).value, keys[i]));
    LookupStep(value, keys, i);
    assert keys == keys[..i + 1] + keys[i + 1..];
    LookupAppend(value, keys[..i + 1], keys[i + 1..]);
  }

  /**
   * `t(translations, keyPath)`: the value at the end of the dot-separated path,
   * or the key path itself as a visible placeholder. The result is the found
   * value (a string, or a whole sub-object when the path stops at one).
   */
  function T(translations: Tree, keyPath: string): (r: Tree)
    ensures r == Leaf(keyPath) || Lookup(translations, Split(keyPath, '.')) == Some(r)
  {
    match Lookup(translations, Split(keyPath, '.'))
    case Some(value) => value
    case None => Leaf(keyPath)
  }

  /**
   * The walk stops at the first segment `i` that the value reached so far does not
   * hold (or that value is a string), and `t` returns the key path unchanged.
   */
  lemma TMissingSegment(translations: Tree, keyPath: string, i: nat)
    requires i < |Split(keyPath, '.')|
    requires Lookup(translations, Split(keyPath, '.')[..i]).Some?
    requires !HasKey(Lookup(translations, Split(keyPath, '.')[..i]).value, Split(keyPath, '.')[i])
    ensures T(translations, keyPath) == Leaf(keyPath)
  {
    var keys := Split(keyPath, '.');
    LookupStep(translations, keys, i);
    assert keys == keys[..i + 1] + keys[i + 1..];
    LookupAppend(translations, keys[..i + 1], keys[i + 1..]);
  }

  /**
   * When every segment is present, `t` returns the value the last segment names
   * inside the value reached by the others.
   */
  lemma TFullPath(translations: Tree, keyPath: string)
    requires PathPresent(translations, Split(keyPath, '.'))
    ensures var keys := Split(keyPath, '.');
            var last := |keys| - 1;
            T(translations, keyPath) == Lookup(translations, keys[..last]).value.children[keys[last]]
  {
    TFullPathOf(translations, keyPath, Split(keyPath, '.'));
  }

  /** `TFullPath` with the split path named. */
  lemma TFullPathOf(translations: Tree, keyPath: string, keys: seq<string>)
    requires keys == Split(keyPath, '.') && |keys| > 0 && PathPresent(translations, keys)
    ensures var last := |keys| - 1;
            T(translations, keyPath) == Lookup(translations, keys[..last]).value.children[keys[last]]
  {
    LookupFullPath(translations, keys);
    TOfLookup(translations, keyPath, keys, Lookup(translations, keys).value);
  }

  /** A successful walk over the split path is what `t` returns. */
  lemma TOfLookup(translations: Tree, keyPath: string, keys: seq<string>, found: Tree)
    requires keys == Split(keyPath, '.') && Lookup(translations, keys) == Some(found)
    ensures T(translations, keyPath) == found
  {
  }

  /** A present non-empty path leads to the last segment's value in its parent. */
  lemma LookupFullPath(value: Tree, keys: seq<string>)
    requires |keys| > 0 && PathPresent(value, keys)
    ensures var last := |keys| - 1;
            Lookup(value, keys) == Some(Lookup(value, keys[..last]).value.children[keys[last]])
  {
    var n := |keys|;
    var reached := Lookup(value, keys[..n - 1]);
    assert reached.Some? && HasKey(reached.value, keys[n - 1]);
    LookupStep(value, keys, n - 1);
    assert keys[..n] == keys;
  }

  /** When some segment is not present, `t` returns the key path. */
  lemma TAbsentPath(translations: Tree, keyPath: string)
    requires !PathPresent(translations, Split(keyPath, '.'))
    ensures T(translations, keyPath) == Leaf(keyPath)
  {
    LookupSomeIffPathPresent(translations, Split(keyPath, '.'));
  }

  /** An empty key path is the single empty segment, which a bundle rarely holds. */
  lemma TEmptyKeyPath(translations: Tree)
    requires !HasKey(translations, "")
    ensures T(translations, "") == Leaf("")
  {
    assert Split("", '.') == [""];
  }

  /** A dotted path into a merged translation object descends through its top-level key. */
  lemma LookupTopLevel(bundle: Bundle, key: string, rest: string)
    requires '.' !in key
    ensures Lookup(Node(bundle), Split(key + "." + rest, '.')) ==
              if key in bundle then Lookup(bundle[key], Split(rest, '.')) else None
  {
    SplitAfterRun(key, '.', rest);
    var keys := Split(key + "." + rest, '.');
    assert keys[0] == key && keys[1..] == Split(rest, '.');
  }

  /**
   * `t(loadTranslations(lang, page), "common.x")` resolves `x` in the language's
   * common bundle, unless the page bundle has its own `common` key.
   */
  lemma CommonPathsResolve(table: Translations, lang: string, page: Page, rest: string)
    requires WellFormed(table)
    requires "common" !in Section(LangData(table, lang), PageKey(page))
    ensures Lookup(Node(LoadTranslations(table, lang, page)), Split("common." + rest, '.')) ==
              Lookup(Node(LangData(table, lang)["common"]), Split(rest, '.'))
  {
    assert "common." + rest == "common" + "." + rest;
    LookupTopLevel(LoadTranslations(table, lang, page), "common", rest);
  }

  /** A path whose first segment is a page key resolves inside the page bundle. */
  lemma PagePathsResolve(table: Translations, lang: string, page: Page, key: string, rest: string)
    requires WellFormed(table)
    requires '.' !in key
    requires key in Section(LangData(table, lang), PageKey(page))
    ensures Lookup(Node(LoadTranslations(table, lang, page)), Split(key + "." + rest, '.')) ==
              Lookup(Section(LangData(table, lang), PageKey(page))[key], Split(rest, '.'))
  {
    LookupTopLevel(LoadTranslations(table, lang, page), key, rest);
  }

  // ---------------------------------------------------------------------------
  // Alternate-language paths and canonical URLs

  datatype AlternatePaths = AlternatePaths(ro: string, en: string)

  /**
   * The Romanian and English paths of the page at `currentPath`: one leading
   * "/en" is removed (with no segment boundary), the Romanian path is what is
   * left or "/", and the English path is "/en" before what is left.
   * `currentLang` is not consulted.
   */
  function GetAlternatePaths(currentLang: Lang, currentPath: string): (r: AlternatePaths)
    ensures StartsWith(currentPath, "/en") ==> r.en == currentPath
    ensures !StartsWith(currentPath, "/en") ==> r.en == "/en" + currentPath
    ensures r.ro != ""
    ensures r.en == "/en" + r.ro || (r.ro == "/" && r.en == "/en")
  {
    var basePath := StripPrefix(currentPath, "/en");
    AlternatePaths(if basePath == "" then "/" else basePath, "/en" + basePath)
  }

  /** The current language makes no difference. */
  lemma AlternatePathsIgnoreLang(currentPath: string)
    ensures GetAlternatePaths(Ro, currentPath) == GetAlternatePaths(En, currentPath)
  {
  }

  /** Feeding the English path back in reproduces the same pair. */
  lemma AlternatePathsFixpoint(lang: Lang, other: Lang, currentPath: string)
    ensures GetAlternatePaths(other, GetAlternatePaths(lang, currentPath).en) ==
            GetAlternatePaths(lang, currentPath)
  {
    var basePath := StripPrefix(currentPath, "/en");
    var en := "/en" + basePath;
    assert StartsWith(en, "/en") && en[3..] == basePath;
  }

  lemma AlternatePathsExamples()
    ensures GetAlternatePaths(En, "/en/services") == AlternatePaths("/services", "/en/services")
    ensures GetAlternatePaths(Ro, "/services") == AlternatePaths("/services", "/en/services")
    ensures GetAlternatePaths(Ro, "/") == AlternatePaths("/", "/en/")
    ensures GetAlternatePaths(En, "/en") == AlternatePaths("/", "/en")
    ensures GetAlternatePaths(Ro, "") == AlternatePaths("/", "/en")
    ensures GetAlternatePaths(Ro, "/english") == AlternatePaths("glish", "/english")
  {
    assert StartsWith("/en/services", "/en") && "/en/services"[3..] == "/services";
    assert "/services"[..3][1] == 's';
    assert !StartsWith("/", "/en");
    assert StartsWith("/en", "/en") && "/en"[3..] == "";
    assert StartsWith("/english", "/en") && "/english"[3..] == "glish";
  }

  const BaseDomain := "https://signalforge.ro"

  /** The path with a leading "/" added when it lacks one. */
  function CleanPath(path: string): (p: string)
    ensures StartsWith(p, "/")
    ensures EndsWith(p, path)
    ensures StartsWith(path, "/") ==> p == path
    ensures |p| <= |path| + 1
  {
    if StartsWith(path, "/") then path else "/" + path
  }

  /** The path segment that marks a language in a URL. */
  function LangSegment(lang: Lang): string
  {
    match lang
    case Ro => ""
    case En => "/en"
  }

  /** The canonical URL of `path` in `lang`. */
  function GetPageUrl(lang: Lang, path: string): (url: string)
    ensures StartsWith(url, BaseDomain + "/")
    ensures EndsWith(url, path)
    ensures lang == En ==> StartsWith(url, BaseDomain + "/en/")
    ensures lang == Ro ==> url == BaseDomain + CleanPath(path)
  {
    var cleanPath := CleanPath(path);
    var url := BaseDomain + LangSegment(lang) + cleanPath;
    PageUrlShape(BaseDomain, LangSegment(lang), cleanPath, path);
    UnderEnglishSegment(BaseDomain, url);
    url
  }

  /** `domain + segment + cleanPath` starts with `domain + segment + "/"` and ends with `path`. */
  lemma PageUrlShape(domain: string, segment: string, cleanPath: string, path: string)
    requires StartsWith(cleanPath, "/") && EndsWith(cleanPath, path)
    ensures StartsWith(domain + segment + cleanPath, domain + segment + "/")
    ensures EndsWith(domain + segment + cleanPath, path)
  {
    var rest := cleanPath[1..];
    assert cleanPath == "/" + rest;
    assert domain + segment + cleanPath == (domain + segment + "/") + rest;
    ConcatEnds(domain + segment + "/", rest);
    ConcatEnds(domain + segment, cleanPath);
    EndsWithTransitive(domain + segment + cleanPath, cleanPath, path);
  }

  /** What starts with `domain + "/en/"` starts with `domain + "/"`. */
  lemma UnderEnglishSegment(domain: string, url: string)
    ensures StartsWith(url, domain + "/en" + "/") ==> StartsWith(url, domain + "/")
  {
    if StartsWith(url, domain + "/en" + "/") {
      assert domain + "/en" + "/" == (domain + "/") + "en/";
      ConcatEnds(domain + "/", "en/");
      StartsWithTransitive(url, domain + "/en" + "/", domain + "/");
    }
  }

  /**
   * The English URL of a path is the Romanian URL of that path, cleaned, with
   * "/en" in front: the language only inserts the segment.
   */
  lemma EnglishUrlInsertsSegment(path: string)
    ensures GetPageUrl(En, path) == GetPageUrl(Ro, "/en" + CleanPath(path))
  {
    var cleanPath := CleanPath(path);
    ConcatEnds("/en", cleanPath);
    assert CleanPath("/en" + cleanPath) == "/en" + cleanPath;
    assert BaseDomain + "/en" + cleanPath == BaseDomain + ("/en" + cleanPath);
  }

  /** The pathname of a canonical URL: what follows the domain. */
  function Pathname(url: string): string
    requires StartsWith(url, BaseDomain)
  {
    url[|BaseDomain|..]
  }

  /**
   * Reading the language back from a canonical URL's pathname gives `lang`,
   * except for a Romanian page whose path itself begins with "/en", which
   * reads as English.
   */
  lemma PageUrlLanguage(lang: Lang, path: string)
    ensures GetLangFromParams(Pathname(GetPageUrl(lang, path))) == lang <==>
            (lang == En || !StartsWith(CleanPath(path), "/en"))
  {
    var cleanPath := CleanPath(path);
    var url := GetPageUrl(lang, path);
    assert url == BaseDomain + LangSegment(lang) + cleanPath;
    DropDomain(BaseDomain, LangSegment(lang), cleanPath);
    LangOfPathname(lang, cleanPath);
  }

  /** The language read from a language segment followed by a path. */
  lemma LangOfPathname(lang: Lang, cleanPath: string)
    ensures GetLangFromParams(LangSegment(lang) + cleanPath) == lang <==>
            (lang == En || !StartsWith(cleanPath, "/en"))
  {
    if lang == En {
      ConcatEnds("/en", cleanPath);
    } else {
      assert LangSegment(lang) + cleanPath == cleanPath;
    }
  }

  lemma DropDomain(domain: string, segment: string, cleanPath: string)
    ensures (domain + segment + cleanPath)[|domain|..] == segment + cleanPath
  {
    assert domain + segment + cleanPath == domain + (segment + cleanPath);
  }

  /**
   * For a rooted path outside "/en", the canonical URLs are the domain before
   * the alternate-language paths.
   */
  lemma PageUrlMatchesAlternatePaths(path: string)
    requires StartsWith(path, "/") && !StartsWith(path, "/en")
    ensures GetPageUrl(Ro, path) == BaseDomain + GetAlternatePaths(Ro, path).ro
    ensures GetPageUrl(En, path) == BaseDomain + GetAlternatePaths(Ro, path).en
  {
    assert BaseDomain + "/en" + path == BaseDomain + ("/en" + path);
  }
}
