/**
 * The theme configuration: its record types, the locale-keyed values and
 * their three-step fallback lookup, the per-locale view `getThemeConfig`
 * builds, and the module-level cell `defineConfig` writes.
 */
module Theme {
  import opened Js

  datatype SiteConfig = SiteConfig(
    title: Option<string>,
    description: Option<string>,
    keywords: Option<seq<string>>,
    author: Option<string>,
    language: Option<string>,
    timezone: Option<string>,
    url: Option<string>,
    root: Option<string>,
    separator: Option<string>,
    copyright: Option<string>)

  datatype ProfileConfig = ProfileConfig(
    name: Option<string>,
    avatar: Option<string>,
    email: Option<string>,
    github: Option<string>,
    bio: Option<string>,
    twitter: Option<string>,
    facebook: Option<string>,
    instagram: Option<string>)

  /**
   * A menu entry. A missing `id` is the empty string (both are falsy); the
   * entries of a `children` array may be `null`, which `None` stands for;
   * `children` itself is absent (`NoChildren`) or an array (`Children`).
   */
  datatype MenuItem = MenuItem(
    id: string,
    name: string,
    href: Option<string>,
    icon: Option<string>,
    children: Submenu)

  /** The optional `children` array of a menu entry. */
  datatype Submenu = NoChildren | Children(items: seq<Option<MenuItem>>)

  type MenuConfig = seq<Option<MenuItem>>

  /** One section of the about page; only its kind and title are kept. */
  datatype AboutSection = AboutSection(sectionType: string, title: string)

  type AboutConfig = seq<AboutSection>

  datatype MetaConfig = MetaConfig(metaGenerator: Option<bool>)

  datatype DateTimeConfig = DateTimeConfig(dateFormat: Option<string>, timeFormat: Option<string>, updatedOption: Option<string>)

  datatype PaginationConfig = PaginationConfig(pageSize: Option<int>, orderBy: Option<string>, prefix: Option<string>)

  /** The `filter` entry of the stored configuration (read by the filter helpers). */
  datatype FilterConfig = FilterConfig(column: Option<string>)

  /**
   * A value that may be given per locale. `Direct` is the value itself: a
   * record (whose field names hold no `-`) or an array. `Keyed` is a plain
   * object, its keys in `Object.keys` order, each mapping to a value or to
   * `undefined`.
   */
  datatype Localized<T> = Direct(value: T) | Keyed(entries: seq<(string, Option<T>)>)

  /** The keys of a plain object are distinct. */
  predicate DistinctKeys<T>(entries: seq<(string, Option<T>)>) {
    forall i, j :: 0 <= i < j < |entries| ==> entries[i].0 != entries[j].0
  }

  /** `isLocalizedConfig`: a non-empty plain object with some key containing `-`. */
  predicate IsLocalizedConfig<T>(config: Option<Localized<T>>) {
    config.Some? && config.value.Keyed? &&
    var entries := config.value.entries;
    |entries| > 0 && exists k :: 0 <= k < |entries| && Contains(entries[k].0, "-")
  }

  /** The position of `key` among the keys. */
  function FindKey<T>(entries: seq<(string, Option<T>)>, key: string): (r: Option<nat>)
    ensures r.Some? ==> r.value < |entries| && entries[r.value].0 == key
    ensures r.Some? ==> forall j :: 0 <= j < r.value ==> entries[j].0 != key
    ensures r.None? ==> forall j :: 0 <= j < |entries| ==> entries[j].0 != key
  {
    if entries == [] then None
    else if entries[0].0 == key then Some(0)
    else match FindKey(entries[1..], key)
      case None => None
      case Some(i) => Some(i + 1)
  }

  /** The position of the first key that starts with `lang`. */
  function FindKeyWithPrefix<T>(entries: seq<(string, Option<T>)>, lang: string): (r: Option<nat>)
    ensures r.Some? ==> r.value < |entries| && StartsWith(entries[r.value].0, lang)
    ensures r.Some? ==> forall j :: 0 <= j < r.value ==> !StartsWith(entries[j].0, lang)
    ensures r.None? ==> forall j :: 0 <= j < |entries| ==> !StartsWith(entries[j].0, lang)
  {
    if entries == [] then None
    else if StartsWith(entries[0].0, lang) then Some(0)
    else match FindKeyWithPrefix(entries[1..], lang)
      case None => None
      case Some(i) => Some(i + 1)
  }

  /** `localizedConfig[key]` for the key at position `i`, as the value handed back. */
  function ValueAt<T>(entries: seq<(string, Option<T>)>, i: nat): Option<Localized<T>>
    requires i < |entries|
  {
    match entries[i].1
    case None => None
    case Some(v) => Some(Direct(v))
  }

  /** The language part of a locale: the text before its first `-`. */
  function Language(locale: string): string {
    Split(locale, "-")[0]
  }

  /**
   * `getLocalizedValue(config, locale)`: `None` for a missing config; for a
   * localized one, the exactly matching truthy value, else the value of the
   * first key starting with the language, else the first key's value; any
   * other config is handed back unchanged.
   */
  function GetLocalizedValue<T>(config: Option<Localized<T>>, locale: string): Option<Localized<T>> {
    if config.None? then None
    else if IsLocalizedConfig(config) then
      var entries := config.value.entries;
      var exact := FindKey(entries, locale);
      if exact.Some? && entries[exact.value].1.Some? then ValueAt(entries, exact.value)
      else
        var langMatch := FindKeyWithPrefix(entries, Language(locale));
        if langMatch.Some? && entries[langMatch.value].0 != "" then ValueAt(entries, langMatch.value)
        else ValueAt(entries, 0)
    else config
  }

  /** The stored configuration (`FullThemeConfig`, plus the `filter` entry the filter helpers read). */
  datatype FullThemeConfig = FullThemeConfig(
    site: Option<Localized<SiteConfig>>,
    profile: Option<Localized<ProfileConfig>>,
    menu: Option<Localized<MenuConfig>>,
    about: Option<Localized<AboutConfig>>,
    meta: Option<MetaConfig>,
    datetime: Option<DateTimeConfig>,
    pagination: Option<PaginationConfig>,
    filter: Option<FilterConfig>)

  /** `{}`: the cell's value before any `defineConfig`. */
  const EmptyConfig := FullThemeConfig(None, None, None, None, None, None, None, None)

  /** What `getThemeConfig` returns. */
  datatype ResolvedThemeConfig = ResolvedThemeConfig(
    site: Option<Localized<SiteConfig>>,
    profile: Option<Localized<ProfileConfig>>,
    menu: Option<Localized<MenuConfig>>,
    about: Option<Localized<AboutConfig>>,
    meta: Option<MetaConfig>,
    datetime: Option<DateTimeConfig>,
    pagination: Option<PaginationConfig>)

  /** The locale `getThemeConfig` uses when none is given. */
  const DefaultLocale := "zh-CN"

  /**
   * `getThemeConfig(locale)` over the stored configuration `c`: the four
   * localizable fields resolved for `locale`, the other three passed through.
   */
  function ResolveThemeConfig(c: FullThemeConfig, locale: string): (r: ResolvedThemeConfig)
    ensures r.meta == c.meta && r.datetime == c.datetime && r.pagination == c.pagination
  {
    ResolvedThemeConfig(
      GetLocalizedValue(c.site, locale),
      GetLocalizedValue(c.profile, locale),
      GetLocalizedValue(c.menu, locale),
      GetLocalizedValue(c.about, locale),
      c.meta, c.datetime, c.pagination)
  }

  /** The module-level `themeConfig` cell. */
  class ThemeStore {
    var config: FullThemeConfig

    /** `let themeConfig = {}`. */
    constructor()
      ensures config == EmptyConfig
    {
      config := EmptyConfig;
    }

    /** `defineConfig(c)`: the cell is replaced by a copy of `c`, not merged with what it held. */
    method DefineConfig(c: FullThemeConfig) returns (r: FullThemeConfig)
      modifies this
      ensures config == c && r == c
    {
      config := c;
      r := config;
    }

    /** `getThemeConfig(locale = 'zh-CN')` on the current contents of the cell: a missing locale resolves as `zh-CN`. */
    function GetThemeConfig(locale: Option<string>): (r: ResolvedThemeConfig)
      reads this
      ensures locale.None? ==> r == ResolveThemeConfig(config, "zh-CN")
      ensures locale.Some? ==> r == ResolveThemeConfig(config, locale.value)
    {
      ResolveThemeConfig(config, locale.GetOr(DefaultLocale))
    }
  }

  // ---- Properties ----

  /** `isLocalizedConfig` is false for a missing config, a record or array, and an empty object; otherwise it tests for a `-` in some key. */
  lemma IsLocalizedConfigCases<T>(config: Option<Localized<T>>)
    ensures config.None? ==> !IsLocalizedConfig(config)
    ensures config.Some? && config.value.Direct? ==> !IsLocalizedConfig(config)
    ensures config == Some(Keyed([])) ==> !IsLocalizedConfig(config)
    ensures config.Some? && config.value.Keyed? ==>
      (IsLocalizedConfig(config) <==> exists k :: 0 <= k < |config.value.entries| && Contains(config.value.entries[k].0, "-"))
  {
  }

  /** A missing config resolves to nothing; any non-localized config comes back unchanged. */
  lemma GetLocalizedValueUnlocalized<T>(config: Option<Localized<T>>, locale: string)
    requires !IsLocalizedConfig(config)
    ensures GetLocalizedValue(config, locale) == config
  {
  }

  /** An exact key whose value is set wins. */
  lemma GetLocalizedValueExact<T>(entries: seq<(string, Option<T>)>, locale: string, i: nat, v: T)
    requires IsLocalizedConfig(Some(Keyed(entries))) && DistinctKeys(entries)
    requires i < |entries| && entries[i] == (locale, Some(v))
    ensures GetLocalizedValue(Some(Keyed(entries)), locale) == Some(Direct(v))
  {
    var exact := FindKey(entries, locale);
    assert exact == Some(i) by {
      if exact.value != i {
        assert false;
      }
    }
  }

  /**
   * Without a set exact match, the first key (in key order) that starts with
   * the language part of the locale wins: a prefix test on the key, not a
   * comparison of language subtags.
   */
  lemma GetLocalizedValueLanguage<T>(entries: seq<(string, Option<T>)>, locale: string, i: nat)
    requires IsLocalizedConfig(Some(Keyed(entries)))
    requires FindKey(entries, locale).None? || entries[FindKey(entries, locale).value].1.None?
    requires i < |entries| && StartsWith(entries[i].0, Language(locale)) && entries[i].0 != ""
    requires forall j :: 0 <= j < i ==> !StartsWith(entries[j].0, Language(locale))
    ensures GetLocalizedValue(Some(Keyed(entries)), locale) == ValueAt(entries, i)
  {
    var m := FindKeyWithPrefix(entries, Language(locale));
    assert m == Some(i) by {
      if m.value < i {
        assert false;
      } else if m.value > i {
        assert false;
      }
    }
  }

  /** With neither an exact nor a language match, the first key's value is taken. */
  lemma GetLocalizedValueFirst<T>(entries: seq<(string, Option<T>)>, locale: string)
    requires IsLocalizedConfig(Some(Keyed(entries)))
    requires FindKey(entries, locale).None? || entries[FindKey(entries, locale).value].1.None?
    requires forall j :: 0 <= j < |entries| ==> !StartsWith(entries[j].0, Language(locale))
    ensures GetLocalizedValue(Some(Keyed(entries)), locale) == ValueAt(entries, 0)
  {
  }

  /** A localized config always resolves to the value of one of its keys. */
  lemma GetLocalizedValueIsSomeValue<T>(entries: seq<(string, Option<T>)>, locale: string)
    requires IsLocalizedConfig(Some(Keyed(entries)))
    ensures exists k :: 0 <= k < |entries| && GetLocalizedValue(Some(Keyed(entries)), locale) == ValueAt(entries, k)
  {
    var exact := FindKey(entries, locale);
    if exact.Some? && entries[exact.value].1.Some? {
      assert GetLocalizedValue(Some(Keyed(entries)), locale) == ValueAt(entries, exact.value);
    } else {
      var m := FindKeyWithPrefix(entries, Language(locale));
      if m.Some? && entries[m.value].0 != "" {
        assert GetLocalizedValue(Some(Keyed(entries)), locale) == ValueAt(entries, m.value);
      } else {
        assert GetLocalizedValue(Some(Keyed(entries)), locale) == ValueAt(entries, 0);
      }
    }
  }

  /** After `defineConfig(c)`, `getThemeConfig` sees `c` alone, whatever the cell held before. */
  method DefineThenResolve(store: ThemeStore, c: FullThemeConfig, locale: Option<string>) returns (r: ResolvedThemeConfig)
    modifies store
    ensures store.config == c
    ensures r == ResolveThemeConfig(c, locale.GetOr("zh-CN"))
  {
    var _ := store.DefineConfig(c);
    r := store.GetThemeConfig(locale);
  }

  // ---- The shipped example configuration ----

  function Item(id: string, href: string, name: string): MenuItem {
    MenuItem(id, name, Some(href), None, NoChildren)
  }

  /** An excerpt of the example configuration's menu, in both locales: its `home` and `coding` items only. */
  function ExampleMenu(): Localized<MenuConfig> {
    Keyed([
      ("zh-CN", Some([Some(Item("home", "/", "主页")), Some(Item("coding", "/categories/coding", "编程"))])),
      ("en-US", Some([Some(Item("home", "/", "Home")), Some(Item("coding", "/categories/coding", "Coding"))]))
    ])
  }

  lemma LanguageOf()
    ensures Language("en-GB") == "en"
    ensures Language("ja-JP") == "ja"
    ensures Language("z-Q") == "z"
  {
    IndexOfCharAt("en-GB", '-', 2);
    IndexOfCharNone("GB", '-');
    assert "en-GB"[3..] == "GB";
    IndexOfCharAt("ja-JP", '-', 2);
    IndexOfCharNone("JP", '-');
    assert "ja-JP"[3..] == "JP";
    IndexOfCharAt("z-Q", '-', 1);
    IndexOfCharNone("Q", '-');
    assert "z-Q"[2..] == "Q";
  }

  /** The facts about the two example keys, `zh-CN` then `en-US`, that the lookups below need. */
  lemma TwoLocaleKeys<T>(es: seq<(string, Option<T>)>)
    requires |es| == 2 && es[0].0 == "zh-CN" && es[1].0 == "en-US"
    ensures IsLocalizedConfig(Some(Keyed(es))) && DistinctKeys(es)
    ensures FindKey(es, "en-US") == Some(1)
    ensures FindKey(es, "en-GB") == None && FindKey(es, "ja-JP") == None && FindKey(es, "z-Q") == None
  {
    IndexOfCharAt(es[0].0, '-', 2);
    assert es[0].0[0] == 'z' && es[1].0[0] == 'e';
    assert "en-GB"[3] != es[1].0[3];
  }

  lemma TwoLocalePrefixes<T>(es: seq<(string, Option<T>)>)
    requires |es| == 2 && es[0].0 == "zh-CN" && es[1].0 == "en-US"
    ensures !StartsWith(es[0].0, "en") && StartsWith(es[1].0, "en")
    ensures !StartsWith(es[0].0, "ja") && !StartsWith(es[1].0, "ja")
    ensures StartsWith(es[0].0, "z")
  {
    assert es[0].0[0] == 'z' && es[1].0[0] == 'e';
    assert es[1].0[..2] == "en";
    assert es[0].0[..1] == "z";
  }

  lemma ExampleMenuShape()
    ensures var es := ExampleMenu().entries;
      |es| == 2 && es[0].0 == "zh-CN" && es[1].0 == "en-US" && es[0].1.Some? && es[1].1.Some?
  {
  }

  /** The example menu resolves by exact key for `en-US`. */
  lemma ExampleMenuExact()
    ensures GetLocalizedValue(Some(ExampleMenu()), "en-US") == Some(Direct(ExampleMenu().entries[1].1.value))
  {
    var es := ExampleMenu().entries;
    ExampleMenuShape();
    TwoLocaleKeys(es);
    GetLocalizedValueExact(es, "en-US", 1, es[1].1.value);
  }

  /** `en-GB` has no key of its own and takes the first key starting with `en`. */
  lemma ExampleMenuLanguage()
    ensures GetLocalizedValue(Some(ExampleMenu()), "en-GB") == Some(Direct(ExampleMenu().entries[1].1.value))
  {
    var es := ExampleMenu().entries;
    ExampleMenuShape();
    TwoLocaleKeys(es);
    TwoLocalePrefixes(es);
    LanguageOf();
    GetLocalizedValueLanguage(es, "en-GB", 1);
  }

  /** `ja-JP` matches no key and falls back to the first one. */
  lemma ExampleMenuFirst()
    ensures GetLocalizedValue(Some(ExampleMenu()), "ja-JP") == Some(Direct(ExampleMenu().entries[0].1.value))
  {
    var es := ExampleMenu().entries;
    ExampleMenuShape();
    TwoLocaleKeys(es);
    TwoLocalePrefixes(es);
    LanguageOf();
    GetLocalizedValueFirst(es, "ja-JP");
  }

  /** The language test is a key prefix test: `z-Q` picks `zh-CN`. */
  lemma ExampleMenuPrefixNotSubtag()
    ensures GetLocalizedValue(Some(ExampleMenu()), "z-Q") == Some(Direct(ExampleMenu().entries[0].1.value))
  {
    var es := ExampleMenu().entries;
    ExampleMenuShape();
    TwoLocaleKeys(es);
    TwoLocalePrefixes(es);
    LanguageOf();
    GetLocalizedValueLanguage(es, "z-Q", 0);
  }
}
