/**
 * The SEO properties of a page: the title with its separator, the
 * description and keyword fallbacks, the Open Graph and Twitter values,
 * the language alternates, and the article metadata that only articles get.
 */
module Seo {
  import opened Js
  import Theme
  import Print
  import I18n

  /** `string | Date`: a date given as text, or a `Date` object (always truthy). */
  datatype DateValue = DateText(text: string) | DateObject(time: int)

  /** The page content the properties are computed from. */
  datatype SEOContent = SEOContent(
    title: Option<string>,
    description: Option<string>,
    image: Option<string>,
    date: Option<DateValue>,
    updated: Option<DateValue>,
    category: Option<string>,
    tags: Option<seq<string>>)

  /** `{ site?, profile? }`. */
  datatype SEOConfigSource = SEOConfigSource(site: Option<Theme.SiteConfig>, profile: Option<Theme.ProfileConfig>)

  /** The i18next instance, reduced to what is read from it: `options.supportedLngs`. */
  datatype I18nInstance = I18nInstance(supportedLngs: Option<seq<string>>)

  /** A `<meta>` entry: by `name` for the basic tags or by `property` for the article tags. */
  datatype Meta = NameMeta(name: string, content: string) | PropertyMeta(property: string, content: string)

  /** `openGraph.article`. */
  datatype ArticleBlock = ArticleBlock(
    publishedTime: Option<string>,
    modifiedTime: Option<string>,
    authors: seq<string>,
    section: Option<string>,
    tags: seq<string>)

  /** What `generateSEOProps` returns, without its constant entries. */
  datatype SEOProps = SEOProps(
    title: string,
    description: string,
    canonical: string,
    languageAlternates: seq<I18n.Alternate>,
    ogTitle: string,
    ogType: string,
    ogImage: string,
    ogUrl: string,
    siteName: string,
    ogLocale: string,
    localeAlternate: seq<string>,
    article: Option<ArticleBlock>,
    imageAlt: string,
    twitterSite: Option<string>,
    twitterTitle: string,
    meta: seq<Meta>)

  /** A string operand of `||` or `?:` is truthy when present and non-empty. */
  predicate Truthy(s: Option<string>) {
    s.Some? && s.value != ""
  }

  /** `a || b` for strings. */
  function Or(a: Option<string>, b: string): (r: string)
    ensures Truthy(a) ==> r == a.value
    ensures !Truthy(a) ==> r == b
  {
    if Truthy(a) then a.value else b
  }

  /** A date field is truthy unless missing or the empty string. */
  predicate DateTruthy(d: Option<DateValue>) {
    d.Some? && (d.value.DateText? ==> d.value.text != "")
  }

  function SiteField(config: SEOConfigSource, f: Theme.SiteConfig -> Option<string>): Option<string> {
    if config.site.Some? then f(config.site.value) else None
  }

  /** `config.profile?.name`. */
  function ProfileName(config: SEOConfigSource): Option<string> {
    if config.profile.Some? then config.profile.value.name else None
  }

  /** `config.site?.keywords`. */
  function SiteKeywords(config: SEOConfigSource): Option<seq<string>> {
    if config.site.Some? then config.site.value.keywords else None
  }

  // ---- Helpers ----

  /** `isArticle(content)`: a truthy date or category marks an article. */
  predicate IsArticle(content: SEOContent) {
    DateTruthy(content.date) || Truthy(content.category)
  }

  /** `getArticleAuthors(config)`: always one author, the profile name, else the site author, else `''`. */
  function GetArticleAuthors(config: SEOConfigSource): (r: seq<string>)
    ensures |r| == 1
    ensures Truthy(ProfileName(config)) ==> r[0] == ProfileName(config).value
    ensures !Truthy(ProfileName(config)) ==> r[0] == Or(SiteField(config, (s: Theme.SiteConfig) => s.author), "")
  {
    [Or(ProfileName(config), Or(SiteField(config, (s: Theme.SiteConfig) => s.author), ""))]
  }

  /** The default separator of `generateTitle`. */
  const TitleSeparator := " - "

  /** `generateTitle(separator, contentTitle, siteTitle)`. */
  function GenerateTitle(separator: Option<string>, contentTitle: Option<string>, siteTitle: Option<string>): (r: string)
    ensures !Truthy(contentTitle) ==> r == Or(siteTitle, "")
    ensures Truthy(contentTitle) && !Truthy(siteTitle) ==> r == contentTitle.value
    ensures Truthy(contentTitle) && Truthy(siteTitle) ==>
      r == contentTitle.value + Or(separator, TitleSeparator) + siteTitle.value
  {
    if !Truthy(contentTitle) then Or(siteTitle, "")
    else if !Truthy(siteTitle) then contentTitle.value
    else contentTitle.value + Or(separator, TitleSeparator) + siteTitle.value
  }

  /**
   * The title is the theme's `print` of the two titles, with the separator
   * `separator || ' - '`: so an empty separator falls back to the default,
   * where `print` would keep it.
   */
  lemma TitleIsPrint(separator: Option<string>, contentTitle: Option<string>, siteTitle: Option<string>)
    ensures GenerateTitle(separator, contentTitle, siteTitle)
      == Print.Print(Some(Or(separator, TitleSeparator)), [contentTitle, siteTitle])
  {
    var args := [contentTitle, siteTitle];
    assert args[1..] == [siteTitle];
    assert [siteTitle][1..] == [];
    var first := if Truthy(contentTitle) then [contentTitle.value] else [];
    var last := if Truthy(siteTitle) then [siteTitle.value] else [];
    assert Print.Truthy([siteTitle]) == last + Print.Truthy([]);
    assert Print.Truthy(args) == first + last;
    if first != [] && last != [] {
      assert first + last == [contentTitle.value, siteTitle.value];
      assert [contentTitle.value, siteTitle.value][1..] == [siteTitle.value];
      var sep := Or(separator, TitleSeparator);
      assert Join([contentTitle.value, siteTitle.value], sep)
        == contentTitle.value + sep + Join([siteTitle.value], sep);
    } else if first != [] {
      assert first + last == [contentTitle.value];
    } else if last != [] {
      assert first + last == [siteTitle.value];
    } else {
      assert first + last == [];
    }
  }

  /** Both titles appear whole: the content title leads and the site title ends the result. */
  lemma TitleEnds(separator: Option<string>, contentTitle: string, siteTitle: string)
    requires contentTitle != "" && siteTitle != ""
    ensures var r := GenerateTitle(separator, Some(contentTitle), Some(siteTitle));
      StartsWith(r, contentTitle) && EndsWith(r, siteTitle)
  {
    var r := GenerateTitle(separator, Some(contentTitle), Some(siteTitle));
    var sep := Or(separator, TitleSeparator);
    assert r == contentTitle + (sep + siteTitle);
    assert r[..|contentTitle|] == contentTitle;
    assert r[|r| - |siteTitle|..] == siteTitle;
  }

  // ---- The properties ----

  /** `new Date(d).toISOString()` of a truthy date field, else `undefined`. */
  function IsoTime(d: Option<DateValue>, toISOString: DateValue -> string): Option<string> {
    if DateTruthy(d) then Some(toISOString(d.value)) else None
  }

  function Author(config: SEOConfigSource): string {
    Or(SiteField(config, (s: Theme.SiteConfig) => s.author), "")
  }

  /** `(content.tags || config.site?.keywords || [])`: an array is truthy even when empty. */
  function KeywordList(content: SEOContent, config: SEOConfigSource): seq<string> {
    if content.tags.Some? then content.tags.value
    else if SiteKeywords(config).Some? then SiteKeywords(config).value
    else []
  }

  /** The ten basic `name` metas; `themeColor` is `PUBLIC_THEME_COLOR`. */
  function BasicMeta(content: SEOContent, config: SEOConfigSource, themeColor: Option<string>): seq<Meta> {
    var color := Or(themeColor, "#1f2937");
    [ NameMeta("author", Author(config)),
      NameMeta("keywords", Join(KeywordList(content, config), ", ")),
      NameMeta("robots", "index, follow"),
      NameMeta("format-detection", "telephone=no"),
      NameMeta("mobile-web-app-capable", "yes"),
      NameMeta("apple-mobile-web-app-capable", "yes"),
      NameMeta("apple-mobile-web-app-status-bar-style", "black-translucent"),
      NameMeta("theme-color", color),
      NameMeta("msapplication-TileColor", color),
      NameMeta("copyright", Or(SiteField(config, (s: Theme.SiteConfig) => s.copyright), "")) ]
  }

  /** One `article:tag` meta per tag, in order. */
  function TagMeta(tags: seq<string>): (r: seq<Meta>)
    ensures |r| == |tags|
    ensures forall i :: 0 <= i < |r| ==> r[i] == PropertyMeta("article:tag", tags[i])
  {
    if tags == [] then [] else [PropertyMeta("article:tag", tags[0])] + TagMeta(tags[1..])
  }

  /** A meta list entry given only when its value is truthy. */
  function OptionalMeta(property: string, value: Option<string>): seq<Meta> {
    if Truthy(value) then [PropertyMeta(property, value.value)] else []
  }

  /** The `article:*` metas: the author, the times and the section when set, then the tags. */
  function ArticleMeta(content: SEOContent, config: SEOConfigSource, toISOString: DateValue -> string): seq<Meta> {
    ArticleMetaOf(Or(ProfileName(config), "Caster"), IsoTime(content.date, toISOString),
      IsoTime(content.updated, toISOString), content.category, content.tags.GetOr([]))
  }

  /** The article metas over their parts. */
  function ArticleMetaOf(author: string, published: Option<string>, modified: Option<string>, section: Option<string>, tags: seq<string>): seq<Meta> {
    [PropertyMeta("article:author", author)]
      + OptionalMeta("article:published_time", published)
      + OptionalMeta("article:modified_time", modified)
      + OptionalMeta("article:section", section)
      + TagMeta(tags)
  }

  /** The image used when neither the content nor the environment names one. */
  const DefaultOGImage := "/images/og-default.jpg"

  /**
   * `getOGImage(content, siteUrl)`: the content's image, else the
   * `PUBLIC_OG_DEFAULT_IMAGE` setting, else the default image, resolved
   * against the site URL by `resolve` (`new URL(x, siteUrl).toString()`).
   */
  function GetOGImage(content: SEOContent, envOGImage: Option<string>, resolve: string -> string): (r: string)
    ensures Truthy(content.image) ==> r == resolve(content.image.value)
    ensures !Truthy(content.image) && Truthy(envOGImage) ==> r == resolve(envOGImage.value)
    ensures !Truthy(content.image) && !Truthy(envOGImage) ==> r == resolve(DefaultOGImage)
  {
    if Truthy(content.image) then resolve(content.image.value)
    else if Truthy(envOGImage) then resolve(envOGImage.value)
    else resolve(DefaultOGImage)
  }

  /**
   * `generateSEOProps(seoConfig)`. The environment settings
   * `PUBLIC_OG_DEFAULT_IMAGE` and `PUBLIC_THEME_COLOR`, URL resolution and
   * `toISOString` are parameters. The supported locales are read from `i18n`
   * even when it is not given, which throws a `TypeError`.
   */
  function GenerateSEOProps(
    content: SEOContent, config: SEOConfigSource, locale: string, canonicalUrl: string,
    i18n: Option<I18nInstance>, envOGImage: Option<string>, resolve: string -> string,
    themeColor: Option<string>, toISOString: DateValue -> string): Result<SEOProps>
  {
    if i18n.None? then Throws("TypeError: Cannot read properties of undefined (reading 'options')")
    else
      var ogImage := GetOGImage(content, envOGImage, resolve);
      var supported := I18n.GetSupportedLocales(i18n.value.supportedLngs);
      var title := GenerateTitle(SiteField(config, (s: Theme.SiteConfig) => s.separator), content.title,
                                 SiteField(config, (s: Theme.SiteConfig) => s.title));
      var description := Or(content.description, Or(SiteField(config, (s: Theme.SiteConfig) => s.description), ""));
      var articleType := IsArticle(content);
      var article := ArticleBlock(IsoTime(content.date, toISOString), IsoTime(content.updated, toISOString),
                                  GetArticleAuthors(config), content.category, content.tags.GetOr([]));
      var localeAlternate := I18n.OGLocales(I18n.Without(supported, locale));
      Ok(SEOProps(
        title, description, canonicalUrl,
        I18n.GenerateLanguageAlternates(canonicalUrl, locale, supported),
        Or(content.title, title),
        if articleType then "article" else "website",
        ogImage, canonicalUrl,
        Or(SiteField(config, (s: Theme.SiteConfig) => s.title), "荡れ"),
        ReplaceFirst(locale, "-", "_"),
        localeAlternate,
        if articleType then Some(article) else None,
        Or(content.title, title),
        SiteField(config, (s: Theme.SiteConfig) => s.title),
        Or(content.title, title),
        BasicMeta(content, config, themeColor) + (if articleType then ArticleMeta(content, config, toISOString) else [])))
  }

  // ---- What the properties promise ----

  /** The ten basic metas come first; the author, keywords and copyright fall back to `''`. */
  lemma BasicMetaSpec(content: SEOContent, config: SEOConfigSource, themeColor: Option<string>)
    ensures var m := BasicMeta(content, config, themeColor);
      && |m| == 10
      && m[0] == NameMeta("author", Or(SiteField(config, (s: Theme.SiteConfig) => s.author), ""))
      && m[1] == NameMeta("keywords",
           if content.tags.Some? then Join(content.tags.value, ", ")
           else if SiteKeywords(config).Some? then Join(SiteKeywords(config).value, ", ")
           else "")
      && m[7].content == m[8].content
      && (Truthy(themeColor) ==> m[7].content == themeColor.value)
      && (!Truthy(themeColor) ==> m[7].content == "#1f2937")
  {
  }

  /**
   * The article metas: the author first (the profile name, else `Caster`),
   * a published or modified time exactly when that date is truthy and its
   * ISO text non-empty (the JavaScript one never is), the
   * section exactly when the category is, and last one `article:tag` per
   * tag, in order.
   */
  lemma ArticleMetaSpec(content: SEOContent, config: SEOConfigSource, toISOString: DateValue -> string)
    ensures var m := ArticleMeta(content, config, toISOString);
      |m| >= 1 + |content.tags.GetOr([])|
      && m[0] == PropertyMeta("article:author", Or(ProfileName(config), "Caster"))
      && m[|m| - |content.tags.GetOr([])|..] == TagMeta(content.tags.GetOr([]))
    ensures forall c :: PropertyMeta("article:published_time", c) in ArticleMeta(content, config, toISOString) <==>
      DateTruthy(content.date) && c == toISOString(content.date.value) && c != ""
    ensures forall c :: PropertyMeta("article:modified_time", c) in ArticleMeta(content, config, toISOString) <==>
      DateTruthy(content.updated) && c == toISOString(content.updated.value) && c != ""
    ensures forall c :: PropertyMeta("article:section", c) in ArticleMeta(content, config, toISOString) <==>
      Truthy(content.category) && c == content.category.value
  {
    var author, published, modified, section, tags :=
      Or(ProfileName(config), "Caster"), IsoTime(content.date, toISOString),
      IsoTime(content.updated, toISOString), content.category, content.tags.GetOr([]);
    ArticleMetaOrder(author, published, modified, section, tags);
    forall c ensures
      && (PropertyMeta("article:published_time", c) in ArticleMetaOf(author, published, modified, section, tags) <==> Truthy(published) && c == published.value)
      && (PropertyMeta("article:modified_time", c) in ArticleMetaOf(author, published, modified, section, tags) <==> Truthy(modified) && c == modified.value)
      && (PropertyMeta("article:section", c) in ArticleMetaOf(author, published, modified, section, tags) <==> Truthy(section) && c == section.value)
    {
      ArticleMetaPresence(author, published, modified, section, tags, c);
    }
  }

  /** The author meta comes first and the tag metas last. */
  lemma ArticleMetaOrder(author: string, published: Option<string>, modified: Option<string>, section: Option<string>, tags: seq<string>)
    ensures var m := ArticleMetaOf(author, published, modified, section, tags);
      && |m| >= 1 + |tags| && m[0] == PropertyMeta("article:author", author)
      && m[|m| - |tags|..] == TagMeta(tags)
  {
    var m := ArticleMetaOf(author, published, modified, section, tags);
    assert m[|m| - |tags|..] == TagMeta(tags);
  }

  /** Each optional meta is there, with its value, exactly when that value is truthy. */
  lemma ArticleMetaPresence(author: string, published: Option<string>, modified: Option<string>, section: Option<string>, tags: seq<string>, c: string)
    ensures var m := ArticleMetaOf(author, published, modified, section, tags);
      && (PropertyMeta("article:published_time", c) in m <==> Truthy(published) && c == published.value)
      && (PropertyMeta("article:modified_time", c) in m <==> Truthy(modified) && c == modified.value)
      && (PropertyMeta("article:section", c) in m <==> Truthy(section) && c == section.value)
  {
    var a := [PropertyMeta("article:author", author)];
    var p := OptionalMeta("article:published_time", published);
    var mo := OptionalMeta("article:modified_time", modified);
    var s := OptionalMeta("article:section", section);
    var tm := TagMeta(tags);
    TagMetaOnlyTags(tags);
    MetaIn(PropertyMeta("article:published_time", c), a, p, mo, s, tm);
    MetaIn(PropertyMeta("article:modified_time", c), a, p, mo, s, tm);
    MetaIn(PropertyMeta("article:section", c), a, p, mo, s, tm);
  }

  /** Membership in the five parts of the article metas. */
  lemma MetaIn(x: Meta, a: seq<Meta>, p: seq<Meta>, mo: seq<Meta>, s: seq<Meta>, tm: seq<Meta>)
    ensures x in a + p + mo + s + tm <==> x in a || x in p || x in mo || x in s || x in tm
  {
  }

  /** The tag metas hold no property but `article:tag`. */
  lemma TagMetaOnlyTags(tags: seq<string>)
    ensures forall x :: x in TagMeta(tags) ==> x == PropertyMeta("article:tag", x.content)
  {
    forall x | x in TagMeta(tags) ensures x == PropertyMeta("article:tag", x.content) {
      var i :| 0 <= i < |TagMeta(tags)| && TagMeta(tags)[i] == x;
    }
  }

  /**
   * `generateSEOProps`: it throws without `i18n`; otherwise the description
   * falls back from the content to the site to `''`, an article (and only an
   * article) gets the `article` type, the article block and the article
   * metas after the ten basic ones, the Open Graph locale and its
   * alternates are those of `getOGLocale` and `getOGLocaleAlternates`, and
   * the Open Graph and Twitter titles prefer the content title.
   */
  lemma SEOPropsSpec(
    content: SEOContent, config: SEOConfigSource, locale: string, canonicalUrl: string,
    i18n: Option<I18nInstance>, envOGImage: Option<string>, resolve: string -> string,
    themeColor: Option<string>, toISOString: DateValue -> string)
    ensures var r := GenerateSEOProps(content, config, locale, canonicalUrl, i18n, envOGImage, resolve, themeColor, toISOString);
      && (r.Throws? <==> i18n.None?)
      && (r.Ok? ==>
        var p := r.value;
        var supported := I18n.GetSupportedLocales(i18n.value.supportedLngs);
        && p.description == (if Truthy(content.description) then content.description.value
             else Or(SiteField(config, (s: Theme.SiteConfig) => s.description), ""))
        && (p.ogType == "article" <==> IsArticle(content))
        && (p.article.Some? <==> IsArticle(content))
        && (p.article.Some? ==>
              p.article.value.authors == GetArticleAuthors(config) && p.article.value.tags == content.tags.GetOr([]))
        && p.meta[..10] == BasicMeta(content, config, themeColor)
        && p.meta[10..] == (if IsArticle(content) then ArticleMeta(content, config, toISOString) else [])
        && p.ogLocale == I18n.GetOGLocale(locale)
        && p.localeAlternate == I18n.GetOGLocaleAlternates(locale, supported)
        && p.languageAlternates == I18n.GenerateLanguageAlternates(canonicalUrl, locale, supported)
        && p.ogImage == GetOGImage(content, envOGImage, resolve)
        && p.ogTitle == p.twitterTitle == p.imageAlt
        && (Truthy(content.title) ==> p.ogTitle == content.title.value)
        && (!Truthy(content.title) ==> p.ogTitle == p.title)
        && p.title == GenerateTitle(SiteField(config, (s: Theme.SiteConfig) => s.separator), content.title,
                                    SiteField(config, (s: Theme.SiteConfig) => s.title))
        && p.siteName == Or(SiteField(config, (s: Theme.SiteConfig) => s.title), "荡れ")
        && p.twitterSite == SiteField(config, (s: Theme.SiteConfig) => s.title)
        && p.canonical == p.ogUrl == canonicalUrl)
  {
    if i18n.Some? {
      SEOPropsNames(content, config, locale, canonicalUrl, i18n.value, envOGImage, resolve, themeColor, toISOString);
      SEOPropsContent(content, config, locale, canonicalUrl, i18n.value, envOGImage, resolve, themeColor, toISOString);
      SEOPropsMeta(content, config, locale, canonicalUrl, i18n.value, envOGImage, resolve, themeColor, toISOString);
      SEOPropsLocales(content, config, locale, canonicalUrl, i18n.value, envOGImage, resolve, themeColor, toISOString);
    }
  }

  /** The description, type, article block, image and titles of a generated set of props. */
  lemma SEOPropsContent(
    content: SEOContent, config: SEOConfigSource, locale: string, canonicalUrl: string,
    i18n: I18nInstance, envOGImage: Option<string>, resolve: string -> string,
    themeColor: Option<string>, toISOString: DateValue -> string)
    ensures var r := GenerateSEOProps(content, config, locale, canonicalUrl, Some(i18n), envOGImage, resolve, themeColor, toISOString);
      && r.Ok?
      && r.value.description == (if Truthy(content.description) then content.description.value
           else Or(SiteField(config, (s: Theme.SiteConfig) => s.description), ""))
      && (r.value.ogType == "article" <==> IsArticle(content))
      && (r.value.article.Some? <==> IsArticle(content))
      && (r.value.article.Some? ==>
            r.value.article.value.authors == GetArticleAuthors(config) && r.value.article.value.tags == content.tags.GetOr([]))
      && r.value.ogImage == GetOGImage(content, envOGImage, resolve)
      && r.value.ogTitle == r.value.twitterTitle == r.value.imageAlt
      && (Truthy(content.title) ==> r.value.ogTitle == content.title.value)
      && (!Truthy(content.title) ==> r.value.ogTitle == r.value.title)
  {
  }

  /** The title, site name and URLs of a generated set of props. */
  lemma SEOPropsNames(
    content: SEOContent, config: SEOConfigSource, locale: string, canonicalUrl: string,
    i18n: I18nInstance, envOGImage: Option<string>, resolve: string -> string,
    themeColor: Option<string>, toISOString: DateValue -> string)
    ensures var r := GenerateSEOProps(content, config, locale, canonicalUrl, Some(i18n), envOGImage, resolve, themeColor, toISOString);
      && r.Ok?
      && r.value.title == GenerateTitle(SiteField(config, (s: Theme.SiteConfig) => s.separator), content.title,
                                        SiteField(config, (s: Theme.SiteConfig) => s.title))
      && r.value.siteName == Or(SiteField(config, (s: Theme.SiteConfig) => s.title), "荡れ")
      && r.value.twitterSite == SiteField(config, (s: Theme.SiteConfig) => s.title)
      && r.value.canonical == r.value.ogUrl == canonicalUrl
  {
  }

  /** The metas of a generated set of props: the ten basic ones, then the article ones for an article. */
  lemma SEOPropsMeta(
    content: SEOContent, config: SEOConfigSource, locale: string, canonicalUrl: string,
    i18n: I18nInstance, envOGImage: Option<string>, resolve: string -> string,
    themeColor: Option<string>, toISOString: DateValue -> string)
    ensures var r := GenerateSEOProps(content, config, locale, canonicalUrl, Some(i18n), envOGImage, resolve, themeColor, toISOString);
      && r.Ok?
      && r.value.meta[..10] == BasicMeta(content, config, themeColor)
      && r.value.meta[10..] == (if IsArticle(content) then ArticleMeta(content, config, toISOString) else [])
  {
    BasicMetaSpec(content, config, themeColor);
    MetaAfterBasic(BasicMeta(content, config, themeColor),
      if IsArticle(content) then ArticleMeta(content, config, toISOString) else []);
  }

  /** The locale entries of a generated set of props. */
  lemma SEOPropsLocales(
    content: SEOContent, config: SEOConfigSource, locale: string, canonicalUrl: string,
    i18n: I18nInstance, envOGImage: Option<string>, resolve: string -> string,
    themeColor: Option<string>, toISOString: DateValue -> string)
    ensures var r := GenerateSEOProps(content, config, locale, canonicalUrl, Some(i18n), envOGImage, resolve, themeColor, toISOString);
      var supported := I18n.GetSupportedLocales(i18n.supportedLngs);
      && r.Ok?
      && r.value.ogLocale == I18n.GetOGLocale(locale)
      && r.value.localeAlternate == I18n.GetOGLocaleAlternates(locale, supported)
      && r.value.languageAlternates == I18n.GenerateLanguageAlternates(canonicalUrl, locale, supported)
  {
  }

  /** The ten basic metas, then the rest. */
  lemma MetaAfterBasic(basic: seq<Meta>, rest: seq<Meta>)
    requires |basic| == 10
    ensures (basic + rest)[..10] == basic && (basic + rest)[10..] == rest
  {
  }
}
