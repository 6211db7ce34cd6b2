/**
 * The i18n helpers for SEO: the `hreflang` alternate links, the supported
 * locale list of the i18next instance, and the Open Graph locale format.
 */
module I18n {
  import opened Js

  /** `{ href, hrefLang }`. */
  datatype Alternate = Alternate(href: string, hrefLang: string)

  /** The list without the entries equal to `x`, in order (`filter((l) => l !== x)`). */
  function Without(locales: seq<string>, x: string): (r: seq<string>)
    ensures |r| <= |locales|
    ensures forall l :: l in r <==> l in locales && l != x
  {
    if locales == [] then []
    else (if locales[0] == x then [] else [locales[0]]) + Without(locales[1..], x)
  }

  /** Dropping the entries equal to `x` keeps the order: it distributes over concatenation. */
  lemma {:induction false} WithoutConcat(a: seq<string>, b: seq<string>, x: string)
    ensures Without(a + b, x) == Without(a, x) + Without(b, x)
    decreases |a|
  {
    if a == [] {
      assert a + b == b;
    } else {
      assert (a + b)[1..] == a[1..] + b;
      WithoutConcat(a[1..], b, x);
    }
  }

  /** A list without `x` is left unchanged by dropping `x`. */
  lemma {:induction false} WithoutAbsent(locales: seq<string>, x: string)
    requires x !in locales
    ensures Without(locales, x) == locales
    decreases |locales|
  {
    if locales != [] {
      WithoutAbsent(locales[1..], x);
    }
  }

  /** `getSupportedLocales(i18n)`: `supportedLngs`, or `[]` when it is not set, without i18next's `cimode`. */
  function GetSupportedLocales(supportedLngs: Option<seq<string>>): (r: seq<string>)
    ensures "cimode" !in r
    ensures supportedLngs.None? ==> r == []
    ensures supportedLngs.Some? ==> forall l :: l in r <==> l in supportedLngs.value && l != "cimode"
  {
    Without(supportedLngs.GetOr([]), "cimode")
  }

  /** Locales that do not include `cimode` come back as they are. */
  lemma SupportedLocalesUnchanged(supportedLngs: seq<string>)
    requires "cimode" !in supportedLngs
    ensures GetSupportedLocales(Some(supportedLngs)) == supportedLngs
  {
    WithoutAbsent(supportedLngs, "cimode");
  }

  /** `getOGLocale(locale)`: the first `-` becomes `_` (`zh-CN` to `zh_CN`); later ones stay. */
  function GetOGLocale(locale: string): (r: string)
    ensures |r| == |locale|
    ensures '-' !in locale ==> r == locale
    ensures '-' in locale ==> exists i :: (0 <= i < |locale| && locale[i] == '-' && r[i] == '_'
      && (forall j :: 0 <= j < i ==> locale[j] != '-')
      && (forall j :: 0 <= j < |locale| && j != i ==> r[j] == locale[j]))
  {
    var r := ReplaceFirst(locale, "-", "_");
    if '-' in locale then
      var i := IndexOfCharFirst(locale, '-');
      assert r == locale[..i] + "_" + locale[i + 1..];
      r
    else
      IndexOfCharNone(locale, '-');
      r
  }

  /** Where `s.indexOf(c)` finds a one-character needle that occurs: its first position. */
  function IndexOfCharFirst(s: string, c: char): (i: nat)
    requires c in s
    ensures i < |s| && s[i] == c && (forall j :: 0 <= j < i ==> s[j] != c)
    ensures IndexOf(s, [c]) == Some(i)
  {
    var k :| 0 <= k < |s| && s[k] == c;
    IsAtChar(s, c, k);
    var i := IndexOf(s, [c]).value;
    IsAtChar(s, c, i);
    assert forall j :: 0 <= j < i ==> s[j] != c by {
      forall j | 0 <= j < i ensures s[j] != c {
        IsAtChar(s, c, j);
      }
    }
    i
  }

  /** A language and a region joined by `-` are joined by `_`, whatever the region holds (`zh-Hant-TW` to `zh_Hant-TW`). */
  lemma OGLocaleOfRegion(language: string, region: string)
    requires '-' !in language
    ensures GetOGLocale(language + "-" + region) == language + "_" + region
  {
    var s := language + "-" + region;
    var n := |language|;
    assert s[n] == '-';
    forall j | 0 <= j < n ensures s[j] != '-' {
      assert s[j] == language[j];
    }
    IndexOfCharAt(s, '-', n);
    assert s[..n] == language && s[n + 1..] == region;
  }

  /** The Open Graph format of each locale, in order. */
  function OGLocales(locales: seq<string>): (r: seq<string>)
    ensures |r| == |locales|
    ensures forall i :: 0 <= i < |r| ==> r[i] == GetOGLocale(locales[i])
  {
    if locales == [] then [] else [GetOGLocale(locales[0])] + OGLocales(locales[1..])
  }

  /** `getOGLocaleAlternates(currentLocale, supportedLocales)`. */
  function GetOGLocaleAlternates(currentLocale: string, supportedLocales: seq<string>): seq<string> {
    OGLocales(Without(supportedLocales, currentLocale))
  }

  /**
   * The alternates are the Open Graph forms of exactly the supported locales
   * other than the current one, in their order.
   */
  lemma OGLocaleAlternatesSpec(currentLocale: string, supportedLocales: seq<string>)
    ensures var r := GetOGLocaleAlternates(currentLocale, supportedLocales);
      && |r| <= |supportedLocales|
      && (forall l :: l in supportedLocales && l != currentLocale ==> GetOGLocale(l) in r)
      && (forall o :: o in r ==> exists l :: l in supportedLocales && l != currentLocale && o == GetOGLocale(l))
  {
    var w := Without(supportedLocales, currentLocale);
    var r := OGLocales(w);
    forall l | l in supportedLocales && l != currentLocale ensures GetOGLocale(l) in r {
      var i :| 0 <= i < |w| && w[i] == l;
      assert r[i] == GetOGLocale(l);
    }
    forall o | o in r ensures exists l :: l in supportedLocales && l != currentLocale && o == GetOGLocale(l) {
      var i :| 0 <= i < |r| && r[i] == o;
      assert w[i] in w;
    }
  }

  /** Alternates of two lists of locales are the alternates of the first followed by those of the second. */
  lemma OGLocaleAlternatesConcat(currentLocale: string, a: seq<string>, b: seq<string>)
    ensures GetOGLocaleAlternates(currentLocale, a + b)
      == GetOGLocaleAlternates(currentLocale, a) + GetOGLocaleAlternates(currentLocale, b)
  {
    WithoutConcat(a, b, currentLocale);
    OGLocalesConcat(Without(a, currentLocale), Without(b, currentLocale));
  }

  lemma OGLocalesConcat(a: seq<string>, b: seq<string>)
    ensures OGLocales(a + b) == OGLocales(a) + OGLocales(b)
  {
  }

  // ---- Language alternates ----

  /** `url.replace(/\/$/, '')`: one trailing `/` removed. */
  function StripTrailingSlash(url: string): (r: string)
    ensures EndsWith(url, "/") ==> r + "/" == url
    ensures !EndsWith(url, "/") ==> r == url
  {
    if |url| > 0 && url[|url| - 1] == '/' then url[..|url| - 1] else url
  }

  /** The href for `locale`, built from the canonical URL of the page in `currentLocale`. */
  function LocaleHref(canonicalUrl: string, currentLocale: string, locale: string): string {
    var currentLangPattern := "/" + currentLocale + "/";
    var targetLangPattern := "/" + locale + "/";
    if Contains(canonicalUrl, currentLangPattern) then ReplaceFirst(canonicalUrl, currentLangPattern, targetLangPattern)
    else StripTrailingSlash(canonicalUrl) + targetLangPattern
  }

  /** One alternate per locale, in order. */
  function LocaleAlternates(canonicalUrl: string, currentLocale: string, locales: seq<string>): (r: seq<Alternate>)
    ensures |r| == |locales|
    ensures forall i :: 0 <= i < |r| ==> r[i] == Alternate(LocaleHref(canonicalUrl, currentLocale, locales[i]), locales[i])
  {
    if locales == [] then []
    else
      [Alternate(LocaleHref(canonicalUrl, currentLocale, locales[0]), locales[0])]
      + LocaleAlternates(canonicalUrl, currentLocale, locales[1..])
  }

  /** `generateLanguageAlternates(canonicalUrl, currentLocale, supportedLocales)`: the locale entries, then `x-default`. */
  function GenerateLanguageAlternates(canonicalUrl: string, currentLocale: string, supportedLocales: seq<string>): (r: seq<Alternate>)
    ensures |r| == |supportedLocales| + 1
    ensures r[|supportedLocales|] == Alternate(canonicalUrl, "x-default")
    ensures forall i :: 0 <= i < |supportedLocales| ==> r[i].hrefLang == supportedLocales[i]
  {
    LocaleAlternates(canonicalUrl, currentLocale, supportedLocales) + [Alternate(canonicalUrl, "x-default")]
  }

  /**
   * Path replacement: when the canonical URL holds `/{current}/`, the href
   * of each locale is the URL with its first such segment replaced by
   * `/{locale}/`, and the entry of the current locale is the URL itself.
   */
  lemma AlternateReplacesLocaleSegment(canonicalUrl: string, currentLocale: string, locale: string)
    requires Contains(canonicalUrl, "/" + currentLocale + "/")
    ensures var i := IndexOf(canonicalUrl, "/" + currentLocale + "/").value;
      LocaleHref(canonicalUrl, currentLocale, locale)
        == canonicalUrl[..i] + "/" + locale + "/" + canonicalUrl[i + |currentLocale| + 2..]
    ensures LocaleHref(canonicalUrl, currentLocale, currentLocale) == canonicalUrl
  {
    var p := "/" + currentLocale + "/";
    var i := IndexOf(canonicalUrl, p).value;
    assert canonicalUrl[..i] + p + canonicalUrl[i + |p|..] == canonicalUrl by {
      assert canonicalUrl[i..i + |p|] == p;
      assert canonicalUrl == canonicalUrl[..i] + canonicalUrl[i..i + |p|] + canonicalUrl[i + |p|..];
    }
  }

  /**
   * Path appending: without `/{current}/` in the URL, the href is the URL
   * with one trailing slash dropped and `/{locale}/` added, so a URL
   * ending in `/` does not get a doubled slash from it.
   */
  lemma AlternateAppendsLocaleSegment(canonicalUrl: string, currentLocale: string, locale: string)
    requires !Contains(canonicalUrl, "/" + currentLocale + "/")
    ensures var href := LocaleHref(canonicalUrl, currentLocale, locale);
      && (EndsWith(canonicalUrl, "/") ==> href == canonicalUrl + locale + "/")
      && (!EndsWith(canonicalUrl, "/") ==> href == canonicalUrl + "/" + locale + "/")
  {
    var s := StripTrailingSlash(canonicalUrl);
    var target := "/" + locale + "/";
    assert LocaleHref(canonicalUrl, currentLocale, locale) == s + target;
    if EndsWith(canonicalUrl, "/") {
      assert s + target == (s + "/") + (locale + "/");
    } else {
      assert s + target == canonicalUrl + "/" + locale + "/";
    }
  }

  /** The entries of the supported locales come first and in order; the `x-default` entry is the only one with that `hrefLang` when no locale is named so. */
  lemma LanguageAlternatesSpec(canonicalUrl: string, currentLocale: string, supportedLocales: seq<string>)
    requires "x-default" !in supportedLocales
    ensures var r := GenerateLanguageAlternates(canonicalUrl, currentLocale, supportedLocales);
      && (forall i :: 0 <= i < |supportedLocales| ==> r[i].href == LocaleHref(canonicalUrl, currentLocale, supportedLocales[i]))
      && (forall i :: 0 <= i < |r| && r[i].hrefLang == "x-default" ==> i == |supportedLocales| && r[i].href == canonicalUrl)
  {
    var r := GenerateLanguageAlternates(canonicalUrl, currentLocale, supportedLocales);
    forall i | 0 <= i < |supportedLocales| ensures r[i] == LocaleAlternates(canonicalUrl, currentLocale, supportedLocales)[i] {
    }
  }
}
