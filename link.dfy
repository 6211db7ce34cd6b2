/**
 * The link builders: a list path with the page suffix for pages after the
 * first, and the category, tag, portfolio and filter paths built on it,
 * every result passed through `normalize`.
 *
 * The page prefix is read once, when the module loads, from the posts'
 * pagination settings; the builders therefore take the configuration as it
 * stood at load time (`atLoad`), while the filter builders also read the
 * configuration current at the call (`current`).
 */
module Link {
  import opened Js
  import Theme
  import Posts
  import Normalize
  import Filter
  import Paths

  /** `paginationConfig.prefix`, fixed when the module loads. */
  function LoadedPrefix(atLoad: Theme.FullThemeConfig): string {
    Posts.GetPaginationConfig(atLoad).prefix
  }

  /** `(page || 0) > 1`: a missing page and page 0 both count as no page. */
  predicate HasPageSuffix(page: Option<int>) {
    page.GetOr(0) > 1
  }

  /** `getPaginateLink({ link, page })`. */
  function GetPaginateLink(atLoad: Theme.FullThemeConfig, link: string, page: Option<int>): string {
    var result := if HasPageSuffix(page) then link + "/" + LoadedPrefix(atLoad) + "/" + NatToString(page.value) else link;
    Normalize.Normalize(Some(result))
  }

  /** `getCategoryLink({ category, page })`. */
  function GetCategoryLink(atLoad: Theme.FullThemeConfig, category: string, page: Option<int>): string {
    GetPaginateLink(atLoad, "/categories/" + category, page)
  }

  /** `getTagLink({ tag, page })`. */
  function GetTagLink(atLoad: Theme.FullThemeConfig, tag: string, page: Option<int>): string {
    GetPaginateLink(atLoad, "/tags/" + tag, page)
  }

  /** `getPortfoliosLink({ page })`. */
  function GetPortfoliosLink(atLoad: Theme.FullThemeConfig, page: Option<int>): string {
    GetPaginateLink(atLoad, "/portfolios", page)
  }

  /** `getPortfolioTagLink({ tag, page })`: the portfolio list link without a page, then the tag. */
  function GetPortfolioTagLink(atLoad: Theme.FullThemeConfig, tag: string, page: Option<int>): string {
    GetPaginateLink(atLoad, GetPortfoliosLink(atLoad, None) + "/tags/" + tag, page)
  }

  /** `${getFilterConfig()?.column}` in a template: the column as stored, or the text `undefined`. */
  function FilterSegment(current: Theme.FullThemeConfig): string {
    var config := Filter.GetFilterConfig(current);
    if config.Some? && config.value.column.Some? then config.value.column.value else "undefined"
  }

  /** `getFilterLink({ base, filter, page })`. */
  function GetFilterLink(atLoad: Theme.FullThemeConfig, current: Theme.FullThemeConfig, base: string, filter: string, page: Option<int>): string {
    GetPaginateLink(atLoad, base + "/" + FilterSegment(current) + "/" + filter, page)
  }

  /** `getCategoryFilterLink({ category, filter, page })`. */
  function GetCategoryFilterLink(atLoad: Theme.FullThemeConfig, current: Theme.FullThemeConfig, category: string, filter: string, page: Option<int>): string {
    GetPaginateLink(atLoad, "/categories/" + category + "/" + FilterSegment(current) + "/" + filter, page)
  }

  // ---- Properties ----

  /** Every link is a normalized path: rooted, without `//`, without a trailing `/` unless it is the root. */
  lemma PaginateLinkShape(atLoad: Theme.FullThemeConfig, link: string, page: Option<int>)
    ensures var r := GetPaginateLink(atLoad, link, page);
      && |r| >= 1 && r[0] == '/'
      && Normalize.NoDoubleSlash(r)
      && (r[|r| - 1] == '/' ==> r == "/")
  {
    var result := if HasPageSuffix(page) then link + "/" + LoadedPrefix(atLoad) + "/" + NatToString(page.value) else link;
    assert GetPaginateLink(atLoad, link, page) == Normalize.Normalize(Some(result));
    Normalize.NormalizeShape(Some(result));
  }

  /** Without a page after the first (missing, 0, 1 or below), the link is the normalized bare link. */
  lemma PaginateLinkFirstPage(atLoad: Theme.FullThemeConfig, link: string, page: Option<int>)
    requires page.None? || page.value <= 1
    ensures GetPaginateLink(atLoad, link, page) == Normalize.Normalize(Some(link))
  {
  }

  /** The decimal digits of a number make one path segment. */
  lemma DigitsAreSegment(n: nat)
    ensures Normalize.IsSegment(NatToString(n))
  {
  }

  /**
   * For a normal path and a plain prefix segment, page `n > 1` is the path
   * followed by the `page` route param that `generatePaginationPaths` gives
   * page `n`; `normalize` leaves it as it is.
   */
  lemma PaginateLinkPage(atLoad: Theme.FullThemeConfig, link: string, n: nat)
    requires Normalize.IsNormal(link) && link != "/"
    requires Normalize.IsSegment(LoadedPrefix(atLoad)) && n > 1
    ensures GetPaginateLink(atLoad, link, Some(n)) == link + "/" + Paths.PageParam(LoadedPrefix(atLoad), n).value
  {
    var prefix := LoadedPrefix(atLoad);
    Normalize.AppendSegment(link, prefix);
    DigitsAreSegment(n);
    Normalize.AppendSegment(link + "/" + prefix, NatToString(n));
    var s := link + "/" + prefix + "/" + NatToString(n);
    assert s == link + "/" + (prefix + "/" + NatToString(n));
    Normalize.NormalizeFixedPoint(s);
  }

  /** A normal path passes through `getPaginateLink` unchanged on the first page. */
  lemma PaginateLinkNormalFirstPage(atLoad: Theme.FullThemeConfig, link: string, page: Option<int>)
    requires Normalize.IsNormal(link) && (page.None? || page.value <= 1)
    ensures GetPaginateLink(atLoad, link, page) == link
  {
    Normalize.NormalizeFixedPoint(link);
  }

  /** `/categories/{c}` for a plain category segment, with `/{prefix}/{n}` after it from page 2 on. */
  lemma CategoryLinkShape(atLoad: Theme.FullThemeConfig, category: string, page: Option<int>)
    requires Normalize.IsSegment(category) && Normalize.IsSegment(LoadedPrefix(atLoad))
    ensures !HasPageSuffix(page) ==> GetCategoryLink(atLoad, category, page) == "/categories/" + category
    ensures HasPageSuffix(page) ==>
      GetCategoryLink(atLoad, category, page) == "/categories/" + category + "/" + LoadedPrefix(atLoad) + "/" + NatToString(page.value)
  {
    LiteralSegments();
    Normalize.SegmentPath("categories");
    Normalize.AppendSegment("/categories", category);
    assert "/categories" + "/" + category == "/categories/" + category;
    ListLink(atLoad, "/categories/" + category, page);
  }

  /** `/tags/{t}` for a plain tag segment, with `/{prefix}/{n}` after it from page 2 on. */
  lemma TagLinkShape(atLoad: Theme.FullThemeConfig, tag: string, page: Option<int>)
    requires Normalize.IsSegment(tag) && Normalize.IsSegment(LoadedPrefix(atLoad))
    ensures !HasPageSuffix(page) ==> GetTagLink(atLoad, tag, page) == "/tags/" + tag
    ensures HasPageSuffix(page) ==>
      GetTagLink(atLoad, tag, page) == "/tags/" + tag + "/" + LoadedPrefix(atLoad) + "/" + NatToString(page.value)
  {
    LiteralSegments();
    Normalize.SegmentPath("tags");
    Normalize.AppendSegment("/tags", tag);
    assert "/tags" + "/" + tag == "/tags/" + tag;
    ListLink(atLoad, "/tags/" + tag, page);
  }

  /** The fixed segments the builders write. */
  lemma LiteralSegments()
    ensures Normalize.IsSegment("categories") && Normalize.IsSegment("tags") && Normalize.IsSegment("portfolios")
    ensures Normalize.IsSegment("undefined") && Normalize.IsSegment("filters")
  {
  }

  /** The portfolio list link without a page is `/portfolios`. */
  lemma PortfoliosLinkFirstPage(atLoad: Theme.FullThemeConfig)
    ensures GetPortfoliosLink(atLoad, None) == "/portfolios"
  {
    LiteralSegments();
    Normalize.SegmentPath("portfolios");
    PaginateLinkNormalFirstPage(atLoad, "/portfolios", None);
  }

  /** `/portfolios/tags/{t}`: the tag comes right after the portfolio list path, the page suffix after the tag. */
  lemma PortfolioTagLinkShape(atLoad: Theme.FullThemeConfig, tag: string, page: Option<int>)
    requires Normalize.IsSegment(tag) && Normalize.IsSegment(LoadedPrefix(atLoad))
    ensures !HasPageSuffix(page) ==> GetPortfolioTagLink(atLoad, tag, page) == "/portfolios/tags/" + tag
    ensures HasPageSuffix(page) ==>
      GetPortfolioTagLink(atLoad, tag, page) == "/portfolios/tags/" + tag + "/" + LoadedPrefix(atLoad) + "/" + NatToString(page.value)
  {
    PortfolioTagLinkUnfold(atLoad, tag, page);
    PortfolioTagListLink(atLoad, tag, page);
  }

  /** The portfolio tag link is the paginated link of `/portfolios/tags/{t}`. */
  lemma PortfolioTagLinkUnfold(atLoad: Theme.FullThemeConfig, tag: string, page: Option<int>)
    ensures GetPortfolioTagLink(atLoad, tag, page) == GetPaginateLink(atLoad, "/portfolios/tags/" + tag, page)
  {
    PortfoliosLinkFirstPage(atLoad);
    PortfolioTagPath(atLoad, GetPortfoliosLink(atLoad, None), tag, page);
  }

  /** The portfolio tag link starts from the portfolio list path `/portfolios`. */
  lemma PortfolioTagPath(atLoad: Theme.FullThemeConfig, list: string, tag: string, page: Option<int>)
    requires list == "/portfolios"
    ensures GetPaginateLink(atLoad, list + "/tags/" + tag, page) == GetPaginateLink(atLoad, "/portfolios/tags/" + tag, page)
  {
    assert list + "/tags/" + tag == "/portfolios/tags/" + tag;
  }

  /** `/portfolios/tags/{t}` is a normal list path. */
  lemma PortfolioTagListLink(atLoad: Theme.FullThemeConfig, tag: string, page: Option<int>)
    requires Normalize.IsSegment(tag) && Normalize.IsSegment(LoadedPrefix(atLoad))
    ensures !HasPageSuffix(page) ==> GetPaginateLink(atLoad, "/portfolios/tags/" + tag, page) == "/portfolios/tags/" + tag
    ensures HasPageSuffix(page) ==>
      GetPaginateLink(atLoad, "/portfolios/tags/" + tag, page) == "/portfolios/tags/" + tag + "/" + LoadedPrefix(atLoad) + "/" + NatToString(page.value)
  {
    PortfolioTagsNormal();
    Normalize.AppendSegment("/portfolios/tags", tag);
    assert "/portfolios/tags" + "/" + tag == "/portfolios/tags/" + tag;
    ListLink(atLoad, "/portfolios/tags/" + tag, page);
  }

  /** The page param after a link is `/{prefix}/{n}`. */
  lemma PageSuffix(link: string, prefix: string, n: nat)
    requires n > 1
    ensures link + "/" + Paths.PageParam(prefix, n).value == link + "/" + prefix + "/" + NatToString(n)
  {
    assert Paths.PageParam(prefix, n).value == prefix + "/" + NatToString(n);
  }

  /** `/portfolios/tags` is a normal path. */
  lemma PortfolioTagsNormal()
    ensures Normalize.IsNormal("/portfolios/tags")
  {
    LiteralSegments();
    Normalize.SegmentPath("portfolios");
    Normalize.AppendSegment("/portfolios", "tags");
    assert "/portfolios" + "/" + "tags" == "/portfolios/tags";
  }

  /** The two cases of a normal list path, other than the root, through `getPaginateLink`. */
  lemma ListLink(atLoad: Theme.FullThemeConfig, link: string, page: Option<int>)
    requires Normalize.IsNormal(link) && link != "/" && Normalize.IsSegment(LoadedPrefix(atLoad))
    ensures !HasPageSuffix(page) ==> GetPaginateLink(atLoad, link, page) == link
    ensures HasPageSuffix(page) ==> GetPaginateLink(atLoad, link, page) == link + "/" + LoadedPrefix(atLoad) + "/" + NatToString(page.value)
  {
    if HasPageSuffix(page) {
      PaginateLinkPage(atLoad, link, page.value);
      PageSuffix(link, LoadedPrefix(atLoad), page.value);
    } else {
      PaginateLinkNormalFirstPage(atLoad, link, page);
    }
  }

  /**
   * The filter segment is the stored column whatever it is; without a
   * filter entry or a column it is the text `undefined`, not the
   * `filters` default of `getFilterColumn`.
   */
  lemma FilterSegmentCases(current: Theme.FullThemeConfig)
    ensures current.filter.Some? && current.filter.value.column.Some? ==> FilterSegment(current) == current.filter.value.column.value
    ensures current.filter.None? || current.filter.value.column.None? ==> FilterSegment(current) == "undefined"
    ensures current.filter.None? || current.filter.value.column.None? ==> FilterSegment(current) != Filter.GetFilterColumn(current)
  {
  }

  /** With no filter column configured, a filter link on the first page reads `{base}/undefined/{filter}`. */
  lemma FilterLinkUnsetColumn(atLoad: Theme.FullThemeConfig, current: Theme.FullThemeConfig, base: string, filter: string)
    requires current.filter.None?
    requires Normalize.IsNormal(base) && base != "/" && Normalize.IsSegment(filter)
    ensures GetFilterLink(atLoad, current, base, filter, None) == base + "/undefined/" + filter
  {
    LiteralSegments();
    Normalize.AppendSegment(base, "undefined");
    Normalize.AppendSegment(base + "/" + "undefined", filter);
    assert base + "/" + "undefined" + "/" + filter == base + "/undefined/" + filter;
    PaginateLinkNormalFirstPage(atLoad, base + "/undefined/" + filter, None);
  }

  /**
   * The filter link with the column `getFilterColumn` gives, which falls
   * back to `filters` where the link builders above write `undefined`.
   */
  function GetFilterLinkWithColumn(atLoad: Theme.FullThemeConfig, current: Theme.FullThemeConfig, base: string, filter: string, page: Option<int>): string {
    GetPaginateLink(atLoad, base + "/" + Filter.GetFilterColumn(current) + "/" + filter, page)
  }

  /** That link names the filter column the filter pages read, on every page. */
  lemma FilterLinkWithColumnShape(atLoad: Theme.FullThemeConfig, current: Theme.FullThemeConfig, base: string, filter: string, page: Option<int>)
    requires Normalize.IsNormal(base) && base != "/" && Normalize.IsSegment(filter)
    requires Normalize.IsSegment(Filter.GetFilterColumn(current)) && Normalize.IsSegment(LoadedPrefix(atLoad))
    ensures var link := base + "/" + Filter.GetFilterColumn(current) + "/" + filter;
      && (!HasPageSuffix(page) ==> GetFilterLinkWithColumn(atLoad, current, base, filter, page) == link)
      && (HasPageSuffix(page) ==>
            (GetFilterLinkWithColumn(atLoad, current, base, filter, page)
             == link + "/" + LoadedPrefix(atLoad) + "/" + NatToString(page.value)))
  {
    var column := Filter.GetFilterColumn(current);
    Normalize.AppendSegment(base, column);
    Normalize.AppendSegment(base + "/" + column, filter);
    ListLink(atLoad, base + "/" + column + "/" + filter, page);
  }

  /** Without a filter entry that link uses the `filters` default where `getFilterLink` writes `undefined`. */
  lemma FilterLinkWithColumnDefault(atLoad: Theme.FullThemeConfig, current: Theme.FullThemeConfig, base: string, filter: string, page: Option<int>)
    requires current.filter.None?
    ensures GetFilterLinkWithColumn(atLoad, current, base, filter, page) == GetPaginateLink(atLoad, base + "/filters/" + filter, page)
    ensures GetFilterLink(atLoad, current, base, filter, page) == GetPaginateLink(atLoad, base + "/undefined/" + filter, page)
  {
    assert base + "/" + Filter.GetFilterColumn(current) + "/" + filter == base + "/filters/" + filter;
    assert base + "/" + FilterSegment(current) + "/" + filter == base + "/undefined/" + filter;
  }

  /** With a column configured, both builders agree. */
  lemma FilterLinksAgreeWhenConfigured(atLoad: Theme.FullThemeConfig, current: Theme.FullThemeConfig, base: string, filter: string, page: Option<int>)
    requires current.filter.Some? && current.filter.value.column.Some? && current.filter.value.column.value != ""
    ensures GetFilterLink(atLoad, current, base, filter, page) == GetFilterLinkWithColumn(atLoad, current, base, filter, page)
  {
  }

  /** `/categories/{c}/{column}/{filter}`, segments in that fixed order, the page suffix last. */
  lemma CategoryFilterLinkShape(atLoad: Theme.FullThemeConfig, current: Theme.FullThemeConfig, category: string, filter: string, page: Option<int>)
    requires Normalize.IsSegment(category) && Normalize.IsSegment(filter)
    requires Normalize.IsSegment(FilterSegment(current)) && Normalize.IsSegment(LoadedPrefix(atLoad))
    ensures var link := "/categories/" + category + "/" + FilterSegment(current) + "/" + filter;
      && (!HasPageSuffix(page) ==> GetCategoryFilterLink(atLoad, current, category, filter, page) == link)
      && (HasPageSuffix(page) ==>
            (GetCategoryFilterLink(atLoad, current, category, filter, page)
             == link + "/" + LoadedPrefix(atLoad) + "/" + NatToString(page.value)))
  {
    var column := FilterSegment(current);
    Normalize.SegmentPath("categories");
    Normalize.AppendSegment("/categories", category);
    var c := "/categories" + "/" + category;
    Normalize.AppendSegment(c, column);
    Normalize.AppendSegment(c + "/" + column, filter);
    assert c + "/" + column + "/" + filter == "/categories/" + category + "/" + column + "/" + filter;
    ListLink(atLoad, "/categories/" + category + "/" + column + "/" + filter, page);
  }

  /** With the default settings, page 3 of the `coding` category is `/categories/coding/page/3`. */
  lemma CategoryLinkExample(atLoad: Theme.FullThemeConfig)
    requires atLoad.pagination.None?
    ensures GetCategoryLink(atLoad, "coding", Some(3)) == "/categories/coding/page/3"
  {
    var prefix := LoadedPrefix(atLoad);
    assert prefix == "page";
    CodingExampleFacts();
    CategoryLinkShape(atLoad, "coding", Some(3));
  }

  lemma CodingExampleFacts()
    ensures Normalize.IsSegment("coding") && Normalize.IsSegment("page") && NatToString(3) == "3"
    ensures "/categories/" + "coding" + "/" + "page" + "/" + "3" == "/categories/coding/page/3"
  {
  }
}
