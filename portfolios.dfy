/**
 * The portfolio queries: pagination settings, the pinned-first date
 * ordering, portfolio links, the tag list and filter, and the paginated
 * route list.
 */
module Portfolios {
  import opened Js
  import opened Theme
  import opened Collections
  import Paths
  import Normalize
  import Posts

  /** The front matter of a portfolio entry; dates are timestamps in milliseconds. */
  datatype PortfolioData = PortfolioData(
    title: string,
    slug: Option<string>,
    description: Option<string>,
    date: Option<int>,
    lastModified: Option<int>,
    tags: Option<seq<string>>,
    thumbnail: Option<string>,
    demo: Option<string>,
    github: Option<string>,
    tech: Option<seq<string>>,
    featured: Option<bool>,
    pin: Option<bool>,
    locale: Option<string>)

  /** A collection entry: the slug taken from its file name, and its front matter. */
  datatype Portfolio = Portfolio(slug: string, data: PortfolioData)

  /** `{ ...portfolio, link }`. */
  datatype PortfolioWithLink = PortfolioWithLink(portfolio: Portfolio, link: string)

  /** What `getPaginationConfig` returns here. */
  datatype PaginationSettings = PaginationSettings(pageSize: int, orderBy: string, prefix: string)

  const DefaultPageSize := 9
  const DefaultOrderBy := "-date"
  const DefaultPrefix := "page"

  /** `getPaginationConfig()`: each configured field, or its default (a page size of 9) when the field or the whole entry is missing. */
  function GetPaginationConfig(stored: FullThemeConfig): (r: PaginationSettings)
    ensures var c := stored.pagination;
      && (c.Some? && c.value.pageSize.Some? ==> r.pageSize == c.value.pageSize.value)
      && (c.None? || c.value.pageSize.None? ==> r.pageSize == DefaultPageSize)
      && (c.Some? && c.value.orderBy.Some? ==> r.orderBy == c.value.orderBy.value)
      && (c.None? || c.value.orderBy.None? ==> r.orderBy == DefaultOrderBy)
      && (c.Some? && c.value.prefix.Some? ==> r.prefix == c.value.prefix.value)
      && (c.None? || c.value.prefix.None? ==> r.prefix == DefaultPrefix)
  {
    if stored.pagination.None? then PaginationSettings(DefaultPageSize, DefaultOrderBy, DefaultPrefix)
    else
      var c := stored.pagination.value;
      PaginationSettings(c.pageSize.GetOr(DefaultPageSize), c.orderBy.GetOr(DefaultOrderBy), c.prefix.GetOr(DefaultPrefix))
  }

  // ---- Sorting ----

  /** `data.pin === true`: an absent pin and `false` both mean not pinned. */
  predicate Pinned(p: Portfolio) {
    p.data.pin == Some(true)
  }

  /** `new Date(data[field] || 0).getTime()`: a missing date reads as 0, and so does a field that holds no date. */
  function Timestamp(data: PortfolioData, field: string): int {
    if field == "date" then data.date.GetOr(0)
    else if field == "lastModified" then data.lastModified.GetOr(0)
    else 0
  }

  /** The comparator `getSortedPortfolios` passes to `sort`: pin status first, then the order field's timestamp. */
  function Compare(orderBy: string, a: Portfolio, b: Portfolio): int {
    if Pinned(a) && !Pinned(b) then -1
    else if !Pinned(a) && Pinned(b) then 1
    else
      var av := Timestamp(a.data, Posts.OrderField(orderBy));
      var bv := Timestamp(b.data, Posts.OrderField(orderBy));
      if Posts.IsDescending(orderBy) then bv - av else av - bv
  }

  /** The key the comparator orders by: 0 for pinned and 1 for the rest, then the timestamp, negated for descending order. */
  function SortKey(orderBy: string, p: Portfolio): (int, int) {
    var t := Timestamp(p.data, Posts.OrderField(orderBy));
    (if Pinned(p) then 0 else 1, if Posts.IsDescending(orderBy) then -t else t)
  }

  /** The comparator puts `a` first exactly when its key is below `b`'s, and ties exactly when the keys are equal. */
  lemma CompareMatchesSortKey(orderBy: string, a: Portfolio, b: Portfolio)
    ensures Compare(orderBy, a, b) < 0 <==> !KeyLe(SortKey(orderBy, b), SortKey(orderBy, a))
    ensures Compare(orderBy, a, b) == 0 <==> SortKey(orderBy, a) == SortKey(orderBy, b)
  {
  }

  /** `getSortedPortfolios()` over the loaded collection: the stable sort with the comparator above. */
  function GetSortedPortfolios(stored: FullThemeConfig, collection: seq<Portfolio>): seq<Portfolio> {
    var orderBy := GetPaginationConfig(stored).orderBy;
    SortBy(collection, (p: Portfolio) => SortKey(orderBy, p))
  }

  /** The sorted entries are a permutation of the collection, with every pinned entry before every unpinned one. */
  lemma SortedPortfoliosPinnedFirst(stored: FullThemeConfig, collection: seq<Portfolio>)
    ensures multiset(GetSortedPortfolios(stored, collection)) == multiset(collection)
    ensures var r := GetSortedPortfolios(stored, collection);
      forall i, j :: 0 <= i < j < |r| && Pinned(r[j]) ==> Pinned(r[i])
  {
    var orderBy := GetPaginationConfig(stored).orderBy;
    SortBySpec(collection, (p: Portfolio) => SortKey(orderBy, p));
  }

  /** Among entries of the same pin status, the order field's timestamps are ordered, descending exactly when `orderBy` starts with `-`. */
  lemma SortedPortfoliosByDate(stored: FullThemeConfig, collection: seq<Portfolio>)
    ensures var orderBy := GetPaginationConfig(stored).orderBy;
      var r := GetSortedPortfolios(stored, collection);
      var f := Posts.OrderField(orderBy);
      forall i, j :: 0 <= i < j < |r| && Pinned(r[i]) == Pinned(r[j]) ==>
        if Posts.IsDescending(orderBy) then Timestamp(r[i].data, f) >= Timestamp(r[j].data, f)
        else Timestamp(r[i].data, f) <= Timestamp(r[j].data, f)
  {
    var orderBy := GetPaginationConfig(stored).orderBy;
    SortBySpec(collection, (p: Portfolio) => SortKey(orderBy, p));
  }

  /** Entries with the same pin status and equal order timestamps (the comparator returns 0) keep their collection order. */
  lemma SortedPortfoliosStable(stored: FullThemeConfig, collection: seq<Portfolio>, k: (int, int))
    ensures var orderBy := GetPaginationConfig(stored).orderBy;
      var key := (p: Portfolio) => SortKey(orderBy, p);
      Ties(GetSortedPortfolios(stored, collection), key, k) == Ties(collection, key, k)
  {
    var orderBy := GetPaginationConfig(stored).orderBy;
    SortByStable(collection, (p: Portfolio) => SortKey(orderBy, p), k);
  }

  // ---- Links ----

  /** `/portfolios/${data.slug ?? slug}`. */
  function PortfolioLink(p: Portfolio): string {
    "/portfolios/" + p.data.slug.GetOr(p.slug)
  }

  /** `addLinksToItems(portfolios)`: the same entries in the same order, each with its link. */
  function AddLinksToItems(portfolios: seq<Portfolio>): (r: seq<PortfolioWithLink>)
    ensures |r| == |portfolios|
    ensures forall i :: 0 <= i < |r| ==> r[i].portfolio == portfolios[i]
    ensures forall i :: 0 <= i < |r| ==> r[i].link == "/portfolios/" + portfolios[i].data.slug.GetOr(portfolios[i].slug)
  {
    seq(|portfolios|, i requires 0 <= i < |portfolios| => PortfolioWithLink(portfolios[i], PortfolioLink(portfolios[i])))
  }

  /** An entry whose slug is one plain path segment gets a link that `normalize` leaves unchanged. */
  lemma PortfolioLinkIsNormal(p: Portfolio)
    requires Normalize.IsSegment(p.data.slug.GetOr(p.slug))
    ensures Normalize.Normalize(Some(PortfolioLink(p))) == PortfolioLink(p)
  {
    var slug := p.data.slug.GetOr(p.slug);
    assert Normalize.IsSegment("portfolios");
    Normalize.SegmentPath("portfolios");
    Normalize.AppendSegment("/portfolios", slug);
    assert "/portfolios" + "/" + slug == PortfolioLink(p);
    Normalize.NormalizeFixedPoint(PortfolioLink(p));
  }

  // ---- Tags ----

  /** `portfolio.data.tags ?? []` (each tag already a string, so `String(tag)` changes nothing). */
  function TagsOf(p: Portfolio): seq<string> {
    p.data.tags.GetOr([])
  }

  /** `getAllTags()` over the loaded collection: every tag of every sorted entry goes into a set. */
  method GetAllTags(stored: FullThemeConfig, collection: seq<Portfolio>) returns (tags: seq<string>)
    ensures tags == Dedup(FlatMap(GetSortedPortfolios(stored, collection), TagsOf))
  {
    var portfolios := GetSortedPortfolios(stored, collection);
    tags := CollectSet(portfolios, TagsOf);
  }

  /** The tag list has no duplicates and lists exactly the tags of the collection. */
  lemma AllTagsSpec(stored: FullThemeConfig, collection: seq<Portfolio>)
    ensures var tags := Dedup(FlatMap(GetSortedPortfolios(stored, collection), TagsOf));
      && NoDuplicates(tags)
      && (forall t :: t in tags <==> Produces(collection, TagsOf, t))
  {
    var sorted := GetSortedPortfolios(stored, collection);
    CollectSetSpec(sorted, TagsOf);
    SortedPortfoliosPinnedFirst(stored, collection);
    forall t ensures Produces(sorted, TagsOf, t) <==> Produces(collection, TagsOf, t) {
      ProducesPermutation(sorted, collection, TagsOf, t);
    }
  }

  /** `filterPortfoliosByTag(portfolios, tag)`: the entries whose tags include `tag` exactly, in order. */
  function FilterPortfoliosByTag(portfolios: seq<Portfolio>, tag: string): (r: seq<Portfolio>)
    ensures forall i :: 0 <= i < |r| ==> r[i] in portfolios && r[i].data.tags.Some? && tag in r[i].data.tags.value
    ensures forall i :: 0 <= i < |portfolios| && tag in TagsOf(portfolios[i]) ==> portfolios[i] in r
  {
    Filter(portfolios, (p: Portfolio) => tag in TagsOf(p))
  }

  /** Filtering a sorted list keeps it sorted: the filter keeps relative order. */
  lemma FilterPortfoliosByTagConcat(a: seq<Portfolio>, b: seq<Portfolio>, tag: string)
    ensures FilterPortfoliosByTag(a + b, tag) == FilterPortfoliosByTag(a, tag) + FilterPortfoliosByTag(b, tag)
  {
    FilterConcat(a, b, (p: Portfolio) => tag in TagsOf(p));
  }

  // ---- Pagination paths ----

  /** `generatePaginationPaths({ paginate }, { portfolios, baseParams, localesPaths })`; missing base params are `{}`. */
  function GeneratePaginationPaths(
    stored: FullThemeConfig, paginate: Paths.Paginate<PortfolioWithLink>, portfolios: seq<PortfolioWithLink>,
    baseParams: Option<Paths.Params>, localesPaths: Option<seq<Paths.LocalePath>>): seq<Paths.PageResult<PortfolioWithLink>>
  {
    var c := GetPaginationConfig(stored);
    Paths.GeneratePaths(paginate, portfolios, baseParams.GetOr(map[]), localesPaths, c.pageSize, c.prefix)
  }

  /** Page 1 has no `page` param; page `n` has `"{prefix}/{n}"` with the configured prefix. */
  lemma PaginationPathsPageParam(
    stored: FullThemeConfig, paginate: Paths.Paginate<PortfolioWithLink>, portfolios: seq<PortfolioWithLink>,
    baseParams: Option<Paths.Params>, localesPaths: Option<seq<Paths.LocalePath>>)
    ensures forall r :: r in GeneratePaginationPaths(stored, paginate, portfolios, baseParams, localesPaths) ==>
      Paths.PageKey in r.params && r.params[Paths.PageKey] == Paths.PageParam(GetPaginationConfig(stored).prefix, r.currentPage)
  {
    var c := GetPaginationConfig(stored);
    forall r | r in GeneratePaginationPaths(stored, paginate, portfolios, baseParams, localesPaths)
      ensures Paths.PageKey in r.params && r.params[Paths.PageKey] == Paths.PageParam(c.prefix, r.currentPage)
    {
      Paths.GeneratePathsPageParam(paginate, portfolios, baseParams.GetOr(map[]), localesPaths, c.pageSize, c.prefix, r);
    }
  }
}
