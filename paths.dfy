/**
 * `generatePaginationPaths`, shared by posts and portfolios: one run of
 * Astro's `paginate` per locale path, with the locale's params laid over the
 * base params, and the `page` route param rewritten on every page.
 */
module Paths {
  import opened Js
  import opened Collections

  /** Route params; a key set to `undefined` maps to `None`. */
  type Params = map<string, Option<string>>

  /** One entry of the locale paths list: only its `params` are read. */
  datatype LocalePath = LocalePath(params: Params)

  /** One page produced by `paginate`: its route params, its page number and the entries on it. */
  datatype PageResult<T> = PageResult(params: Params, currentPage: nat, data: seq<T>)

  /** Astro's `paginate(items, { params, pageSize })`, which the model takes as a parameter. */
  type Paginate<!T> = (seq<T>, Params, int) -> seq<PageResult<T>>

  /** The route param holding the page segment. */
  const PageKey := "page"

  /** `{ ...base, ...locale }`: every key of either, the locale's value winning. */
  function MergeParams(base: Params, locale: Params): (r: Params)
    ensures r.Keys == base.Keys + locale.Keys
    ensures forall k :: k in locale ==> r[k] == locale[k]
    ensures forall k :: k in base && k !in locale ==> r[k] == base[k]
  {
    base + locale
  }

  /** The `page` param of page `n`: `undefined` for the first page, `"{prefix}/{n}"` otherwise. */
  function PageParam(prefix: string, n: nat): (r: Option<string>)
    ensures r.None? <==> n == 1
    ensures r.Some? ==> StartsWith(r.value, prefix + "/") && r.value[|prefix| + 1..] == NatToString(n)
  {
    if n == 1 then None else Some(prefix + "/" + NatToString(n))
  }

  /** `{ ...result, params: { ...result.params, page } }`. */
  function WithPage<T>(prefix: string, r: PageResult<T>): (w: PageResult<T>)
    ensures w.currentPage == r.currentPage && w.data == r.data
    ensures w.params.Keys == r.params.Keys + {PageKey}
    ensures w.params[PageKey] == PageParam(prefix, r.currentPage)
    ensures forall k :: k in r.params && k != PageKey ==> w.params[k] == r.params[k]
  {
    r.(params := r.params[PageKey := PageParam(prefix, r.currentPage)])
  }

  /** `localesPaths || [{ params: {} }]`: an array, even an empty one, is truthy. */
  function TargetPaths(localesPaths: Option<seq<LocalePath>>): seq<LocalePath> {
    localesPaths.GetOr([LocalePath(map[])])
  }

  /** The pages of one locale path, each with its `page` param set. */
  function PagesFor<T>(paginate: Paginate<T>, items: seq<T>, base: Params, pageSize: int, prefix: string, lp: LocalePath): (r: seq<PageResult<T>>)
    ensures |r| == |paginate(items, MergeParams(base, lp.params), pageSize)|
    ensures forall i :: 0 <= i < |r| ==> r[i] == WithPage(prefix, paginate(items, MergeParams(base, lp.params), pageSize)[i])
  {
    var results := paginate(items, MergeParams(base, lp.params), pageSize);
    seq(|results|, i requires 0 <= i < |results| => WithPage(prefix, results[i]))
  }

  /** `generatePaginationPaths` with the configured page size and prefix. */
  function GeneratePaths<T>(paginate: Paginate<T>, items: seq<T>, base: Params, localesPaths: Option<seq<LocalePath>>, pageSize: int, prefix: string): seq<PageResult<T>> {
    FlatMap(TargetPaths(localesPaths), (lp: LocalePath) => PagesFor(paginate, items, base, pageSize, prefix, lp))
  }

  /** Every generated page carries the `page` param of its page number. */
  lemma GeneratePathsPageParam<T>(paginate: Paginate<T>, items: seq<T>, base: Params, localesPaths: Option<seq<LocalePath>>, pageSize: int, prefix: string, r: PageResult<T>)
    requires r in GeneratePaths(paginate, items, base, localesPaths, pageSize, prefix)
    ensures PageKey in r.params && r.params[PageKey] == PageParam(prefix, r.currentPage)
    ensures r.currentPage == 1 ==> r.params[PageKey] == None
  {
    var targets := TargetPaths(localesPaths);
    var f := (lp: LocalePath) => PagesFor(paginate, items, base, pageSize, prefix, lp);
    var i := FlatMapSource(targets, f, r);
    var pages := f(targets[i]);
    var k :| 0 <= k < |pages| && pages[k] == r;
  }

  /** Every generated page is a page of `paginate` run with one locale's params over the base params, its other params unchanged. */
  lemma GeneratePathsOrigin<T>(paginate: Paginate<T>, items: seq<T>, base: Params, localesPaths: Option<seq<LocalePath>>, pageSize: int, prefix: string, r: PageResult<T>)
    returns (lp: LocalePath, page: PageResult<T>)
    requires r in GeneratePaths(paginate, items, base, localesPaths, pageSize, prefix)
    ensures lp in TargetPaths(localesPaths)
    ensures page in paginate(items, MergeParams(base, lp.params), pageSize)
    ensures r == WithPage(prefix, page)
  {
    var targets := TargetPaths(localesPaths);
    var f := (lp: LocalePath) => PagesFor(paginate, items, base, pageSize, prefix, lp);
    var i := FlatMapSource(targets, f, r);
    lp := targets[i];
    var pages := f(lp);
    var k :| 0 <= k < |pages| && pages[k] == r;
    page := paginate(items, MergeParams(base, lp.params), pageSize)[k];
  }

  /** Without locale paths there is one run of `paginate`, over the base params alone. */
  lemma GeneratePathsDefault<T>(paginate: Paginate<T>, items: seq<T>, base: Params, pageSize: int, prefix: string)
    ensures var results := paginate(items, base, pageSize);
      var r := GeneratePaths(paginate, items, base, None, pageSize, prefix);
      |r| == |results| && forall i :: 0 <= i < |r| ==> r[i] == WithPage(prefix, results[i])
  {
    assert MergeParams(base, map[]) == base;
    var f := (lp: LocalePath) => PagesFor(paginate, items, base, pageSize, prefix, lp);
    assert [LocalePath(map[])][1..] == [];
    assert GeneratePaths(paginate, items, base, None, pageSize, prefix) == f(LocalePath(map[])) + [];
  }

  /** An empty locale paths array yields no pages at all. */
  lemma GeneratePathsNoLocales<T>(paginate: Paginate<T>, items: seq<T>, base: Params, pageSize: int, prefix: string)
    ensures GeneratePaths(paginate, items, base, Some([]), pageSize, prefix) == []
  {
  }
}
