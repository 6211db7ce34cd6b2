/**
 * The post queries: pagination settings, the date ordering, post links, the
 * tag and category lists and filters, and the paginated route list.
 */
module Posts {
  import opened Js
  import opened Theme
  import opened Collections
  import Paths
  import Menu
  import Normalize

  /** The front matter of a post; dates are timestamps in milliseconds. */
  datatype PostData = PostData(
    title: string,
    slug: Option<string>,
    description: Option<string>,
    date: Option<int>,
    lastModified: Option<int>,
    categories: Option<seq<string>>,
    tags: Option<seq<string>>,
    thumbnail: Option<string>,
    locale: Option<string>)

  /** A collection entry: the slug taken from its file name, and its front matter. */
  datatype Post = Post(slug: string, data: PostData)

  /** `{ ...post, link }`. */
  datatype PostWithLink = PostWithLink(post: Post, link: string)

  /** What `getPaginationConfig` returns. */
  datatype PaginationSettings = PaginationSettings(pageSize: int, orderBy: string, prefix: string)

  const DefaultPageSize := 10
  const DefaultOrderBy := "-date"
  const DefaultPrefix := "page"

  /** `getPaginationConfig()`: each configured field, or its default when the field or the whole entry is missing (`??`). */
  function GetPaginationConfig(stored: FullThemeConfig): (r: PaginationSettings)
    ensures var c := stored.pagination;
      && (c.Some? && c.value.pageSize.Some? ==> r.pageSize == c.value.pageSize.value)
      && (c.None? || c.value.pageSize.None? ==> r.pageSize == DefaultPageSize)
      && (c.Some? && c.value.orderBy.Some? ==> r.orderBy == c.value.orderBy.value)
      && (c.None? || c.value.orderBy.None? ==> r.orderBy == DefaultOrderBy)
      && (c.Some? && c.value.prefix.Some? ==> r.prefix == c.value.prefix.value)
      && (c.None? || c.value.prefix.None? ==> r.prefix == DefaultPrefix)
  {
    if stored.pagination.None? then PaginationSettings(DefaultPageSize, DefaultOrderBy, DefaultPrefix)
    else
      var c := stored.pagination.value;
      PaginationSettings(c.pageSize.GetOr(DefaultPageSize), c.orderBy.GetOr(DefaultOrderBy), c.prefix.GetOr(DefaultPrefix))
  }

  /** `??` keeps falsy values: a page size of 0 and empty strings are used as configured. */
  lemma GetPaginationConfigKeepsFalsy(stored: FullThemeConfig)
    requires stored.pagination == Some(PaginationConfig(Some(0), Some(""), Some("")))
    ensures GetPaginationConfig(stored) == PaginationSettings(0, "", "")
  {
  }

  // ---- Sorting ----

  /** A leading `-` asks for descending order. */
  predicate IsDescending(orderBy: string) {
    StartsWith(orderBy, "-")
  }

  /** The field to sort on: `orderBy` without its leading `-`. */
  function OrderField(orderBy: string): (f: string)
    ensures IsDescending(orderBy) ==> "-" + f == orderBy
    ensures !IsDescending(orderBy) ==> f == orderBy
  {
    if IsDescending(orderBy) then orderBy[1..] else orderBy
  }

  /** `new Date(post.data[field] || 0).getTime()`: a missing date reads as 0, and so does a field that holds no date. */
  function Timestamp(data: PostData, field: string): int {
    if field == "date" then data.date.GetOr(0)
    else if field == "lastModified" then data.lastModified.GetOr(0)
    else 0
  }

  /** The comparator `getSortedPosts` passes to `sort`. */
  function Compare(orderBy: string, a: Post, b: Post): int {
    var av := Timestamp(a.data, OrderField(orderBy));
    var bv := Timestamp(b.data, OrderField(orderBy));
    if IsDescending(orderBy) then bv - av else av - bv
  }

  /** The key the comparator orders by: the timestamp, negated for descending order. */
  function SortKey(orderBy: string, p: Post): (int, int) {
    var t := Timestamp(p.data, OrderField(orderBy));
    (0, if IsDescending(orderBy) then -t else t)
  }

  /** The comparator puts `a` first exactly when its key is below `b`'s, and ties exactly when the keys are equal. */
  lemma CompareMatchesSortKey(orderBy: string, a: Post, b: Post)
    ensures Compare(orderBy, a, b) < 0 <==> !KeyLe(SortKey(orderBy, b), SortKey(orderBy, a))
    ensures Compare(orderBy, a, b) == 0 <==> SortKey(orderBy, a) == SortKey(orderBy, b)
  {
  }

  /** `getSortedPosts()` over the loaded collection: the stable sort with the comparator above. */
  function GetSortedPosts(stored: FullThemeConfig, collection: seq<Post>): seq<Post> {
    var orderBy := GetPaginationConfig(stored).orderBy;
    SortBy(collection, (p: Post) => SortKey(orderBy, p))
  }

  /** The sorted posts are a permutation of the collection, ordered by the order field's timestamp, descending exactly when `orderBy` starts with `-`. */
  lemma SortedPostsOrder(stored: FullThemeConfig, collection: seq<Post>)
    ensures multiset(GetSortedPosts(stored, collection)) == multiset(collection)
    ensures var orderBy := GetPaginationConfig(stored).orderBy;
      var r := GetSortedPosts(stored, collection);
      var f := OrderField(orderBy);
      forall i, j :: 0 <= i < j < |r| ==>
        if IsDescending(orderBy) then Timestamp(r[i].data, f) >= Timestamp(r[j].data, f)
        else Timestamp(r[i].data, f) <= Timestamp(r[j].data, f)
  {
    var orderBy := GetPaginationConfig(stored).orderBy;
    SortBySpec(collection, (p: Post) => SortKey(orderBy, p));
  }

  /** Posts whose order timestamps are equal (the comparator returns 0) keep their collection order. */
  lemma SortedPostsStable(stored: FullThemeConfig, collection: seq<Post>, k: (int, int))
    ensures var orderBy := GetPaginationConfig(stored).orderBy;
      var key := (p: Post) => SortKey(orderBy, p);
      Ties(GetSortedPosts(stored, collection), key, k) == Ties(collection, key, k)
  {
    var orderBy := GetPaginationConfig(stored).orderBy;
    SortByStable(collection, (p: Post) => SortKey(orderBy, p), k);
  }

  // ---- Links ----

  /** `/posts/${data.slug ?? slug}`. */
  function PostLink(p: Post): string {
    "/posts/" + p.data.slug.GetOr(p.slug)
  }

  /** `addLinksToItems(posts)`: the same posts in the same order, each with its link. */
  function AddLinksToItems(posts: seq<Post>): (r: seq<PostWithLink>)
    ensures |r| == |posts|
    ensures forall i :: 0 <= i < |r| ==> r[i].post == posts[i]
    ensures forall i :: 0 <= i < |r| ==> r[i].link == "/posts/" + posts[i].data.slug.GetOr(posts[i].slug)
  {
    seq(|posts|, i requires 0 <= i < |posts| => PostWithLink(posts[i], PostLink(posts[i])))
  }

  /** A post whose slug is one plain path segment gets a link that `normalize` leaves unchanged. */
  lemma PostLinkIsNormal(p: Post)
    requires Normalize.IsSegment(p.data.slug.GetOr(p.slug))
    ensures Normalize.Normalize(Some(PostLink(p))) == PostLink(p)
  {
    var slug := p.data.slug.GetOr(p.slug);
    assert Normalize.IsSegment("posts");
    Normalize.SegmentPath("posts");
    Normalize.AppendSegment("/posts", slug);
    assert "/posts" + "/" + slug == PostLink(p);
    Normalize.NormalizeFixedPoint(PostLink(p));
  }

  // ---- Tags ----

  /** `post.data.tags ?? []`. */
  function TagsOf(p: Post): seq<string> {
    p.data.tags.GetOr([])
  }

  /** `getAllTags()` over the loaded collection: every tag of every sorted post goes into a set. */
  method GetAllTags(stored: FullThemeConfig, collection: seq<Post>) returns (tags: seq<string>)
    ensures tags == Dedup(FlatMap(GetSortedPosts(stored, collection), TagsOf))
  {
    var posts := GetSortedPosts(stored, collection);
    tags := CollectSet(posts, TagsOf);
  }

  /** The tag list has no duplicates, lists exactly the tags of the collection, and keeps first-occurrence order over the sorted posts. */
  lemma AllTagsSpec(stored: FullThemeConfig, collection: seq<Post>)
    ensures var tags := Dedup(FlatMap(GetSortedPosts(stored, collection), TagsOf));
      && NoDuplicates(tags)
      && (forall t :: t in tags <==> Produces(collection, TagsOf, t))
    ensures var stream := FlatMap(GetSortedPosts(stored, collection), TagsOf);
      var tags := Dedup(stream);
      (forall t :: t in tags ==> t in stream)
      && forall i, j :: 0 <= i < j < |tags| ==> FirstIndex(stream, tags[i]) < FirstIndex(stream, tags[j])
  {
    var sorted := GetSortedPosts(stored, collection);
    CollectSetSpec(sorted, TagsOf);
    SortedPostsOrder(stored, collection);
    forall t ensures Produces(sorted, TagsOf, t) <==> Produces(collection, TagsOf, t) {
      ProducesPermutation(sorted, collection, TagsOf, t);
    }
  }

  /** `filterPostsByTag(posts, tag)`: the posts whose tags include `tag` exactly, in order; posts without tags never match. */
  function FilterPostsByTag(posts: seq<Post>, tag: string): (r: seq<Post>)
    ensures forall i :: 0 <= i < |r| ==> r[i] in posts && r[i].data.tags.Some? && tag in r[i].data.tags.value
    ensures forall i :: 0 <= i < |posts| && tag in TagsOf(posts[i]) ==> posts[i] in r
  {
    Filter(posts, (p: Post) => tag in TagsOf(p))
  }

  /** The tag filter keeps relative order. */
  lemma FilterPostsByTagConcat(a: seq<Post>, b: seq<Post>, tag: string)
    ensures FilterPostsByTag(a + b, tag) == FilterPostsByTag(a, tag) + FilterPostsByTag(b, tag)
  {
    FilterConcat(a, b, (p: Post) => tag in TagsOf(p));
  }

  // ---- Categories ----

  /** The lowercased categories of a post. */
  function LowerCategories(p: Post): (r: seq<string>)
    ensures |r| == |p.data.categories.GetOr([])|
    ensures forall k :: 0 <= k < |r| ==> r[k] == ToLower(p.data.categories.GetOr([])[k])
  {
    var cs := p.data.categories.GetOr([]);
    seq(|cs|, k requires 0 <= k < |cs| => ToLower(cs[k]))
  }

  /** Some category of `p` equals `category` ignoring ASCII case. */
  predicate InCategory(p: Post, category: string) {
    exists k :: 0 <= k < |p.data.categories.GetOr([])| && ToLower(p.data.categories.GetOr([])[k]) == ToLower(category)
  }

  /** `filterPostsByCategory(posts, category)`: the posts with a category equal to `category` ignoring case, in order. */
  function FilterPostsByCategory(posts: seq<Post>, category: string): (r: seq<Post>)
    ensures forall i :: 0 <= i < |r| ==> r[i] in posts && InCategory(r[i], category)
    ensures forall i :: 0 <= i < |posts| && InCategory(posts[i], category) ==> posts[i] in r
  {
    var categoryLower := ToLower(category);
    var r := Filter(posts, (p: Post) => categoryLower in LowerCategories(p));
    assert forall p: Post :: categoryLower in LowerCategories(p) <==> InCategory(p, category) by {
      forall p: Post ensures categoryLower in LowerCategories(p) <==> InCategory(p, category) {
        if categoryLower in LowerCategories(p) {
          var k :| 0 <= k < |LowerCategories(p)| && LowerCategories(p)[k] == categoryLower;
        }
        if InCategory(p, category) {
          var k :| 0 <= k < |p.data.categories.GetOr([])| && ToLower(p.data.categories.GetOr([])[k]) == ToLower(category);
          assert LowerCategories(p)[k] == categoryLower;
        }
      }
    }
    r
  }

  /** The category filter ignores the case of the query: querying `category` or its lowercase selects the same posts. */
  lemma FilterPostsByCategoryIgnoresCase(posts: seq<Post>, category: string)
    ensures FilterPostsByCategory(posts, category) == FilterPostsByCategory(posts, ToLower(category))
  {
    ToLowerIdempotent(category);
  }

  /** A post in category `coding` is found under `Coding`. */
  lemma CategoryCodingExample(data: PostData)
    requires data.categories == Some(["coding"])
    ensures FilterPostsByCategory([Post("hello", data)], "Coding") == [Post("hello", data)]
  {
    var p := Post("hello", data);
    assert ToLower("Coding") == "coding" by {
      assert ToLowerChar('C') == 'c';
    }
    assert ToLower("coding") == "coding";
    assert p.data.categories.GetOr([])[0] == "coding";
    assert ToLower(p.data.categories.GetOr([])[0]) == ToLower("Coding");
    assert InCategory(p, "Coding");
    var r := FilterPostsByCategory([p], "Coding");
    assert p in r;
    assert |r| <= 1 by {
      assert forall i :: 0 <= i < |r| ==> r[i] in [p];
    }
  }

  /** The menu items `getAllCategories` keeps: category links, or any item with an id. */
  predicate IsCategoryItem(m: MenuItem) {
    (m.href.Some? && StartsWith(m.href.value, "/categories/")) || m.id != ""
  }

  /** The category ids one flattened menu contributes: filter, lowercase, drop empty ids. */
  function CategoryIds(items: seq<MenuItem>): seq<string> {
    var candidates := Filter(items, IsCategoryItem);
    var ids := seq(|candidates|, i requires 0 <= i < |candidates| => ToLower(candidates[i].id));
    Filter(ids, (id: string) => id != "")
  }

  /** The ids contributed are exactly the lowercased ids of the items that have one. */
  lemma CategoryIdsMembers(items: seq<MenuItem>)
    ensures forall x :: x in CategoryIds(items) <==> exists i :: 0 <= i < |items| && items[i].id != "" && x == ToLower(items[i].id)
  {
    var candidates := Filter(items, IsCategoryItem);
    var ids := seq(|candidates|, i requires 0 <= i < |candidates| => ToLower(candidates[i].id));
    var r := Filter(ids, (id: string) => id != "");
    assert r == CategoryIds(items);
    forall x | x in r
      ensures exists i :: 0 <= i < |items| && items[i].id != "" && x == ToLower(items[i].id)
    {
      var a :| 0 <= a < |r| && r[a] == x;
      assert x in ids;
      var b :| 0 <= b < |ids| && ids[b] == x;
      assert candidates[b] in items;
      var i :| 0 <= i < |items| && items[i] == candidates[b];
      assert items[i].id != "";
    }
    forall x, i | 0 <= i < |items| && items[i].id != "" && x == ToLower(items[i].id)
      ensures x in r
    {
      assert IsCategoryItem(items[i]);
      assert items[i] in candidates;
      var b :| 0 <= b < |candidates| && candidates[b] == items[i];
      assert ids[b] == x;
      assert x != "";
    }
  }

  /** The locales whose menus `getAllCategories` reads, in order. */
  const CategoryLocales: seq<string> := ["zh-CN", "en-US"]

  /** The ids added to the set, locale by locale; the first menu that throws ends the walk. */
  function CategoryStream(stored: FullThemeConfig, locales: seq<string>): Result<seq<string>>
    decreases |locales|
  {
    if locales == [] then Ok([])
    else
      match CategoryStream(stored, locales[..|locales| - 1])
      case Throws(e) => Throws(e)
      case Ok(ids) =>
        match Menu.GetFlattenedMenu(stored, Some(locales[|locales| - 1]))
        case Throws(e) => Throws(e)
        case Ok(items) => Ok(ids + CategoryIds(items))
  }

  /** Once a menu has thrown, reading more locales does not change the outcome. */
  lemma {:induction false} CategoryStreamThrows(stored: FullThemeConfig, locales: seq<string>, k: nat)
    requires k <= |locales| && CategoryStream(stored, locales[..k]).Throws?
    ensures CategoryStream(stored, locales) == CategoryStream(stored, locales[..k])
    decreases |locales|
  {
    if k == |locales| {
      assert locales[..k] == locales;
    } else {
      var p := locales[..|locales| - 1];
      assert p[..k] == locales[..k];
      CategoryStreamThrows(stored, p, k);
    }
  }

  /** What `getAllCategories()` returns, or the error it throws. */
  function AllCategories(stored: FullThemeConfig): Result<seq<string>> {
    match CategoryStream(stored, CategoryLocales)
    case Throws(e) => Throws(e)
    case Ok(ids) => Ok(Dedup(ids))
  }

  /** `getAllCategories()`: a loop over the two locales, each adding its flattened menu's category ids to a set. */
  method GetAllCategories(stored: FullThemeConfig) returns (r: Result<seq<string>>)
    ensures r == AllCategories(stored)
  {
    var locales := CategoryLocales;
    var all: seq<string> := [];
    for i := 0 to |locales|
      invariant CategoryStream(stored, locales[..i]).Ok?
      invariant all == Dedup(CategoryStream(stored, locales[..i]).value)
    {
      assert locales[..i + 1][..i] == locales[..i];
      var menu := Menu.GetFlattenedMenu(stored, Some(locales[i]));
      if menu.Throws? {
        CategoryStreamThrows(stored, locales, i + 1);
        return Throws(menu.error);
      }
      all := AddAll(all, CategoryStream(stored, locales[..i]).value, CategoryIds(menu.value));
    }
    assert locales[..|locales|] == locales;
    r := Ok(all);
  }

  /** Without a throwing menu, the categories are the two menus' ids, zh-CN first, through a set. */
  lemma AllCategoriesUnfold(stored: FullThemeConfig)
    requires Menu.GetFlattenedMenu(stored, Some("zh-CN")).Ok? && Menu.GetFlattenedMenu(stored, Some("en-US")).Ok?
    ensures AllCategories(stored) == Ok(Dedup(
      CategoryIds(Menu.GetFlattenedMenu(stored, Some("zh-CN")).value) + CategoryIds(Menu.GetFlattenedMenu(stored, Some("en-US")).value)))
  {
    var zh := Menu.GetFlattenedMenu(stored, Some("zh-CN")).value;
    assert CategoryLocales[..1] == ["zh-CN"];
    assert ["zh-CN"][..0] == [];
    assert CategoryStream(stored, []) == Ok([]);
    assert [] + CategoryIds(zh) == CategoryIds(zh);
    assert CategoryStream(stored, ["zh-CN"]) == Ok(CategoryIds(zh));
    assert CategoryLocales[..|CategoryLocales| - 1] == CategoryLocales[..1];
  }

  /** `x` is the lowercased id of an item of the flattened menu for `locale`. */
  predicate MenuCategory(stored: FullThemeConfig, locale: string, x: string) {
    var menu := Menu.GetFlattenedMenu(stored, Some(locale));
    menu.Ok? && exists i :: 0 <= i < |menu.value| && menu.value[i].id != "" && x == ToLower(menu.value[i].id)
  }

  /** Without a throwing menu, each category is listed once. */
  lemma AllCategoriesDistinct(stored: FullThemeConfig)
    requires Menu.GetFlattenedMenu(stored, Some("zh-CN")).Ok? && Menu.GetFlattenedMenu(stored, Some("en-US")).Ok?
    ensures AllCategories(stored).Ok? && NoDuplicates(AllCategories(stored).value)
  {
    AllCategoriesUnfold(stored);
    DedupNoDuplicates(CategoryIds(Menu.GetFlattenedMenu(stored, Some("zh-CN")).value) + CategoryIds(Menu.GetFlattenedMenu(stored, Some("en-US")).value));
  }

  /** Without a throwing menu, the categories are exactly the lowercased ids of the zh-CN and en-US flattened menus. */
  lemma AllCategoriesSpec(stored: FullThemeConfig)
    requires Menu.GetFlattenedMenu(stored, Some("zh-CN")).Ok? && Menu.GetFlattenedMenu(stored, Some("en-US")).Ok?
    ensures AllCategories(stored).Ok?
    ensures forall x :: x in AllCategories(stored).value <==> MenuCategory(stored, "zh-CN", x) || MenuCategory(stored, "en-US", x)
  {
    var zh := Menu.GetFlattenedMenu(stored, Some("zh-CN")).value;
    var en := Menu.GetFlattenedMenu(stored, Some("en-US")).value;
    AllCategoriesUnfold(stored);
    var ids := CategoryIds(zh) + CategoryIds(en);
    DedupMembers(ids);
    CategoryIdsMembers(zh);
    CategoryIdsMembers(en);
    forall x ensures x in ids <==> MenuCategory(stored, "zh-CN", x) || MenuCategory(stored, "en-US", x) {
      assert x in ids <==> x in CategoryIds(zh) || x in CategoryIds(en);
    }
  }

  // ---- Pagination paths ----

  /** `generatePaginationPaths({ paginate }, { posts, baseParams, localesPaths })`; missing base params are `{}`. */
  function GeneratePaginationPaths(
    stored: FullThemeConfig, paginate: Paths.Paginate<PostWithLink>, posts: seq<PostWithLink>,
    baseParams: Option<Paths.Params>, localesPaths: Option<seq<Paths.LocalePath>>): seq<Paths.PageResult<PostWithLink>>
  {
    var c := GetPaginationConfig(stored);
    Paths.GeneratePaths(paginate, posts, baseParams.GetOr(map[]), localesPaths, c.pageSize, c.prefix)
  }

  /** Page 1 has no `page` param; page `n` has `"{prefix}/{n}"` with the configured prefix. */
  lemma PaginationPathsPageParam(
    stored: FullThemeConfig, paginate: Paths.Paginate<PostWithLink>, posts: seq<PostWithLink>,
    baseParams: Option<Paths.Params>, localesPaths: Option<seq<Paths.LocalePath>>)
    ensures forall r :: r in GeneratePaginationPaths(stored, paginate, posts, baseParams, localesPaths) ==>
      Paths.PageKey in r.params && r.params[Paths.PageKey] == Paths.PageParam(GetPaginationConfig(stored).prefix, r.currentPage)
  {
    var c := GetPaginationConfig(stored);
    forall r | r in GeneratePaginationPaths(stored, paginate, posts, baseParams, localesPaths)
      ensures Paths.PageKey in r.params && r.params[Paths.PageKey] == Paths.PageParam(c.prefix, r.currentPage)
    {
      Paths.GeneratePathsPageParam(paginate, posts, baseParams.GetOr(map[]), localesPaths, c.pageSize, c.prefix, r);
    }
  }
}
