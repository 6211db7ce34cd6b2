/**
 * `getRealTagFromParams`: the tag of a tag-page route, with the page part
 * (`"{prefix}/{n}"`, as `generatePaginationPaths` builds it) cut off.
 */
module Tag {
  import opened Js
  import Theme
  import Print
  import Posts
  import Paths

  /** `[tag, page].filter(Boolean).join('/')`. */
  function Route(tag: string, page: Option<string>): string {
    Join(Print.Truthy([Some(tag), page]), "/")
  }

  /** The separator the route is split on: the page prefix between slashes. */
  function PageSeparator(prefix: string): (sep: string)
    ensures |sep| == |prefix| + 2
  {
    "/" + prefix + "/"
  }

  /** `getRealTagFromParams({ tag, page })`: the first piece of the route split on `/{prefix}/`. */
  function GetRealTagFromParams(stored: Theme.FullThemeConfig, tag: string, page: Option<string>): string {
    var prefix := Posts.GetPaginationConfig(stored).prefix;
    Split(Route(tag, page), PageSeparator(prefix))[0]
  }

  /** The route for each combination of a truthy or falsy tag and page. */
  lemma RouteCases(tag: string, page: Option<string>)
    ensures page.None? || page.value == "" ==> Route(tag, page) == tag
    ensures tag == "" && page.Some? ==> Route(tag, page) == page.value
    ensures tag != "" && page.Some? && page.value != "" ==> Route(tag, page) == tag + "/" + page.value
  {
    var args := [Some(tag), page];
    assert args[1..] == [page];
    assert [page][1..] == [];
    var last := if page.Some? && page.value != "" then [page.value] else [];
    assert Print.Truthy([page]) == last + Print.Truthy([]);
    assert Print.Truthy(args) == (if tag != "" then [tag] else []) + last;
    if tag != "" && last != [] {
      assert [tag] + last == [tag, page.value];
      assert [tag, page.value][1..] == [page.value];
      assert Join([tag, page.value], "/") == tag + "/" + Join([page.value], "/");
    }
  }

  /**
   * The result is the route up to the first `/{prefix}/`, or the whole route
   * when that does not occur: a prefix of the route that holds no separator.
   */
  lemma RealTagIsRoutePrefix(stored: Theme.FullThemeConfig, tag: string, page: Option<string>)
    ensures var route := Route(tag, page);
      var sep := PageSeparator(Posts.GetPaginationConfig(stored).prefix);
      var r := GetRealTagFromParams(stored, tag, page);
      && StartsWith(route, r)
      && !Contains(r, sep)
      && (!Contains(route, sep) ==> r == route)
      && (Contains(route, sep) ==> r == route[..IndexOf(route, sep).value])
  {
    var route := Route(tag, page);
    var sep := PageSeparator(Posts.GetPaginationConfig(stored).prefix);
    SplitPiecesAvoidSeparator(route, sep);
  }

  /** Without a page, the result is `tag` up to its first `/{prefix}/`, or `tag` itself. */
  lemma RealTagWithoutPage(stored: Theme.FullThemeConfig, tag: string)
    ensures var sep := PageSeparator(Posts.GetPaginationConfig(stored).prefix);
      var r := GetRealTagFromParams(stored, tag, None);
      && (!Contains(tag, sep) ==> r == tag)
      && (Contains(tag, sep) ==> r == tag[..IndexOf(tag, sep).value])
  {
    RouteCases(tag, None);
    RealTagIsRoutePrefix(stored, tag, None);
  }

  /** With an empty tag the route is the page string alone. */
  lemma RealTagEmptyTag(stored: Theme.FullThemeConfig, page: string)
    ensures var sep := PageSeparator(Posts.GetPaginationConfig(stored).prefix);
      GetRealTagFromParams(stored, "", Some(page)) == Split(page, sep)[0]
  {
    RouteCases("", Some(page));
  }

  /**
   * Round trip with the page param: for every page `n`, the tag comes back
   * whole, provided the separator does not already occur in
   * `tag + "/" + prefix` (inside the tag, or straddling its end).
   */
  lemma RealTagOfPageParam(stored: Theme.FullThemeConfig, tag: string, n: nat)
    requires n >= 1 && tag != ""
    requires var prefix := Posts.GetPaginationConfig(stored).prefix;
      !Contains(tag + "/" + prefix, PageSeparator(prefix))
    ensures var prefix := Posts.GetPaginationConfig(stored).prefix;
      GetRealTagFromParams(stored, tag, Paths.PageParam(prefix, n)) == tag
  {
    RouteOfPageParam(tag, Posts.GetPaginationConfig(stored).prefix, n);
  }

  /** The same round trip for any page prefix, on the route string. */
  lemma RouteOfPageParam(tag: string, prefix: string, n: nat)
    requires n >= 1 && tag != ""
    requires !Contains(tag + "/" + prefix, PageSeparator(prefix))
    ensures Split(Route(tag, Paths.PageParam(prefix, n)), PageSeparator(prefix))[0] == tag
  {
    var sep := PageSeparator(prefix);
    var page := Paths.PageParam(prefix, n);
    RouteCases(tag, page);
    if n == 1 {
      assert tag + "/" + prefix == tag + ("/" + prefix);
      SplitWithoutSeparator(tag, sep, "/" + prefix);
    } else {
      var num := NatToString(n);
      assert page.value == prefix + "/" + num;
      assert Route(tag, page) == tag + sep + num;
      assert tag + sep[..|sep| - 1] == tag + "/" + prefix;
      SplitBeforeSeparator(tag, sep, num);
    }
  }

  /** A string with no separator, even when followed by `tail`, splits into itself. */
  lemma SplitWithoutSeparator(s: string, sep: string, tail: string)
    requires |sep| > 0 && !Contains(s + tail, sep)
    ensures Split(s, sep)[0] == s
  {
    assert (s + tail)[..|s|] == s;
    NotContainsPrefix(s + tail, sep, |s|);
    SplitFirst(s, sep);
  }

  /** `s + sep + rest` splits first at that separator when none reaches into `s` earlier. */
  lemma SplitBeforeSeparator(s: string, sep: string, rest: string)
    requires |sep| > 0 && !Contains(s + sep[..|sep| - 1], sep)
    ensures Split(s + sep + rest, sep)[0] == s
  {
    var route := s + sep + rest;
    assert route[..|s| + |sep| - 1] == s + sep[..|sep| - 1];
    assert route[|s|..|s| + |sep|] == sep;
    IndexOfFirstAt(route, sep, |s|);
    SplitFirst(route, sep);
    assert route[..|s|] == s;
  }

  /** A tag ending in `/{prefix}` loses that end when a page is present: `x/page` with page `page/2` gives `x`. */
  lemma RealTagStraddle(stored: Theme.FullThemeConfig)
    requires stored.pagination.None?
    ensures GetRealTagFromParams(stored, "x/page", Some("page/2")) == "x"
  {
    var sep := PageSeparator("page");
    assert sep == "/page/";
    RouteCases("x/page", Some("page/2"));
    var route := "x/page" + "/" + "page/2";
    assert route[1..7] == sep;
    var pre := route[..6];
    forall j ensures !IsAt(pre, sep, j) {
      if j == 0 {
        assert pre[0] != sep[0];
      }
    }
    assert IndexOf(pre, sep) == None;
    IndexOfFirstAt(route, sep, 1);
    SplitFirst(route, sep);
    assert route[..1] == "x";
  }
}
