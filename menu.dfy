/**
 * The menu tree: pre-order flattening, the per-locale flattened menu, and
 * lookups by id (ignoring case) and by href.
 */
module Menu {
  import opened Js
  import opened Theme

  /*
   * Termination: a list is measured by its `Children` wrapper, an item by
   * itself, so that an item's children rank below the item and every item
   * of a list ranks below the list.
   */

  /** The items of `items[i..]` in pre-order: each item, then its children, dropping `null` entries at every depth. */
  function FlattenFrom(items: seq<Option<MenuItem>>, i: nat): seq<MenuItem>
    requires i <= |items|
    decreases Children(items), |items| - i
  {
    if i == |items| then []
    else
      (match items[i]
       case None => []
       case Some(m) => assert items[i] in items; FlattenItem(m))
      + FlattenFrom(items, i + 1)
  }

  /** An item followed by its flattened children. */
  function FlattenItem(m: MenuItem): seq<MenuItem>
    decreases m, 0
  {
    [m] + match m.children
          case NoChildren => []
          case Children(c) => FlattenFrom(c, 0)
  }

  /** The pre-order flattening of a menu list. */
  function Flatten(items: seq<Option<MenuItem>>): seq<MenuItem> {
    FlattenFrom(items, 0)
  }

  /** What one list entry contributes: nothing for `null`, else the item and its subtree. */
  function FlattenEntry(x: Option<MenuItem>): seq<MenuItem> {
    if x.Some? then FlattenItem(x.value) else []
  }

  /** The children array of an item, empty when absent. */
  function ChildList(m: MenuItem): seq<Option<MenuItem>> {
    if m.children.Children? then m.children.items else []
  }

  /** The number of non-null nodes in `items[i..]` and below. */
  function CountFrom(items: seq<Option<MenuItem>>, i: nat): nat
    requires i <= |items|
    decreases Children(items), |items| - i
  {
    if i == |items| then 0
    else
      (match items[i]
       case None => 0
       case Some(m) => assert items[i] in items; CountItem(m))
      + CountFrom(items, i + 1)
  }

  /** The number of nodes in the subtree of an item, itself included. */
  function CountItem(m: MenuItem): nat
    decreases m, 0
  {
    1 + match m.children
        case NoChildren => 0
        case Children(c) => CountFrom(c, 0)
  }

  /** The number of non-null nodes of a menu forest. */
  function NodeCount(items: seq<Option<MenuItem>>): nat {
    CountFrom(items, 0)
  }

  /** Flattening depends only on the remaining entries. */
  lemma {:induction false} FlattenFromSuffix(a: seq<Option<MenuItem>>, i: nat, b: seq<Option<MenuItem>>, j: nat)
    requires i <= |a| && j <= |b| && a[i..] == b[j..]
    ensures FlattenFrom(a, i) == FlattenFrom(b, j)
    decreases |a| - i
  {
    assert |a| - i == |b| - j;
    if i < |a| {
      assert a[i] == a[i..][0] == b[j];
      assert a[i + 1..] == a[i..][1..] == b[j + 1..];
      FlattenFromSuffix(a, i + 1, b, j + 1);
    }
  }

  /** A non-empty list flattens to its head's contribution followed by the flattened tail. */
  lemma FlattenCons(items: seq<Option<MenuItem>>)
    requires items != []
    ensures Flatten(items) == FlattenEntry(items[0]) + Flatten(items[1..])
  {
    FlattenFromSuffix(items, 1, items[1..], 0);
  }

  /** Flattening a concatenation is the concatenation of the flattenings. */
  lemma {:induction false} FlattenConcat(a: seq<Option<MenuItem>>, b: seq<Option<MenuItem>>)
    ensures Flatten(a + b) == Flatten(a) + Flatten(b)
    decreases |a|
  {
    if a == [] {
      assert a + b == b;
    } else {
      FlattenCons(a + b);
      FlattenCons(a);
      assert (a + b)[0] == a[0];
      assert (a + b)[1..] == a[1..] + b;
      FlattenConcat(a[1..], b);
    }
  }

  /** Pre-order for one entry: an item comes first, followed by its flattened children; a `null` entry contributes nothing. */
  lemma FlattenOne(x: Option<MenuItem>)
    ensures x.None? ==> Flatten([x]) == []
    ensures x.Some? ==> Flatten([x]) == [x.value] + Flatten(ChildList(x.value))
  {
    FlattenCons([x]);
    assert [x][1..] == [];
    if x.Some? && x.value.children.NoChildren? {
      assert Flatten([]) == [];
    }
  }

  /** The flattened menu has one entry per non-null node of the tree. */
  lemma {:induction false} FlattenFromLength(items: seq<Option<MenuItem>>, i: nat)
    requires i <= |items|
    ensures |FlattenFrom(items, i)| == CountFrom(items, i)
    decreases Children(items), |items| - i
  {
    if i < |items| {
      FlattenFromLength(items, i + 1);
      if items[i].Some? {
        assert items[i] in items;
        FlattenItemLength(items[i].value);
      }
    }
  }

  /** The flattened subtree of an item has one entry per node. */
  lemma {:induction false} FlattenItemLength(m: MenuItem)
    ensures |FlattenItem(m)| == CountItem(m)
    decreases m, 0
  {
    if m.children.Children? {
      FlattenFromLength(m.children.items, 0);
    }
  }

  /** The output length equals the number of non-null nodes. */
  lemma FlattenLength(items: seq<Option<MenuItem>>)
    ensures |Flatten(items)| == NodeCount(items)
  {
    FlattenFromLength(items, 0);
  }

  /** The present items, in order. */
  function Present(items: seq<Option<MenuItem>>): seq<MenuItem> {
    if items == [] then []
    else (if items[0].Some? then [items[0].value] else []) + Present(items[1..])
  }

  /** A list whose items have no children (or an empty children array) flattens to its present items, unchanged and in order. */
  lemma {:induction false} FlattenChildless(items: seq<Option<MenuItem>>)
    requires forall i :: 0 <= i < |items| && items[i].Some? ==> ChildList(items[i].value) == []
    ensures Flatten(items) == Present(items)
    decreases |items|
  {
    if items != [] {
      FlattenCons(items);
      FlattenChildless(items[1..]);
      FlattenOne(items[0]);
      assert Flatten([]) == [];
    }
  }

  /** `flattenMenuItems(items)`: a loop over the list that pushes each item and then, recursively, its children. */
  method FlattenMenuItems(items: seq<Option<MenuItem>>) returns (flattened: seq<MenuItem>)
    ensures flattened == Flatten(items)
    decreases Children(items)
  {
    flattened := [];
    for i := 0 to |items|
      invariant flattened == Flatten(items[..i])
    {
      assert items[..i + 1] == items[..i] + [items[i]];
      FlattenConcat(items[..i], [items[i]]);
      FlattenOne(items[i]);
      var entry := items[i];
      if entry.Some? {
        var item := entry.value;
        flattened := flattened + [item];
        if item.children.Children? {
          assert entry in items;
          var sub := FlattenMenuItems(item.children.items);
          flattened := flattened + sub;
        }
      }
    }
    assert items[..|items|] == items;
  }

  /**
   * `getFlattenedMenu(locale = 'zh-CN')` over the stored configuration: the resolved
   * menu flattened, `[]` when there is none, and a `TypeError` when the menu
   * resolves to a plain object that is not an array.
   */
  function GetFlattenedMenu(stored: FullThemeConfig, locale: Option<string>): (r: Result<seq<MenuItem>>)
    ensures ResolveThemeConfig(stored, locale.GetOr(DefaultLocale)).menu.None? ==> r == Ok([])
    ensures r.Throws? <==> ResolveThemeConfig(stored, locale.GetOr(DefaultLocale)).menu.Some? && ResolveThemeConfig(stored, locale.GetOr(DefaultLocale)).menu.value.Keyed?
  {
    match ResolveThemeConfig(stored, locale.GetOr(DefaultLocale)).menu
    case None => Ok([])
    case Some(Direct(list)) => Ok(Flatten(list))
    case Some(Keyed(_)) => Throws("TypeError: menu is not iterable")
  }

  /** The position of the first item satisfying `p`. */
  function FindIndex(items: seq<MenuItem>, p: MenuItem -> bool): (r: Option<nat>)
    ensures r.Some? ==> r.value < |items| && p(items[r.value])
    ensures r.Some? ==> forall j :: 0 <= j < r.value ==> !p(items[j])
    ensures r.None? ==> forall j :: 0 <= j < |items| ==> !p(items[j])
  {
    if items == [] then None
    else if p(items[0]) then Some(0)
    else match FindIndex(items[1..], p)
      case None => None
      case Some(i) => Some(i + 1)
  }

  /** `find`: the first item satisfying `p`, or `undefined`. */
  function Find(items: seq<MenuItem>, p: MenuItem -> bool): Option<MenuItem> {
    match FindIndex(items, p)
    case None => None
    case Some(i) => Some(items[i])
  }

  /** The id test: an item with an id whose lowercase equals the lowercased query. */
  predicate IdMatches(m: MenuItem, id: string) {
    m.id != "" && ToLower(m.id) == ToLower(id)
  }

  /** `findMenuItemById(id, locale)`: the first flattened item whose id equals `id` ignoring case. */
  function FindMenuItemById(stored: FullThemeConfig, id: string, locale: Option<string>): (r: Result<Option<MenuItem>>)
    ensures r.Throws? <==> GetFlattenedMenu(stored, locale).Throws?
    ensures r.Ok? && r.value.Some? ==>
      var items := GetFlattenedMenu(stored, locale).value;
      exists k :: 0 <= k < |items| && items[k] == r.value.value && IdMatches(items[k], id)
        && forall j :: 0 <= j < k ==> !IdMatches(items[j], id)
    ensures r.Ok? && r.value.None? ==>
      var items := GetFlattenedMenu(stored, locale).value;
      forall j :: 0 <= j < |items| ==> !IdMatches(items[j], id)
  {
    match GetFlattenedMenu(stored, locale)
    case Throws(e) => Throws(e)
    case Ok(items) => Ok(Find(items, (m: MenuItem) => IdMatches(m, id)))
  }

  /** `findMenuItemByHref(href, locale)`: the first flattened item whose href is exactly `href`. */
  function FindMenuItemByHref(stored: FullThemeConfig, href: string, locale: Option<string>): (r: Result<Option<MenuItem>>)
    ensures r.Throws? <==> GetFlattenedMenu(stored, locale).Throws?
    ensures r.Ok? && r.value.Some? ==>
      var items := GetFlattenedMenu(stored, locale).value;
      exists k :: 0 <= k < |items| && items[k] == r.value.value && items[k].href == Some(href)
        && forall j :: 0 <= j < k ==> items[j].href != Some(href)
    ensures r.Ok? && r.value.None? ==>
      var items := GetFlattenedMenu(stored, locale).value;
      forall j :: 0 <= j < |items| ==> items[j].href != Some(href)
  {
    match GetFlattenedMenu(stored, locale)
    case Throws(e) => Throws(e)
    case Ok(items) => Ok(Find(items, (m: MenuItem) => m.href == Some(href)))
  }

  /** The id lookup ignores ASCII case: `Coding` finds the item with id `coding`. */
  lemma IdMatchIgnoresCase()
    ensures IdMatches(MenuItem("coding", "Coding", Some("/categories/coding"), None, NoChildren), "Coding")
  {
    assert ToLower("Coding") == "coding" by {
      assert ToLowerChar('C') == 'c';
    }
    assert ToLower("coding") == "coding";
  }
}
