/**
 * The pagination control builder: from the current page, the number of
 * pages and the neighbour count to the render sequence
 * prev, page numbers with ellipses at the gaps, next.
 */
module Pagination {
  import opened Js

  /** One render unit of the control (the `Pager` record of the source). */
  datatype Pager =
    | Prev(link: Option<string>, disabled: bool)
    | PageNumber(page: int, pageLink: string, active: bool)
    | Ellipsis
    | Next(link: Option<string>, disabled: bool)

  function Min(a: int, b: int): int { if a <= b then a else b }
  function Max(a: int, b: int): int { if a >= b then a else b }

  /** The current page clamped into [1, max(1, totalPages)]. */
  function SafeCurrent(currentPage: int, totalPages: int): (s: int)
    ensures 1 <= s && (totalPages >= 1 ==> s <= totalPages)
    ensures 1 <= currentPage && currentPage <= totalPages ==> s == currentPage
  {
    Min(Max(currentPage, 1), Max(1, totalPages))
  }

  /** The pages the control shows: the first, the last, and the neighbours strictly between them. */
  predicate Shown(x: int, safe: int, totalPages: int, neighborCount: int) {
    || x == 1
    || (totalPages > 1 && x == totalPages)
    || (safe - neighborCount <= x <= safe + neighborCount && 1 < x < totalPages)
  }

  /** The pages pushed by the neighbour loop while it runs from `lo` up to (excluding) `hi`. */
  function Neighbours(lo: int, hi: int, totalPages: int): seq<int>
    decreases hi - lo
  {
    if hi <= lo then []
    else Neighbours(lo, hi - 1, totalPages) + (if 1 < hi - 1 < totalPages then [hi - 1] else [])
  }

  /** One more round of the neighbour loop. */
  lemma NeighboursNext(lo: int, p: int, totalPages: int)
    requires lo <= p
    ensures Neighbours(lo, p + 1, totalPages) == Neighbours(lo, p, totalPages) + (if 1 < p < totalPages then [p] else [])
  {
  }

  /** The neighbour loop pushes exactly the pages of its window strictly between the first and the last. */
  lemma {:induction false} NeighboursMembers(lo: int, hi: int, totalPages: int)
    ensures forall x :: x in Neighbours(lo, hi, totalPages) <==> lo <= x < hi && 1 < x < totalPages
    decreases hi - lo
  {
    if hi > lo {
      NeighboursMembers(lo, hi - 1, totalPages);
    }
  }

  /** The pages pushed before the neighbour loop: the first and, when different, the last. */
  function Ends(totalPages: int): seq<int> {
    [1] + (if totalPages > 1 then [totalPages] else [])
  }

  predicate StrictlyIncreasing(s: seq<int>) {
    forall i, j :: 0 <= i < j < |s| ==> s[i] < s[j]
  }

  /** Inserting into an ascending sequence, dropping a duplicate. */
  function InsertSorted(x: int, s: seq<int>): seq<int>
  {
    if s == [] then [x]
    else if x < s[0] then [x] + s
    else if x == s[0] then s
    else [s[0]] + InsertSorted(x, s[1..])
  }

  lemma {:induction false} InsertSortedSpec(x: int, s: seq<int>)
    requires StrictlyIncreasing(s)
    ensures StrictlyIncreasing(InsertSorted(x, s))
    ensures forall y :: y in InsertSorted(x, s) <==> y == x || y in s
  {
    if s == [] {
    } else if x < s[0] {
      assert InsertSorted(x, s) == [x] + s;
      assert forall y :: y in s ==> x < y;
    } else if x > s[0] {
      var rest := s[1..];
      assert s == [s[0]] + rest;
      InsertSortedSpec(x, rest);
      var tail := InsertSorted(x, rest);
      assert forall y :: y in rest ==> s[0] < y;
      assert forall y :: y in tail ==> s[0] < y;
      assert InsertSorted(x, s) == [s[0]] + tail;
      ConsIncreasing(s[0], tail);
    }
  }

  /** Putting a value before a strictly increasing sequence of larger values. */
  lemma ConsIncreasing(h: int, s: seq<int>)
    requires StrictlyIncreasing(s)
    requires forall y :: y in s ==> h < y
    ensures StrictlyIncreasing([h] + s)
  {
    var r := [h] + s;
    forall i, j | 0 <= i < j < |r| ensures r[i] < r[j] {
      assert r[j] == s[j - 1];
      if i > 0 {
        assert r[i] == s[i - 1];
      } else {
        assert s[j - 1] in s;
      }
    }
  }

  /** `Array.from(new Set(pages)).sort((a, b) => a - b)`: the distinct values, ascending. */
  function SortedDistinct(s: seq<int>): seq<int>
  {
    if s == [] then []
    else InsertSorted(s[|s| - 1], SortedDistinct(s[..|s| - 1]))
  }

  /** The result ascends strictly and holds exactly the values of the input. */
  lemma {:induction false} SortedDistinctSpec(s: seq<int>)
    ensures StrictlyIncreasing(SortedDistinct(s))
    ensures forall y :: y in SortedDistinct(s) <==> y in s
  {
    if s != [] {
      var init := s[..|s| - 1];
      assert s == init + [s[|s| - 1]];
      SortedDistinctSpec(init);
      InsertSortedSpec(s[|s| - 1], SortedDistinct(init));
    }
  }

  function PageEntry(p: int, safe: int, makeHref: int -> string): Pager {
    PageNumber(p, makeHref(p), p == safe)
  }

  /** The entries between prev and next for the ascending page list `pages`. */
  function Body(pages: seq<int>, safe: int, makeHref: int -> string): seq<Pager>
    decreases |pages|
  {
    if pages == [] then []
    else
      var n := |pages|;
      Body(pages[..n - 1], safe, makeHref)
        + (if n > 1 && pages[n - 1] - pages[n - 2] > 1 then [Ellipsis] else [])
        + [PageEntry(pages[n - 1], safe, makeHref)]
  }

  /** Every entry is a page number or an ellipsis, and the first and last are page numbers. */
  ghost predicate Framed(b: seq<Pager>) {
    && (forall k :: 0 <= k < |b| ==> b[k].PageNumber? || b[k].Ellipsis?)
    && (|b| > 0 ==> b[0].PageNumber? && b[|b| - 1].PageNumber?)
  }

  /** Page numbers increase strictly from left to right. */
  ghost predicate PagesIncrease(b: seq<Pager>) {
    forall i, j :: 0 <= i < j < |b| && b[i].PageNumber? && b[j].PageNumber? ==> b[i].page < b[j].page
  }

  /** Adjacent page numbers are consecutive. */
  ghost predicate AdjacentConsecutive(b: seq<Pager>) {
    forall k :: 0 <= k < |b| - 1 && b[k].PageNumber? && b[k + 1].PageNumber? ==> b[k + 1].page == b[k].page + 1
  }

  /** An ellipsis sits between two page numbers that are not consecutive. */
  ghost predicate EllipsisAtGap(b: seq<Pager>) {
    forall k :: 0 <= k < |b| && b[k].Ellipsis? ==>
      0 < k < |b| - 1 && b[k - 1].PageNumber? && b[k + 1].PageNumber? && b[k + 1].page > b[k - 1].page + 1
  }

  /** Adjacent page numbers are consecutive; an ellipsis sits between two pages that are not. */
  ghost predicate GapsMarked(b: seq<Pager>) {
    AdjacentConsecutive(b) && EllipsisAtGap(b)
  }

  /** Every page entry links to its page and is active exactly on the current page. */
  ghost predicate LinksAndActive(b: seq<Pager>, safe: int, makeHref: int -> string) {
    forall k :: 0 <= k < |b| && b[k].PageNumber? ==>
      b[k].pageLink == makeHref(b[k].page) && (b[k].active <==> b[k].page == safe)
  }

  /** The page numbers shown are exactly the members of `pages`. */
  ghost predicate ShowsExactly(b: seq<Pager>, pages: seq<int>) {
    && (forall k :: 0 <= k < |b| && b[k].PageNumber? ==> b[k].page in pages)
    && (forall x :: x in pages ==> exists k :: 0 <= k < |b| && b[k].PageNumber? && b[k].page == x)
  }

  /** `Body` of a non-empty list: the body of all but the last page, the gap marker, the last page. */
  lemma BodySnoc(pages: seq<int>, safe: int, makeHref: int -> string)
    requires |pages| > 0
    ensures var n := |pages|;
      Body(pages, safe, makeHref) ==
        Body(pages[..n - 1], safe, makeHref)
        + (if n > 1 && pages[n - 1] - pages[n - 2] > 1 then [Ellipsis] else [])
        + [PageEntry(pages[n - 1], safe, makeHref)]
  {
  }

  lemma {:induction false} BodyFramed(pages: seq<int>, safe: int, makeHref: int -> string)
    ensures Framed(Body(pages, safe, makeHref))
    ensures LinksAndActive(Body(pages, safe, makeHref), safe, makeHref)
    decreases |pages|
  {
    if pages != [] {
      var n := |pages|;
      BodyFramed(pages[..n - 1], safe, makeHref);
      BodySnoc(pages, safe, makeHref);
      assert n == 1 ==> Body(pages[..n - 1], safe, makeHref) == [];
    }
  }

  lemma {:induction false} BodyShows(pages: seq<int>, safe: int, makeHref: int -> string)
    ensures ShowsExactly(Body(pages, safe, makeHref), pages)
    decreases |pages|
  {
    if pages != [] {
      var n := |pages|;
      var init := pages[..n - 1];
      var p := pages[n - 1];
      BodyShows(init, safe, makeHref);
      BodySnoc(pages, safe, makeHref);
      var b0 := Body(init, safe, makeHref);
      var b := Body(pages, safe, makeHref);
      assert pages == init + [p];
      assert b[|b| - 1] == PageEntry(p, safe, makeHref);
      forall x | x in pages ensures exists k :: 0 <= k < |b| && b[k].PageNumber? && b[k].page == x {
        if x == p {
          assert b[|b| - 1].page == x;
        } else {
          assert x in init;
          var k :| 0 <= k < |b0| && b0[k].PageNumber? && b0[k].page == x;
          assert b[k] == b0[k];
        }
      }
    }
  }

  lemma {:induction false} BodyIncreases(pages: seq<int>, safe: int, makeHref: int -> string)
    requires StrictlyIncreasing(pages)
    ensures PagesIncrease(Body(pages, safe, makeHref))
    decreases |pages|
  {
    if pages != [] {
      var n := |pages|;
      var init := pages[..n - 1];
      BodyIncreases(init, safe, makeHref);
      BodyShows(init, safe, makeHref);
      BodySnoc(pages, safe, makeHref);
      assert forall y :: y in init ==> y < pages[n - 1];
    }
  }

  /** Extending the page list by one page extends the body by the gap marker and that page. */
  lemma BodyStep(s: seq<int>, i: nat, safe: int, makeHref: int -> string)
    requires i < |s|
    ensures Body(s[..i + 1], safe, makeHref) ==
      Body(s[..i], safe, makeHref)
      + (if i > 0 && s[i] - s[i - 1] > 1 then [Ellipsis] else [])
      + [PageEntry(s[i], safe, makeHref)]
  {
    assert s[..i + 1][..i] == s[..i];
    BodySnoc(s[..i + 1], safe, makeHref);
  }

  /** The last entry of a non-empty body is the last page. */
  lemma BodyLast(pages: seq<int>, safe: int, makeHref: int -> string)
    requires |pages| > 0
    ensures var b := Body(pages, safe, makeHref);
      |b| > 0 && b[|b| - 1] == PageEntry(pages[|pages| - 1], safe, makeHref)
  {
    BodySnoc(pages, safe, makeHref);
  }

  lemma {:induction false} BodyAdjacent(pages: seq<int>, safe: int, makeHref: int -> string)
    requires StrictlyIncreasing(pages)
    ensures AdjacentConsecutive(Body(pages, safe, makeHref))
    decreases |pages|
  {
    if pages != [] {
      var n := |pages|;
      var init := pages[..n - 1];
      var b0 := Body(init, safe, makeHref);
      var b := Body(pages, safe, makeHref);
      BodyAdjacent(init, safe, makeHref);
      BodySnoc(pages, safe, makeHref);
      if n > 1 {
        BodyLast(init, safe, makeHref);
        assert pages[n - 2] < pages[n - 1];
        forall k | 0 <= k < |b| - 1 && b[k].PageNumber? && b[k + 1].PageNumber?
          ensures b[k + 1].page == b[k].page + 1
        {
          if k < |b0| - 1 {
            assert b[k] == b0[k] && b[k + 1] == b0[k + 1];
          }
        }
      } else {
        assert b0 == [];
      }
    }
  }

  lemma {:induction false} BodyEllipses(pages: seq<int>, safe: int, makeHref: int -> string)
    requires StrictlyIncreasing(pages)
    ensures EllipsisAtGap(Body(pages, safe, makeHref))
    decreases |pages|
  {
    if pages != [] {
      var n := |pages|;
      var init := pages[..n - 1];
      var b0 := Body(init, safe, makeHref);
      var b := Body(pages, safe, makeHref);
      BodyEllipses(init, safe, makeHref);
      BodySnoc(pages, safe, makeHref);
      BodyFramed(init, safe, makeHref);
      if n > 1 {
        BodyLast(init, safe, makeHref);
        forall k | 0 <= k < |b| && b[k].Ellipsis?
          ensures 0 < k < |b| - 1 && b[k - 1].PageNumber? && b[k + 1].PageNumber? && b[k + 1].page > b[k - 1].page + 1
        {
          if k < |b0| {
            assert b[k] == b0[k] && b[k - 1] == b0[k - 1] && b[k + 1] == b0[k + 1];
          }
        }
      } else {
        assert b0 == [];
      }
    }
  }

  /** The inner part of the control: everything between prev and next. */
  function Inner(r: seq<Pager>): seq<Pager>
    requires |r| >= 2
  {
    r[1..|r| - 1]
  }

  /** The prev entry: it links to the page before the current one, and is disabled on page 1. */
  function PrevEntry(safe: int, makeHref: int -> string): (e: Pager)
    ensures e.Prev? && e.disabled == (safe == 1)
    ensures e.link == if safe >= 2 then Some(makeHref(safe - 1)) else None
  {
    var link := if safe > 2 then Some(makeHref(safe - 1))
                else if safe == 2 then Some(makeHref(1))
                else None;
    Prev(link, safe == 1)
  }

  function NextEntry(safe: int, totalPages: int, makeHref: int -> string): Pager {
    Next(if safe < totalPages then Some(makeHref(safe + 1)) else None, safe == totalPages)
  }

  /**
   * What a control for at least one page looks like: one prev entry whose
   * link is the page before the clamped current page (none on page 1) and
   * which is disabled exactly on page 1; one next entry, mirrored; and in
   * between, the pages of `Shown`, each exactly once and in ascending order,
   * each linking to itself and active exactly on the clamped current page,
   * with an ellipsis exactly where two shown pages are not consecutive.
   */
  ghost predicate WellFormedPager(r: seq<Pager>, currentPage: int, totalPages: int, makeHref: int -> string, neighborCount: int)
  {
    var safe := SafeCurrent(currentPage, totalPages);
    && |r| >= 3
    && r[0] == PrevEntry(safe, makeHref)
    && r[|r| - 1] == NextEntry(safe, totalPages, makeHref)
    && Framed(Inner(r))
    && PagesIncrease(Inner(r))
    && GapsMarked(Inner(r))
    && LinksAndActive(Inner(r), safe, makeHref)
    && (forall k :: 0 <= k < |Inner(r)| && Inner(r)[k].PageNumber? ==>
          Shown(Inner(r)[k].page, safe, totalPages, neighborCount))
    && (forall x :: Shown(x, safe, totalPages, neighborCount) ==>
          exists k :: 0 <= k < |Inner(r)| && Inner(r)[k].PageNumber? && Inner(r)[k].page == x)
  }

  /** The pages pushed before deduplication: the ends, then the neighbour window in order. */
  function Candidates(safe: int, totalPages: int, neighborCount: int): seq<int> {
    Ends(totalPages) + Neighbours(safe - neighborCount, safe + neighborCount + 1, totalPages)
  }

  /** The candidate pages are exactly the shown ones. */
  lemma CandidatesShown(safe: int, totalPages: int, neighborCount: int)
    ensures forall x :: x in Candidates(safe, totalPages, neighborCount) <==> Shown(x, safe, totalPages, neighborCount)
  {
    NeighboursMembers(safe - neighborCount, safe + neighborCount + 1, totalPages);
  }

  /** The control `buildPager` returns, as a value. */
  function PagerOf(currentPage: int, totalPages: int, makeHref: int -> string, neighborCount: int): seq<Pager> {
    if totalPages <= 0 then []
    else
      var safe := SafeCurrent(currentPage, totalPages);
      [PrevEntry(safe, makeHref)]
        + Body(SortedDistinct(Candidates(safe, totalPages, neighborCount)), safe, makeHref)
        + [NextEntry(safe, totalPages, makeHref)]
  }

  /** For at least one page the control is well formed; for none it is empty. */
  lemma PagerOfWellFormed(currentPage: int, totalPages: int, makeHref: int -> string, neighborCount: int)
    ensures totalPages <= 0 ==> PagerOf(currentPage, totalPages, makeHref, neighborCount) == []
    ensures totalPages >= 1 ==>
      WellFormedPager(PagerOf(currentPage, totalPages, makeHref, neighborCount), currentPage, totalPages, makeHref, neighborCount)
  {
    if totalPages >= 1 {
      var r := PagerOf(currentPage, totalPages, makeHref, neighborCount);
      var safe := SafeCurrent(currentPage, totalPages);
      var sorted := SortedDistinct(Candidates(safe, totalPages, neighborCount));
      SortedDistinctSpec(Candidates(safe, totalPages, neighborCount));
      var body := Body(sorted, safe, makeHref);
      CandidatesShown(safe, totalPages, neighborCount);
      assert Shown(1, safe, totalPages, neighborCount);
      assert 1 in sorted;
      BodyLast(sorted, safe, makeHref);
      BodyFramed(sorted, safe, makeHref);
      BodyShows(sorted, safe, makeHref);
      BodyIncreases(sorted, safe, makeHref);
      BodyAdjacent(sorted, safe, makeHref);
      BodyEllipses(sorted, safe, makeHref);
      assert Inner(r) == body;
    }
  }

  /** `PagerOf` for at least one page, in terms of the sorted distinct candidates. */
  lemma PagerOfUnfold(currentPage: int, totalPages: int, makeHref: int -> string, neighborCount: int, sorted: seq<int>)
    requires totalPages >= 1
    requires sorted == SortedDistinct(Candidates(SafeCurrent(currentPage, totalPages), totalPages, neighborCount))
    ensures var safe := SafeCurrent(currentPage, totalPages);
      PagerOf(currentPage, totalPages, makeHref, neighborCount)
        == [PrevEntry(safe, makeHref)] + Body(sorted, safe, makeHref) + [NextEntry(safe, totalPages, makeHref)]
  {
  }

  /** With a non-negative neighbour count exactly one page entry is active: the clamped current page. */
  lemma {:induction false} ExactlyOneActive(currentPage: int, totalPages: int, makeHref: int -> string, neighborCount: int)
    requires totalPages >= 1 && neighborCount >= 0
    ensures var b := Inner(PagerOf(currentPage, totalPages, makeHref, neighborCount));
      && (exists k :: 0 <= k < |b| && b[k].PageNumber? && b[k].active && b[k].page == SafeCurrent(currentPage, totalPages))
      && (forall i, j :: 0 <= i < |b| && 0 <= j < |b| && b[i].PageNumber? && b[i].active && b[j].PageNumber? && b[j].active ==> i == j)
  {
    var r := PagerOf(currentPage, totalPages, makeHref, neighborCount);
    var safe := SafeCurrent(currentPage, totalPages);
    PagerOfWellFormed(currentPage, totalPages, makeHref, neighborCount);
    var b := Inner(r);
    assert Shown(safe, safe, totalPages, neighborCount);
    var k :| 0 <= k < |b| && b[k].PageNumber? && b[k].page == safe;
    assert b[k].active;
    ActiveUnique(b, safe, makeHref);
  }

  /** In increasing pages, at most one entry is on the current page. */
  lemma ActiveUnique(b: seq<Pager>, safe: int, makeHref: int -> string)
    requires PagesIncrease(b) && LinksAndActive(b, safe, makeHref)
    ensures forall i, j :: 0 <= i < |b| && 0 <= j < |b| && b[i].PageNumber? && b[i].active && b[j].PageNumber? && b[j].active ==> i == j
  {
  }

  /** The number of page entries in a render sequence. */
  function CountPages(b: seq<Pager>): nat {
    if b == [] then 0
    else CountPages(b[..|b| - 1]) + (if b[|b| - 1].PageNumber? then 1 else 0)
  }

  lemma {:induction false} CountPagesConcat(a: seq<Pager>, b: seq<Pager>)
    ensures CountPages(a + b) == CountPages(a) + CountPages(b)
    decreases |b|
  {
    if b != [] {
      assert (a + b)[..|a + b| - 1] == a + b[..|b| - 1];
      CountPagesConcat(a, b[..|b| - 1]);
    } else {
      assert a + b == a;
    }
  }

  /** The body holds one page entry per page. */
  lemma {:induction false} BodyCount(pages: seq<int>, safe: int, makeHref: int -> string)
    ensures CountPages(Body(pages, safe, makeHref)) == |pages|
    decreases |pages|
  {
    if pages != [] {
      var n := |pages|;
      BodyCount(pages[..n - 1], safe, makeHref);
      BodySnoc(pages, safe, makeHref);
      var gap := if n > 1 && pages[n - 1] - pages[n - 2] > 1 then [Ellipsis] else [];
      var b0 := Body(pages[..n - 1], safe, makeHref);
      CountPagesConcat(b0, gap);
      CountPagesConcat(b0 + gap, [PageEntry(pages[n - 1], safe, makeHref)]);
      assert CountPages([PageEntry(pages[n - 1], safe, makeHref)]) == 1;
      assert CountPages(gap) == 0;
    }
  }

  lemma {:induction false} InsertSortedLength(x: int, s: seq<int>)
    ensures |InsertSorted(x, s)| <= |s| + 1
  {
    if s != [] && x > s[0] {
      InsertSortedLength(x, s[1..]);
    }
  }

  lemma {:induction false} SortedDistinctLength(s: seq<int>)
    ensures |SortedDistinct(s)| <= |s|
  {
    if s != [] {
      SortedDistinctLength(s[..|s| - 1]);
      InsertSortedLength(s[|s| - 1], SortedDistinct(s[..|s| - 1]));
    }
  }

  lemma {:induction false} NeighboursLength(lo: int, hi: int, totalPages: int)
    ensures |Neighbours(lo, hi, totalPages)| <= Max(0, hi - lo)
    decreases hi - lo
  {
    if hi > lo {
      NeighboursLength(lo, hi - 1, totalPages);
    }
  }

  /** At most 2n+3 page entries: the first, the last and the window of 2n+1 pages. */
  lemma PageCountBound(currentPage: int, totalPages: int, makeHref: int -> string, neighborCount: int)
    requires totalPages >= 1 && neighborCount >= 0
    ensures CountPages(Inner(PagerOf(currentPage, totalPages, makeHref, neighborCount))) <= 2 * neighborCount + 3
  {
    var safe := SafeCurrent(currentPage, totalPages);
    var c := Candidates(safe, totalPages, neighborCount);
    var sorted := SortedDistinct(c);
    var r := PagerOf(currentPage, totalPages, makeHref, neighborCount);
    NeighboursLength(safe - neighborCount, safe + neighborCount + 1, totalPages);
    SortedDistinctLength(c);
    BodyCount(sorted, safe, makeHref);
    assert Inner(r) == Body(sorted, safe, makeHref);
  }

  /**
   * The first half of `buildPager`: the first page, the last page, then every
   * page of the neighbour window strictly between them, in push order.
   */
  method CollectPages(safeCurrent: int, totalPages: int, neighborCount: int) returns (pages: seq<int>)
    ensures pages == Candidates(safeCurrent, totalPages, neighborCount)
  {
    pages := [1];
    if totalPages > 1 {
      pages := pages + [totalPages];
    }

    var p := safeCurrent - neighborCount;
    while p <= safeCurrent + neighborCount
      invariant safeCurrent - neighborCount <= p
      invariant p == safeCurrent - neighborCount || p <= safeCurrent + neighborCount + 1
      invariant pages == Ends(totalPages) + Neighbours(safeCurrent - neighborCount, p, totalPages)
    {
      NeighboursNext(safeCurrent - neighborCount, p, totalPages);
      if p > 1 && p < totalPages {
        pages := pages + [p];
      }
      p := p + 1;
    }
  }

  /**
   * `buildPager`: the render sequence for `currentPage` of `totalPages`,
   * built by the source's two loops (the first in `CollectPages`);
   * `PagerOfWellFormed` says what it holds.
   */
  method BuildPager(currentPage: int, totalPages: int, makeHref: int -> string, neighborCount: int)
    returns (result: seq<Pager>)
    ensures result == PagerOf(currentPage, totalPages, makeHref, neighborCount)
  {
    var safeCurrent := SafeCurrent(currentPage, totalPages);
    if totalPages <= 0 {
      return [];
    }

    var pages := CollectPages(safeCurrent, totalPages, neighborCount);

    var uniqueSorted := SortedDistinct(pages);

    result := [PrevEntry(safeCurrent, makeHref)];

    for i := 0 to |uniqueSorted|
      invariant result == [PrevEntry(safeCurrent, makeHref)] + Body(uniqueSorted[..i], safeCurrent, makeHref)
    {
      var page := uniqueSorted[i];
      if i > 0 && page - uniqueSorted[i - 1] > 1 {
        result := result + [Ellipsis];
      }
      result := result + [PageNumber(page, makeHref(page), page == safeCurrent)];
      BodyStep(uniqueSorted, i, safeCurrent, makeHref);
    }

    result := result + [NextEntry(safeCurrent, totalPages, makeHref)];
    assert uniqueSorted[..|uniqueSorted|] == uniqueSorted;
    PagerOfUnfold(currentPage, totalPages, makeHref, neighborCount, uniqueSorted);
  }
}
