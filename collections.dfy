/**
 * Array helpers shared by the post and portfolio queries: the list a `Set`
 * yields (first occurrences, in insertion order), `filter`, `flatMap`, and a
 * stable sort by a two-part key standing for an array sorted with a
 * comparator.
 */
module Collections {

  // ---- Set insertion order ----

  predicate NoDuplicates<T(==)>(s: seq<T>) {
    forall i, j :: 0 <= i < j < |s| ==> s[i] != s[j]
  }

  /** The position of the first occurrence of `x`. */
  function FirstIndex<T(==)>(s: seq<T>, x: T): (i: nat)
    requires x in s
    ensures i < |s| && s[i] == x
    ensures forall j :: 0 <= j < i ==> s[j] != x
  {
    if s[0] == x then 0 else 1 + FirstIndex(s[1..], x)
  }

  /**
   * `Array.from(set)` after `set.add(x)` for every `x` of `s` in turn: `add`
   * appends a value the set does not hold yet and ignores one it holds.
   */
  function Dedup<T(==)>(s: seq<T>): seq<T>
    decreases |s|
  {
    if s == [] then []
    else
      var d := Dedup(s[..|s| - 1]);
      if s[|s| - 1] in d then d else d + [s[|s| - 1]]
  }

  /** One more `add`. */
  lemma DedupSnoc<T>(s: seq<T>, x: T)
    ensures Dedup(s + [x]) == if x in Dedup(s) then Dedup(s) else Dedup(s) + [x]
  {
    assert (s + [x])[..|s + [x]| - 1] == s;
  }

  /** The set holds exactly the values added. */
  lemma {:induction false} DedupMembers<T>(s: seq<T>)
    ensures forall x :: x in Dedup(s) <==> x in s
    decreases |s|
  {
    if s != [] {
      var p := s[..|s| - 1];
      DedupMembers(p);
      assert s == p + [s[|s| - 1]];
    }
  }

  /** Each value is listed once. */
  lemma {:induction false} DedupNoDuplicates<T>(s: seq<T>)
    ensures NoDuplicates(Dedup(s))
    decreases |s|
  {
    if s != [] {
      DedupNoDuplicates(s[..|s| - 1]);
    }
  }

  /** Values are listed in the order of their first occurrence. */
  lemma {:induction false} DedupFirstOccurrenceOrder<T>(s: seq<T>)
    ensures forall x :: x in Dedup(s) <==> x in s
    ensures forall i, j :: 0 <= i < j < |Dedup(s)| ==> FirstIndex(s, Dedup(s)[i]) < FirstIndex(s, Dedup(s)[j])
    decreases |s|
  {
    DedupMembers(s);
    if s != [] {
      var p := s[..|s| - 1];
      assert s == p + [s[|s| - 1]];
      DedupFirstOccurrenceOrder(p);
      DedupOrderStep(p, s[|s| - 1]);
    }
  }

  /** The inductive step of `DedupFirstOccurrenceOrder`: one more `add` keeps the order. */
  lemma DedupOrderStep<T>(p: seq<T>, x: T)
    requires forall y :: y in Dedup(p) <==> y in p
    requires forall i, j :: 0 <= i < j < |Dedup(p)| ==> FirstIndex(p, Dedup(p)[i]) < FirstIndex(p, Dedup(p)[j])
    ensures forall y :: y in Dedup(p + [x]) ==> y in p + [x]
    ensures forall i, j :: 0 <= i < j < |Dedup(p + [x])| ==>
      FirstIndex(p + [x], Dedup(p + [x])[i]) < FirstIndex(p + [x], Dedup(p + [x])[j])
  {
    DedupSnoc(p, x);
    DedupMembers(p + [x]);
    var d := Dedup(p);
    forall i | 0 <= i < |d|
      ensures FirstIndex(p + [x], d[i]) == FirstIndex(p, d[i])
    {
      assert d[i] in d;
      FirstIndexPrefix(p, [x], d[i]);
    }
    if x !in d {
      OrderAppendNew(p, x, d);
    }
  }

  /** Appending a value not seen before: its first occurrence is last. */
  lemma OrderAppendNew<T>(p: seq<T>, x: T, d: seq<T>)
    requires x !in p
    requires forall y :: y in d ==> y in p
    requires forall i :: 0 <= i < |d| ==> FirstIndex(p + [x], d[i]) == FirstIndex(p, d[i])
    requires forall i, j :: 0 <= i < j < |d| ==> FirstIndex(p, d[i]) < FirstIndex(p, d[j])
    ensures forall i, j :: 0 <= i < j < |d + [x]| ==>
      FirstIndex(p + [x], (d + [x])[i]) < FirstIndex(p + [x], (d + [x])[j])
  {
    assert FirstIndex(p + [x], x) == |p|;
    forall i, j | 0 <= i < j < |d + [x]|
      ensures FirstIndex(p + [x], (d + [x])[i]) < FirstIndex(p + [x], (d + [x])[j])
    {
      assert (d + [x])[i] == d[i];
      assert d[i] in d;
      if j < |d| {
        assert (d + [x])[j] == d[j];
      } else {
        assert (d + [x])[j] == x;
      }
    }
  }

  lemma {:induction false} FirstIndexPrefix<T>(a: seq<T>, b: seq<T>, x: T)
    requires x in a
    ensures x in a + b && FirstIndex(a + b, x) == FirstIndex(a, x)
    decreases |a|
  {
    if a[0] != x {
      assert (a + b)[1..] == a[1..] + b;
      FirstIndexPrefix(a[1..], b, x);
    }
  }

  /** `for (const x of xs) set.add(x)` on a set whose contents are `current == Dedup(added)`. */
  method AddAll<T(==)>(current: seq<T>, ghost added: seq<T>, xs: seq<T>) returns (r: seq<T>)
    requires current == Dedup(added)
    ensures r == Dedup(added + xs)
  {
    r := current;
    assert added + xs[..0] == added;
    for j := 0 to |xs|
      invariant r == Dedup(added + xs[..j])
    {
      DedupSnoc(added + xs[..j], xs[j]);
      assert added + xs[..j + 1] == (added + xs[..j]) + [xs[j]];
      if xs[j] !in r {
        r := r + [xs[j]];
      }
    }
    assert xs[..|xs|] == xs;
  }

  /** A list without duplicates goes through a `Set` unchanged. */
  lemma {:induction false} DedupOfDistinct<T>(s: seq<T>)
    requires NoDuplicates(s)
    ensures Dedup(s) == s
    decreases |s|
  {
    if s != [] {
      var p := s[..|s| - 1];
      DedupOfDistinct(p);
      DedupMembers(p);
      assert s[|s| - 1] !in p;
    }
  }

  /** Going through a `Set` twice is going through it once. */
  lemma DedupIdempotent<T>(s: seq<T>)
    ensures Dedup(Dedup(s)) == Dedup(s)
  {
    DedupNoDuplicates(s);
    DedupOfDistinct(Dedup(s));
  }

  // ---- filter ----

  /** `s.filter(p)`. */
  function Filter<T>(s: seq<T>, p: T -> bool): (r: seq<T>)
    ensures |r| <= |s|
    ensures forall i :: 0 <= i < |r| ==> r[i] in s && p(r[i])
    ensures forall i :: 0 <= i < |s| && p(s[i]) ==> s[i] in r
  {
    if s == [] then []
    else (if p(s[0]) then [s[0]] else []) + Filter(s[1..], p)
  }

  /** `filter` keeps relative order: it distributes over concatenation. */
  lemma {:induction false} FilterConcat<T>(a: seq<T>, b: seq<T>, p: T -> bool)
    ensures Filter(a + b, p) == Filter(a, p) + Filter(b, p)
    decreases |a|
  {
    if a == [] {
      assert a + b == b;
    } else {
      assert (a + b)[0] == a[0];
      assert (a + b)[1..] == a[1..] + b;
      FilterConcat(a[1..], b, p);
    }
  }

  /** A list whose every element passes is kept whole. */
  lemma {:induction false} FilterAll<T>(s: seq<T>, p: T -> bool)
    requires forall i :: 0 <= i < |s| ==> p(s[i])
    ensures Filter(s, p) == s
    decreases |s|
  {
    if s != [] {
      FilterAll(s[1..], p);
    }
  }

  // ---- flatMap ----

  /** `s.flatMap(f)`. */
  function FlatMap<T, U>(s: seq<T>, f: T -> seq<U>): seq<U> {
    if s == [] then [] else f(s[0]) + FlatMap(s[1..], f)
  }

  /** Every output of `flatMap` comes from some input. */
  lemma {:induction false} FlatMapSource<T, U>(s: seq<T>, f: T -> seq<U>, y: U) returns (i: nat)
    requires y in FlatMap(s, f)
    ensures i < |s| && y in f(s[i])
    decreases |s|
  {
    if y in f(s[0]) {
      i := 0;
    } else {
      var k := FlatMapSource(s[1..], f, y);
      i := k + 1;
    }
  }

  /** Every output of every input is an output of `flatMap`. */
  lemma {:induction false} FlatMapHas<T, U>(s: seq<T>, f: T -> seq<U>, i: nat, y: U)
    requires i < |s| && y in f(s[i])
    ensures y in FlatMap(s, f)
    decreases |s|
  {
    if i > 0 {
      assert s[1..][i - 1] == s[i];
      FlatMapHas(s[1..], f, i - 1, y);
    }
  }

  /** `flatMap` distributes over concatenation. */
  lemma {:induction false} FlatMapConcat<T, U>(a: seq<T>, b: seq<T>, f: T -> seq<U>)
    ensures FlatMap(a + b, f) == FlatMap(a, f) + FlatMap(b, f)
    decreases |a|
  {
    if a == [] {
      assert a + b == b;
    } else {
      assert (a + b)[0] == a[0];
      assert (a + b)[1..] == a[1..] + b;
      FlatMapConcat(a[1..], b, f);
    }
  }

  /** `y` is one of the strings `f` gives for some element of `xs`. */
  predicate Produces<T>(xs: seq<T>, f: T -> seq<string>, y: string) {
    exists i :: 0 <= i < |xs| && y in f(xs[i])
  }

  /**
   * `const set = new Set(); for (const x of xs) for (const y of f(x)) set.add(y);
   * Array.from(set)`: the outer loop here, the inner one in `AddAll`.
   */
  method CollectSet<T>(xs: seq<T>, f: T -> seq<string>) returns (r: seq<string>)
    ensures r == Dedup(FlatMap(xs, f))
  {
    r := [];
    for i := 0 to |xs|
      invariant r == Dedup(FlatMap(xs[..i], f))
    {
      assert xs[..i + 1] == xs[..i] + [xs[i]];
      FlatMapConcat(xs[..i], [xs[i]], f);
      assert [xs[i]][1..] == [];
      assert FlatMap([xs[i]], f) == f(xs[i]);
      r := AddAll(r, FlatMap(xs[..i], f), f(xs[i]));
    }
    assert xs[..|xs|] == xs;
  }

  /** The collected values are distinct, are exactly the values produced, and come in the order they are first produced. */
  lemma CollectSetSpec<T>(xs: seq<T>, f: T -> seq<string>)
    ensures var r := Dedup(FlatMap(xs, f));
      && NoDuplicates(r)
      && (forall y :: y in r <==> Produces(xs, f, y))
    ensures var stream := FlatMap(xs, f);
      var r := Dedup(stream);
      (forall y :: y in r ==> y in stream)
      && forall i, j :: 0 <= i < j < |r| ==> FirstIndex(stream, r[i]) < FirstIndex(stream, r[j])
  {
    var stream := FlatMap(xs, f);
    DedupNoDuplicates(stream);
    DedupMembers(stream);
    DedupFirstOccurrenceOrder(stream);
    forall y | y in stream
      ensures Produces(xs, f, y)
    {
      var i := FlatMapSource(xs, f, y);
    }
    forall y | Produces(xs, f, y)
      ensures y in stream
    {
      var i :| 0 <= i < |xs| && y in f(xs[i]);
      FlatMapHas(xs, f, i, y);
    }
  }

  /** Rearranging the input does not change which values are produced. */
  lemma ProducesPermutation<T>(xs: seq<T>, ys: seq<T>, f: T -> seq<string>, y: string)
    requires multiset(xs) == multiset(ys)
    ensures Produces(xs, f, y) <==> Produces(ys, f, y)
  {
    if Produces(xs, f, y) {
      var i :| 0 <= i < |xs| && y in f(xs[i]);
      assert xs[i] in multiset(ys);
      var k :| 0 <= k < |ys| && ys[k] == xs[i];
    }
    if Produces(ys, f, y) {
      var i :| 0 <= i < |ys| && y in f(ys[i]);
      assert ys[i] in multiset(xs);
      var k :| 0 <= k < |xs| && xs[k] == ys[i];
    }
  }

  // ---- sorting ----

  /** Lexicographic order on two-part keys. */
  predicate KeyLe(a: (int, int), b: (int, int)) {
    a.0 < b.0 || (a.0 == b.0 && a.1 <= b.1)
  }

  predicate SortedBy<T>(s: seq<T>, key: T -> (int, int)) {
    forall i, j :: 0 <= i < j < |s| ==> KeyLe(key(s[i]), key(s[j]))
  }

  /** Puts `x` before the first element whose key is not below its own, so that `x` precedes the elements it ties with. */
  function Insert<T>(x: T, s: seq<T>, key: T -> (int, int)): (r: seq<T>)
    ensures multiset(r) == multiset{x} + multiset(s)
  {
    if s == [] then [x]
    else if KeyLe(key(x), key(s[0])) then [x] + s
    else assert s == [s[0]] + s[1..]; [s[0]] + Insert(x, s[1..], key)
  }

  /** The array sorted by `key`, ties kept in input order (the built-in `sort` is stable). */
  function SortBy<T>(s: seq<T>, key: T -> (int, int)): seq<T> {
    if s == [] then [] else Insert(s[0], SortBy(s[1..], key), key)
  }

  /** A lower bound of `x` and of every element of `s` bounds every element after the insertion. */
  lemma InsertLowerBound<T>(x: T, s: seq<T>, key: T -> (int, int), b: (int, int))
    requires KeyLe(b, key(x))
    requires forall i :: 0 <= i < |s| ==> KeyLe(b, key(s[i]))
    ensures forall i :: 0 <= i < |Insert(x, s, key)| ==> KeyLe(b, key(Insert(x, s, key)[i]))
  {
    var r := Insert(x, s, key);
    forall i | 0 <= i < |r|
      ensures KeyLe(b, key(r[i]))
    {
      assert r[i] in multiset(r);
      if r[i] != x {
        assert r[i] in multiset(s);
      }
    }
  }

  lemma {:induction false} InsertSorted<T>(x: T, s: seq<T>, key: T -> (int, int))
    requires SortedBy(s, key)
    ensures SortedBy(Insert(x, s, key), key)
    decreases |s|
  {
    if s != [] && !KeyLe(key(x), key(s[0])) {
      var t := s[1..];
      InsertSorted(x, t, key);
      forall i | 0 <= i < |t|
        ensures KeyLe(key(s[0]), key(t[i]))
      {
        assert t[i] == s[i + 1];
      }
      InsertLowerBound(x, t, key, key(s[0]));
      var r := Insert(x, t, key);
      assert Insert(x, s, key) == [s[0]] + r;
    }
  }

  /** Sorting yields an ordered permutation of its input. */
  lemma {:induction false} SortBySpec<T>(s: seq<T>, key: T -> (int, int))
    ensures SortedBy(SortBy(s, key), key)
    ensures multiset(SortBy(s, key)) == multiset(s)
    decreases |s|
  {
    if s != [] {
      SortBySpec(s[1..], key);
      InsertSorted(s[0], SortBy(s[1..], key), key);
      assert s == [s[0]] + s[1..];
    }
  }

  // ---- stability ----

  /** The elements of `s` whose key is `k`, in their order in `s`. */
  function Ties<T>(s: seq<T>, key: T -> (int, int), k: (int, int)): (r: seq<T>)
    ensures |r| <= |s|
  {
    if s == [] then [] else (if key(s[0]) == k then [s[0]] else []) + Ties(s[1..], key, k)
  }

  /** Inserting `x` puts it before every element with its key and moves no other tie. */
  lemma {:induction false} InsertTies<T>(x: T, s: seq<T>, key: T -> (int, int), k: (int, int))
    ensures Ties(Insert(x, s, key), key, k) == (if key(x) == k then [x] else []) + Ties(s, key, k)
    decreases |s|
  {
    var r := Insert(x, s, key);
    if s == [] {
      assert r[1..] == [];
    } else if KeyLe(key(x), key(s[0])) {
      assert r[1..] == s;
    } else {
      // every element passed over has a key strictly below that of `x`
      assert key(s[0]) != key(x);
      InsertTies(x, s[1..], key, k);
      assert r[1..] == Insert(x, s[1..], key);
    }
  }

  /** The sort is stable: for every key, the elements with that key keep their order. */
  lemma {:induction false} SortByStable<T>(s: seq<T>, key: T -> (int, int), k: (int, int))
    ensures Ties(SortBy(s, key), key, k) == Ties(s, key, k)
    decreases |s|
  {
    if s != [] {
      SortByStable(s[1..], key, k);
      InsertTies(s[0], SortBy(s[1..], key), key, k);
    }
  }
}
