/** `print(separator, ...args)`: the truthy arguments joined with a separator. */
module Print {
  import opened Js

  /** The separator used when none is passed. */
  const DefaultSeparator := " - "

  /** `args.filter(Boolean)` over string arguments: missing values and empty strings are dropped, order is kept. */
  function Truthy(args: seq<Option<string>>): (r: seq<string>)
    ensures |r| <= |args|
    ensures forall k :: 0 <= k < |r| ==> r[k] != ""
    ensures forall x :: x in r <==> x != "" && Some(x) in args
  {
    if args == [] then []
    else (if args[0].Some? && args[0].value != "" then [args[0].value] else []) + Truthy(args[1..])
  }

  /** `print(separator, ...args)`; an absent separator means the default `" - "`. */
  function Print(separator: Option<string>, args: seq<Option<string>>): string {
    Join(Truthy(args), separator.GetOr(DefaultSeparator))
  }

  lemma {:induction false} TruthyConcat(a: seq<Option<string>>, b: seq<Option<string>>)
    ensures Truthy(a + b) == Truthy(a) + Truthy(b)
    decreases |a|
  {
    if a == [] {
      assert a + b == b;
    } else {
      assert (a + b)[0] == a[0];
      assert (a + b)[1..] == a[1..] + b;
      TruthyConcat(a[1..], b);
    }
  }

  /** No truthy argument prints the empty string. */
  lemma PrintNothing(separator: Option<string>, args: seq<Option<string>>)
    requires forall k :: 0 <= k < |args| ==> args[k].None? || args[k].value == ""
    ensures Print(separator, args) == ""
  {
    if Truthy(args) != [] {
      assert Truthy(args)[0] in Truthy(args);
    }
  }

  /** Printing the arguments `a` then `b` joins the two prints with one separator, leaving out a side that prints nothing. */
  lemma PrintConcat(separator: Option<string>, a: seq<Option<string>>, b: seq<Option<string>>)
    ensures Truthy(a) == [] ==> Print(separator, a + b) == Print(separator, b)
    ensures Truthy(b) == [] ==> Print(separator, a + b) == Print(separator, a)
    ensures Truthy(a) != [] && Truthy(b) != [] ==>
      Print(separator, a + b) == Print(separator, a) + separator.GetOr(DefaultSeparator) + Print(separator, b)
  {
    TruthyConcat(a, b);
    if Truthy(a) != [] && Truthy(b) != [] {
      JoinAppend(Truthy(a), Truthy(b), separator.GetOr(DefaultSeparator));
    } else if Truthy(a) == [] {
      assert Truthy(a) + Truthy(b) == Truthy(b);
    } else {
      assert Truthy(a) + Truthy(b) == Truthy(a);
    }
  }

  /** A single truthy argument among falsy ones prints as itself. */
  lemma PrintSingle(separator: Option<string>, a: seq<Option<string>>, x: string, b: seq<Option<string>>)
    requires x != ""
    requires forall k :: 0 <= k < |a| ==> a[k].None? || a[k].value == ""
    requires forall k :: 0 <= k < |b| ==> b[k].None? || b[k].value == ""
    ensures Print(separator, a + [Some(x)] + b) == x
  {
    TruthyConcat(a + [Some(x)], b);
    TruthyConcat(a, [Some(x)]);
    PrintNothing(separator, a);
    PrintNothing(separator, b);
    assert Truthy([Some(x)]) == [x];
  }

  /** Splitting a print on its separator gives the truthy arguments back, when none of them contains the separator's text. */
  lemma PrintSplit(sep: string, args: seq<Option<string>>)
    requires |sep| > 0 && Truthy(args) != []
    requires forall k :: 0 <= k < |Truthy(args)| ==> !Contains(Truthy(args)[k], sep)
    requires forall k, j :: 0 <= k < |Truthy(args)| - 1 && 0 <= j < |Truthy(args)[k]| ==> !IsAt(Truthy(args)[k] + sep, sep, j)
    ensures Split(Print(Some(sep), args), sep) == Truthy(args)
  {
    SplitJoin(Truthy(args), sep);
  }
}
