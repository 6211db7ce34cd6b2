/**
 * `normalize`: the canonical form of an internal site path. Surrounding
 * whitespace goes, a leading slash is added, runs of slashes collapse to one
 * and a trailing slash is dropped unless the path is the root.
 */
module Normalize {
  import opened Js

  /** No two consecutive slashes. */
  predicate NoDoubleSlash(s: string) {
    forall i :: 0 <= i < |s| - 1 ==> !(s[i] == '/' && s[i + 1] == '/')
  }

  /** The characters of `s` other than `'/'`, in order. */
  function Unslashed(s: string): (r: string)
    ensures forall i :: 0 <= i < |r| ==> r[i] != '/'
  {
    if s == [] then []
    else (if s[0] == '/' then [] else [s[0]]) + Unslashed(s[1..])
  }

  lemma {:induction false} UnslashedConcat(a: string, b: string)
    ensures Unslashed(a + b) == Unslashed(a) + Unslashed(b)
    decreases |a|
  {
    if a == [] {
      assert a + b == b;
    } else {
      assert (a + b)[1..] == a[1..] + b;
      UnslashedConcat(a[1..], b);
    }
  }

  /** The end of the run of slashes that starts at `i`. */
  function RunEnd(s: string, i: nat): (j: nat)
    requires i <= |s|
    ensures i <= j <= |s|
    ensures forall k :: i <= k < j ==> s[k] == '/'
    ensures j == |s| || s[j] != '/'
    decreases |s| - i
  {
    if i < |s| && s[i] == '/' then RunEnd(s, i + 1) else i
  }

  /** `path.replace(/\/+/, '/')`: the first run of slashes becomes one slash. */
  function CollapseFirstRun(s: string): string {
    match IndexOf(s, "/")
    case None => s
    case Some(i) => s[..i] + "/" + s[RunEnd(s, i)..]
  }

  /** `path.replace(/\/{2,}/g, '/')`: every run of two or more slashes becomes one slash. */
  function CollapseRuns(s: string): string
  {
    if |s| < 2 then s
    else if s[0] == '/' && s[1] == '/' then CollapseRuns(s[1..])
    else [s[0]] + CollapseRuns(s[1..])
  }

  /** `path.replace(/\/+$/g, '')`: the trailing run of slashes removed. */
  function DropTrailingSlashes(s: string): (r: string)
    ensures |r| <= |s| && r == s[..|r|]
    ensures r == [] || r[|r| - 1] != '/'
    ensures forall k :: |r| <= k < |s| ==> s[k] == '/'
  {
    if s != [] && s[|s| - 1] == '/' then DropTrailingSlashes(s[..|s| - 1]) else s
  }

  /** The path after trimming and adding the leading slash. */
  function Rooted(s: string): string {
    var path := Trim(s);
    if StartsWith(path, "/") then path else "/" + path
  }

  /** The path after both slash-collapsing replacements. */
  function Collapsed(s: string): string {
    CollapseRuns(CollapseFirstRun(Rooted(s)))
  }

  /** The last step: a trailing slash goes unless the path is the root. */
  function DropTrailingSlash(path: string): string {
    if |path| > 1 && EndsWith(path, "/") then DropTrailingSlashes(path) else path
  }

  /** `normalize(inputPath)`; `None` is an undefined argument. */
  function Normalize(input: Option<string>): string {
    if input.None? || input.value == "" then "/"
    else DropTrailingSlash(Collapsed(input.value))
  }

  // ---- Properties of the steps ----

  lemma RootedStartsWithSlash(s: string)
    ensures |Rooted(s)| >= 1 && Rooted(s)[0] == '/'
    ensures Unslashed(Rooted(s)) == Unslashed(Trim(s))
  {
    var path := Trim(s);
    if !StartsWith(path, "/") {
      UnslashedConcat("/", path);
    }
  }

  lemma CollapseFirstRunProps(s: string)
    requires |s| >= 1 && s[0] == '/'
    ensures |CollapseFirstRun(s)| >= 1 && CollapseFirstRun(s)[0] == '/'
    ensures Unslashed(CollapseFirstRun(s)) == Unslashed(s)
  {
    assert IsAt(s, "/", 0);
    var i := IndexOf(s, "/").value;
    assert i == 0;
    var j := RunEnd(s, 0);
    assert s == s[..j] + s[j..];
    UnslashedConcat(s[..j], s[j..]);
    AllSlashes(s[..j]);
    UnslashedConcat("/", s[j..]);
    assert s[..0] + "/" + s[j..] == "/" + s[j..];
  }

  /** A string of slashes only has no unslashed characters. */
  lemma {:induction false} AllSlashes(s: string)
    requires forall k :: 0 <= k < |s| ==> s[k] == '/'
    ensures Unslashed(s) == []
  {
    if s != [] {
      AllSlashes(s[1..]);
    }
  }

  lemma {:induction false} CollapseRunsProps(s: string)
    ensures NoDoubleSlash(CollapseRuns(s))
    ensures |s| >= 1 ==> |CollapseRuns(s)| >= 1 && CollapseRuns(s)[0] == s[0]
    ensures Unslashed(CollapseRuns(s)) == Unslashed(s)
    decreases |s|
  {
    if |s| < 2 {
    } else if s[0] == '/' && s[1] == '/' {
      CollapseRunsProps(s[1..]);
      assert Unslashed(s) == Unslashed(s[1..]);
    } else {
      CollapseRunsProps(s[1..]);
      var r := [s[0]] + CollapseRuns(s[1..]);
      UnslashedConcat([s[0]], CollapseRuns(s[1..]));
      forall i | 0 <= i < |r| - 1 ensures !(r[i] == '/' && r[i + 1] == '/') {
        if i == 0 {
          assert r[1] == s[1];
        } else {
          assert r[i] == CollapseRuns(s[1..])[i - 1];
        }
      }
    }
  }

  /** Collapsing runs leaves a string with no double slash unchanged. */
  lemma {:induction false} CollapseRunsNoop(s: string)
    requires NoDoubleSlash(s)
    ensures CollapseRuns(s) == s
    decreases |s|
  {
    if |s| >= 2 {
      assert NoDoubleSlash(s[1..]) by {
        forall i | 0 <= i < |s[1..]| - 1 ensures !(s[1..][i] == '/' && s[1..][i + 1] == '/') {
          assert s[1..][i] == s[i + 1];
        }
      }
      CollapseRunsNoop(s[1..]);
    }
  }

  lemma CollapsedProps(s: string)
    ensures |Collapsed(s)| >= 1 && Collapsed(s)[0] == '/'
    ensures NoDoubleSlash(Collapsed(s))
    ensures Unslashed(Collapsed(s)) == Unslashed(Trim(s))
  {
    RootedStartsWithSlash(s);
    CollapseFirstRunProps(Rooted(s));
    CollapseRunsProps(CollapseFirstRun(Rooted(s)));
  }

  /** Without a double slash, dropping the trailing run of a longer path removes exactly its last slash. */
  lemma DropTrailingSlashesOne(path: string)
    requires |path| > 1 && EndsWith(path, "/") && NoDoubleSlash(path)
    ensures DropTrailingSlashes(path) == path[..|path| - 1]
  {
    var n := |path|;
    assert path[n - 1] == '/';
    assert path[n - 2] != '/';
    assert DropTrailingSlashes(path) == DropTrailingSlashes(path[..n - 1]);
  }

  lemma NoDoubleSlashPrefix(s: string, n: nat)
    requires n <= |s| && NoDoubleSlash(s)
    ensures NoDoubleSlash(s[..n])
  {
    forall i | 0 <= i < n - 1 ensures !(s[..n][i] == '/' && s[..n][i + 1] == '/') {
      assert s[..n][i] == s[i] && s[..n][i + 1] == s[i + 1];
    }
  }

  // ---- Properties of normalize ----

  /** An undefined or empty argument is the root path. */
  lemma NormalizeEmpty()
    ensures Normalize(None) == "/"
    ensures Normalize(Some("")) == "/"
  {
  }

  /**
   * The result starts with a slash, never holds two consecutive slashes and
   * ends with a slash only when it is the root path itself.
   */
  lemma NormalizeShape(input: Option<string>)
    ensures var r := Normalize(input);
      && |r| >= 1 && r[0] == '/'
      && NoDoubleSlash(r)
      && (r[|r| - 1] == '/' ==> r == "/")
  {
    if input.Some? && input.value != "" {
      CollapsedProps(input.value);
      DropTrailingSlashShape(Collapsed(input.value));
    }
  }

  lemma DropTrailingSlashShape(path: string)
    requires |path| >= 1 && path[0] == '/' && NoDoubleSlash(path)
    ensures var r := DropTrailingSlash(path);
      && |r| >= 1 && r[0] == '/'
      && NoDoubleSlash(r)
      && (r[|r| - 1] == '/' ==> r == "/")
  {
    if |path| > 1 && EndsWith(path, "/") {
      DropTrailingSlashesOne(path);
      NoDoubleSlashPrefix(path, |path| - 1);
      var r := path[..|path| - 1];
      assert r[0] == '/';
      assert r[|r| - 1] == path[|path| - 2];
    } else if path[|path| - 1] == '/' {
      assert |path| == 1;
      assert path == "/";
    }
  }

  /** Dropping every slash from the result and from the trimmed input gives the same string. */
  lemma NormalizeKeepsOtherChars(s: string)
    ensures Unslashed(Normalize(Some(s))) == Unslashed(Trim(s))
  {
    CollapsedProps(s);
    DropTrailingSlashUnslashed(Collapsed(s));
  }

  /** The last step removes at most one slash and nothing else. */
  lemma DropTrailingSlashUnslashed(path: string)
    requires NoDoubleSlash(path)
    ensures Unslashed(DropTrailingSlash(path)) == Unslashed(path)
  {
    if |path| > 1 && EndsWith(path, "/") {
      DropTrailingSlashesOne(path);
      var n := |path|;
      assert path == path[..n - 1] + [path[n - 1]];
      UnslashedConcat(path[..n - 1], [path[n - 1]]);
    }
  }

  /** A string without whitespace normalises to one without whitespace. */
  lemma NormalizeNoWhitespace(input: Option<string>)
    requires input.Some? ==> NoWhitespace(input.value)
    ensures NoWhitespace(Normalize(input))
  {
    if input.Some? && input.value != "" {
      var s := input.value;
      assert Trim(s) == s;
      var rooted := Rooted(s);
      assert NoWhitespace(rooted);
      var first := CollapseFirstRun(rooted);
      CollapseFirstRunNoWhitespace(rooted);
      CollapseRunsNoWhitespace(first);
      var path := CollapseRuns(first);
      if |path| > 1 && EndsWith(path, "/") {
        var r := DropTrailingSlashes(path);
        assert forall i :: 0 <= i < |r| ==> r[i] == path[i];
      }
    }
  }

  lemma CollapseFirstRunNoWhitespace(s: string)
    requires NoWhitespace(s)
    ensures NoWhitespace(CollapseFirstRun(s))
  {
    match IndexOf(s, "/")
    case None =>
    case Some(i) =>
      var j := RunEnd(s, i);
      var r := s[..i] + "/" + s[j..];
      forall k | 0 <= k < |r| ensures !IsWhitespace(r[k]) {
        if k < i {
          assert r[k] == s[k];
        } else if k > i {
          assert r[k] == s[j + k - i - 1];
        }
      }
  }

  lemma {:induction false} CollapseRunsNoWhitespace(s: string)
    requires NoWhitespace(s)
    ensures NoWhitespace(CollapseRuns(s))
    decreases |s|
  {
    if |s| >= 2 {
      CollapseRunsNoWhitespace(s[1..]);
    }
  }

  /** A path `normalize` leaves as it is: rooted, no whitespace, no `//`, no trailing `/` unless it is the root. */
  predicate IsNormal(s: string) {
    NoWhitespace(s) && |s| >= 1 && s[0] == '/' && NoDoubleSlash(s) && (s[|s| - 1] == '/' ==> s == "/")
  }

  /** A non-empty path segment without `/` or whitespace. */
  predicate IsSegment(seg: string) {
    |seg| >= 1 && NoWhitespace(seg) && forall i :: 0 <= i < |seg| ==> seg[i] != '/'
  }

  /** A normal path passes through unchanged. */
  lemma NormalizeFixedPoint(s: string)
    requires NoWhitespace(s) && |s| >= 1 && s[0] == '/' && NoDoubleSlash(s) && (s[|s| - 1] == '/' ==> s == "/")
    ensures Normalize(Some(s)) == s
  {
    RootedOfRooted(s);
    if |s| > 1 {
      assert !(s[0] == '/' && s[1] == '/');
    }
    CollapseFirstRunSingle(s);
    CollapseRunsNoop(s);
    if EndsWith(s, "/") {
      assert s[|s| - 1..] == "/";
    }
  }

  /** A trimmed path that already starts with a slash is left as it is by the first two steps. */
  lemma RootedOfRooted(s: string)
    requires NoWhitespace(s) && |s| >= 1 && s[0] == '/'
    ensures Rooted(s) == s
  {
    assert Trim(s) == s;
    assert s[..1] == "/";
  }

  /** A path whose first run of slashes is a single leading slash is left as it is by the first replacement. */
  lemma CollapseFirstRunSingle(s: string)
    requires |s| >= 1 && s[0] == '/' && (|s| > 1 ==> s[1] != '/')
    ensures CollapseFirstRun(s) == s
  {
    IndexOfCharAt(s, '/', 0);
    assert RunEnd(s, 0) == 1 by {
      assert RunEnd(s, 1) == 1;
    }
    assert s[..0] + "/" + s[1..] == s;
  }

  /** One segment under the root is a normal path. */
  lemma SegmentPath(seg: string)
    requires IsSegment(seg)
    ensures IsNormal("/" + seg)
  {
    var s := "/" + seg;
    forall i | 0 <= i < |s| ensures !IsWhitespace(s[i]) {
      if i > 0 { assert s[i] == seg[i - 1]; }
    }
    forall i | 0 <= i < |s| - 1 ensures !(s[i] == '/' && s[i + 1] == '/') {
      assert s[i + 1] == seg[i];
    }
    assert s[|s| - 1] == seg[|seg| - 1];
  }

  /** A normal path other than the root, extended by one more segment, is still normal. */
  lemma AppendSegment(s: string, seg: string)
    requires IsNormal(s) && s != "/" && IsSegment(seg)
    ensures IsNormal(s + "/" + seg)
  {
    var t := s + "/" + seg;
    forall i | 0 <= i < |t| ensures !IsWhitespace(t[i]) {
      if i < |s| { assert t[i] == s[i]; }
      else if i > |s| { assert t[i] == seg[i - |s| - 1]; }
    }
    forall i | 0 <= i < |t| - 1 ensures !(t[i] == '/' && t[i + 1] == '/') {
      if i + 1 < |s| {
        assert t[i] == s[i] && t[i + 1] == s[i + 1];
      } else if i + 1 == |s| {
        assert t[i] == s[|s| - 1];
      } else {
        assert t[i + 1] == seg[i - |s|];
      }
    }
    assert t[|t| - 1] == seg[|seg| - 1];
  }

  /** On whitespace-free input, normalising twice equals normalising once. */
  lemma NormalizeIdempotent(s: string)
    requires NoWhitespace(s)
    ensures Normalize(Some(Normalize(Some(s)))) == Normalize(Some(s))
  {
    NormalizeShape(Some(s));
    NormalizeNoWhitespace(Some(s));
    NormalizeFixedPoint(Normalize(Some(s)));
  }

  /** Whitespace breaks idempotence: the slash shields the space from the first trim. */
  lemma NormalizeNotIdempotentWithWhitespace()
    ensures Normalize(Some("a /")) == "/a "
    ensures Normalize(Some(Normalize(Some("a /")))) == "/a"
  {
    NormalizeSpaceBeforeSlash();
    NormalizeTrailingSpace();
  }

  lemma NormalizeSpaceBeforeSlash()
    ensures Normalize(Some("a /")) == "/a "
  {
    var p := "/a /";
    RootedSpaceBeforeSlash();
    CollapseFirstRunSingle(p);
    assert NoDoubleSlash(p);
    CollapseRunsNoop(p);
    DropSpaceBeforeSlash();
  }

  lemma RootedSpaceBeforeSlash()
    ensures Rooted("a /") == "/a /"
  {
    var s := "a /";
    assert s[0] == 'a' && s[2] == '/';
    assert !IsWhitespace(s[0]) && !IsWhitespace(s[2]);
    assert TrimStart(s) == s;
    assert TrimEnd(s) == s;
    assert Trim(s) == s;
    assert s[..1] != "/";
  }

  lemma DropSpaceBeforeSlash()
    ensures DropTrailingSlash("/a /") == "/a "
  {
    var p := "/a /";
    assert p[3..] == "/";
    assert p[..3] == "/a ";
    assert DropTrailingSlashes(p[..3]) == "/a ";
  }

  lemma NormalizeTrailingSpace()
    ensures Normalize(Some("/a ")) == "/a"
  {
    var s := "/a ";
    assert TrimStart(s) == s;
    assert TrimEnd(s[..2]) == s[..2];
    assert Trim(s) == "/a";
    var p := "/a";
    assert IsAt(p, "/", 0);
    assert RunEnd(p, 0) == 1;
    assert CollapseFirstRun(p) == p;
    assert CollapseRuns(p) == p;
  }
}
