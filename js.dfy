/**
 * The JavaScript built-ins the library leans on, modelled over `string`
 * (= seq<char>): optional values, thrown errors, `trim`, `startsWith`,
 * `includes`, `indexOf`, `lastIndexOf`, `split`/`join` with a string
 * separator, `replace` of the first occurrence, `slice`, ASCII `toLowerCase`
 * and the decimal rendering of a number in a template string.
 *
 * One `char` stands for one UTF-16 code unit of the original strings.
 */
module Js {

  /** `undefined` (or `null`) versus a present value. */
  datatype Option<+T> = None | Some(value: T) {
    /** The `??` operator: the value, or the default when it is absent. */
    function GetOr(default: T): T {
      if Some? then value else default
    }
  }

  /** The result of a call that may throw. */
  datatype Result<+T> = Ok(value: T) | Throws(error: string)

  /** The characters `trim` removes and the regular expression `\s` matches (ASCII subset). */
  predicate IsWhitespace(c: char) {
    c == ' ' || c == '\t' || c == '\n' || c == '\r' || c == '\U{000B}' || c == '\U{000C}'
  }

  predicate NoWhitespace(s: string) {
    forall i :: 0 <= i < |s| ==> !IsWhitespace(s[i])
  }

  /** Leading whitespace removed. */
  function TrimStart(s: string): (r: string)
    ensures |r| <= |s| && r == s[|s| - |r|..]
    ensures r == [] || !IsWhitespace(r[0])
    ensures forall i :: 0 <= i < |s| - |r| ==> IsWhitespace(s[i])
  {
    if |s| > 0 && IsWhitespace(s[0]) then TrimStart(s[1..]) else s
  }

  /** Trailing whitespace removed. */
  function TrimEnd(s: string): (r: string)
    ensures |r| <= |s| && r == s[..|r|]
    ensures r == [] || !IsWhitespace(r[|r| - 1])
    ensures forall i :: |r| <= i < |s| ==> IsWhitespace(s[i])
  {
    if |s| > 0 && IsWhitespace(s[|s| - 1]) then TrimEnd(s[..|s| - 1]) else s
  }

  /** `String.prototype.trim`. */
  function Trim(s: string): (r: string)
    ensures |r| <= |s|
    ensures r == [] || (!IsWhitespace(r[0]) && !IsWhitespace(r[|r| - 1]))
    ensures NoWhitespace(s) ==> r == s
  {
    TrimEnd(TrimStart(s))
  }

  /** `trim` keeps a contiguous part of the string: every character it keeps comes from `s`. */
  lemma TrimChars(s: string)
    ensures forall i :: 0 <= i < |Trim(s)| ==> Trim(s)[i] in s
  {
    var a := TrimStart(s);
    var r := TrimEnd(a);
    forall i | 0 <= i < |r| ensures r[i] in s {
      assert r[i] == a[i];
      assert a[i] == s[|s| - |a| + i];
    }
  }

  predicate StartsWith(s: string, p: string) {
    |p| <= |s| && s[..|p|] == p
  }

  predicate EndsWith(s: string, p: string) {
    |p| <= |s| && s[|s| - |p|..] == p
  }

  /** `p` occurs in `s` at position `i`. */
  predicate IsAt(s: string, p: string, i: int) {
    0 <= i && i + |p| <= |s| && s[i..i + |p|] == p
  }

  /** The first position at or after `from` where `p` occurs. */
  function IndexOfFrom(s: string, p: string, from: nat): (r: Option<nat>)
    requires from <= |s|
    ensures r.Some? ==> from <= r.value && IsAt(s, p, r.value)
    ensures r.Some? ==> forall j :: from <= j < r.value ==> !IsAt(s, p, j)
    ensures r.None? ==> forall j :: from <= j ==> !IsAt(s, p, j)
    decreases |s| - from
  {
    if IsAt(s, p, from) then Some(from)
    else if from == |s| then None
    else IndexOfFrom(s, p, from + 1)
  }

  /** `s.indexOf(p)`, with `None` for -1. */
  function IndexOf(s: string, p: string): (r: Option<nat>)
    ensures r.Some? ==> IsAt(s, p, r.value) && forall j :: 0 <= j < r.value ==> !IsAt(s, p, j)
    ensures r.None? ==> forall j :: !IsAt(s, p, j)
  {
    IndexOfFrom(s, p, 0)
  }

  /** `s.includes(p)`. */
  predicate Contains(s: string, p: string) {
    IndexOf(s, p).Some?
  }

  /** `s.lastIndexOf(c)` for a one-character needle: -1 when absent. */
  function LastIndexOf(s: string, c: char): (r: int)
    ensures -1 <= r < |s|
    ensures r >= 0 ==> s[r] == c
    ensures forall j :: r < j < |s| ==> s[j] != c
  {
    if |s| == 0 then -1
    else if s[|s| - 1] == c then |s| - 1
    else LastIndexOf(s[..|s| - 1], c)
  }

  /** `s.replace(p, q)` with a string pattern: only the first occurrence is replaced. */
  function ReplaceFirst(s: string, p: string, q: string): (r: string)
    ensures !Contains(s, p) ==> r == s
    ensures Contains(s, p) ==>
      var i := IndexOf(s, p).value; r == s[..i] + q + s[i + |p|..]
  {
    match IndexOf(s, p)
    case None => s
    case Some(i) => s[..i] + q + s[i + |p|..]
  }

  /** `s.slice(0, end)`: a negative `end` counts from the end of `s`. */
  function SliceTo(s: string, end: int): (r: string)
    ensures |r| <= |s| && r == s[..|r|]
    ensures end >= 0 ==> |r| == if end < |s| then end else |s|
    ensures end < 0 ==> |r| == if |s| + end > 0 then |s| + end else 0
  {
    if end < 0 then (if |s| + end > 0 then s[..|s| + end] else [])
    else if end < |s| then s[..end]
    else s
  }

  function ToLowerChar(c: char): char {
    if 'A' <= c <= 'Z' then (c as int + 32) as char else c
  }

  /** `toLowerCase` on the ASCII letters. */
  function ToLower(s: string): (r: string)
    ensures |r| == |s|
    ensures forall i :: 0 <= i < |s| ==> r[i] == ToLowerChar(s[i])
  {
    if s == [] then [] else [ToLowerChar(s[0])] + ToLower(s[1..])
  }

  /** Lowercasing twice is lowercasing once. */
  lemma ToLowerIdempotent(s: string)
    ensures ToLower(ToLower(s)) == ToLower(s)
  {
    assert forall i :: 0 <= i < |s| ==> ToLowerChar(ToLowerChar(s[i])) == ToLowerChar(s[i]);
  }

  /** The decimal digits of `n`, as a template string renders a non-negative integer. */
  function NatToString(n: nat): (r: string)
    ensures |r| >= 1
    ensures forall i :: 0 <= i < |r| ==> '0' <= r[i] <= '9'
  {
    var d := ['0' + (n % 10) as char];
    if n < 10 then d else NatToString(n / 10) + d
  }

  /** `parts.join(sep)`. */
  function Join(parts: seq<string>, sep: string): (r: string)
  {
    if |parts| == 0 then ""
    else if |parts| == 1 then parts[0]
    else parts[0] + sep + Join(parts[1..], sep)
  }

  /** Joining two non-empty lists puts one separator between their joins. */
  lemma {:induction false} JoinAppend(a: seq<string>, b: seq<string>, sep: string)
    requires |a| >= 1 && |b| >= 1
    ensures Join(a + b, sep) == Join(a, sep) + sep + Join(b, sep)
    decreases |a|
  {
    if |a| == 1 {
      assert (a + b)[1..] == b;
    } else {
      assert (a + b)[1..] == a[1..] + b;
      JoinAppend(a[1..], b, sep);
    }
  }

  /** `s.split(sep)` for a non-empty string separator. */
  function Split(s: string, sep: string): (parts: seq<string>)
    requires |sep| > 0
    ensures |parts| >= 1
    decreases |s|
  {
    match IndexOf(s, sep)
    case None => [s]
    case Some(i) => [s[..i]] + Split(s[i + |sep|..], sep)
  }

  /** An occurrence of `p` inside a prefix of `s` is an occurrence in `s`. */
  lemma IsAtPrefix(s: string, p: string, n: nat, j: int)
    requires n <= |s| && IsAt(s[..n], p, j)
    ensures IsAt(s, p, j)
  {
    assert s[..n][j..j + |p|] == s[j..j + |p|];
  }

  /** An occurrence of `p` inside a suffix of `s` is an occurrence in `s`. */
  lemma IsAtSuffix(s: string, p: string, n: nat, j: int)
    requires n <= |s| && IsAt(s[n..], p, j)
    ensures IsAt(s, p, n + j)
  {
    assert s[n..][j..j + |p|] == s[n + j..n + j + |p|];
  }

  /** An occurrence in a concatenation that lies wholly inside its left operand. */
  lemma IsAtLeft(a: string, b: string, p: string, j: int)
    requires 0 <= j && j + |p| <= |a|
    ensures IsAt(a + b, p, j) <==> IsAt(a, p, j)
  {
    assert (a + b)[j..j + |p|] == a[j..j + |p|];
  }

  /** An occurrence in a concatenation that lies wholly inside its right operand. */
  lemma IsAtRight(a: string, b: string, p: string, j: int)
    requires |a| <= j
    ensures IsAt(a + b, p, j) <==> IsAt(b, p, j - |a|)
  {
    if j + |p| <= |a + b| {
      assert (a + b)[j..j + |p|] == b[j - |a|..j - |a| + |p|];
    }
  }

  /** The first piece of a split: the text before the first separator, or all of `s`. */
  lemma SplitFirst(s: string, sep: string)
    requires |sep| > 0
    ensures IndexOf(s, sep).None? ==> Split(s, sep)[0] == s
    ensures IndexOf(s, sep).Some? ==> Split(s, sep)[0] == s[..IndexOf(s, sep).value]
  {
  }

  /** An occurrence at `i` is the first one when no occurrence fits before its last character. */
  lemma IndexOfFirstAt(s: string, p: string, i: nat)
    requires |p| > 0 && IsAt(s, p, i)
    requires !Contains(s[..i + |p| - 1], p)
    ensures IndexOf(s, p) == Some(i)
  {
    var n := i + |p| - 1;
    forall j | 0 <= j < i
      ensures !IsAt(s, p, j)
    {
      if IsAt(s, p, j) {
        assert s[..n][j..j + |p|] == s[j..j + |p|];
        assert IsAt(s[..n], p, j);
        assert false;
      }
    }
  }

  /** A string without `p` has no prefix containing `p`. */
  lemma NotContainsPrefix(s: string, p: string, n: nat)
    requires n <= |s| && !Contains(s, p)
    ensures !Contains(s[..n], p)
  {
    if Contains(s[..n], p) {
      IsAtPrefix(s, p, n, IndexOf(s[..n], p).value);
      assert false;
    }
  }

  /** No piece produced by `split` contains the separator. */
  lemma {:induction false} SplitPiecesAvoidSeparator(s: string, sep: string)
    requires |sep| > 0
    ensures forall k :: 0 <= k < |Split(s, sep)| ==> !Contains(Split(s, sep)[k], sep)
    decreases |s|
  {
    match IndexOf(s, sep)
    case None =>
    case Some(i) =>
      var rest := s[i + |sep|..];
      SplitPiecesAvoidSeparator(rest, sep);
      if Contains(s[..i], sep) {
        var j := IndexOf(s[..i], sep).value;
        IsAtPrefix(s, sep, i, j);
        assert false;
      }
      assert Split(s, sep) == [s[..i]] + Split(rest, sep);
  }

  /** Joining the pieces of a split with the same separator gives the string back. */
  lemma {:induction false} JoinSplit(s: string, sep: string)
    requires |sep| > 0
    ensures Join(Split(s, sep), sep) == s
    decreases |s|
  {
    var idx := IndexOf(s, sep);
    if idx.Some? {
      var i := idx.value;
      var rest := s[i + |sep|..];
      JoinSplit(rest, sep);
      var tail := Split(rest, sep);
      assert Split(s, sep) == [s[..i]] + tail;
      assert Join(Split(s, sep), sep) == s[..i] + sep + Join(tail, sep);
      JoinAround(s, i, |sep|);
    }
  }

  /** A string is the part before a window, the window and the part after. */
  lemma JoinAround(s: string, i: nat, n: nat)
    requires i + n <= |s|
    ensures s == s[..i] + s[i..i + n] + s[i + n..]
  {
  }

  /**
   * Splitting a join recovers the parts, provided no part contains the
   * separator and no occurrence straddles a part boundary.
   */
  lemma {:induction false} SplitJoin(parts: seq<string>, sep: string)
    requires |sep| > 0 && |parts| >= 1
    requires forall k :: 0 <= k < |parts| ==> !Contains(parts[k], sep)
    requires forall k, j :: 0 <= k < |parts| - 1 && 0 <= j < |parts[k]| ==> !IsAt(parts[k] + sep, sep, j)
    ensures Split(Join(parts, sep), sep) == parts
    decreases |parts|
  {
    var s := Join(parts, sep);
    if |parts| == 1 {
      assert s == parts[0];
    } else {
      var rest := Join(parts[1..], sep);
      assert s == parts[0] + sep + rest;
      var a := parts[0];
      forall j | 0 <= j < |a| ensures !IsAt(s, sep, j) {
        assert !IsAt(a + sep, sep, j);
        if j + |sep| <= |a + sep| {
          assert s[j..j + |sep|] == (a + sep)[j..j + |sep|];
        }
      }
      assert IsAt(s, sep, |a|) by {
        assert s[|a|..|a| + |sep|] == sep;
      }
      assert IndexOf(s, sep) == Some(|a|);
      assert s[|a| + |sep|..] == rest;
      assert s[..|a|] == a;
      SplitJoin(parts[1..], sep);
      assert Split(s, sep) == [a] + Split(rest, sep);
    }
  }

  /** A one-character needle occurs exactly where that character stands. */
  lemma IsAtChar(s: string, c: char, i: int)
    ensures IsAt(s, [c], i) <==> 0 <= i < |s| && s[i] == c
  {
    if 0 <= i < |s| {
      assert s[i..i + 1] == [s[i]];
    }
  }

  /** `indexOf` of a character: the position of its first occurrence. */
  lemma IndexOfCharAt(s: string, c: char, i: nat)
    requires i < |s| && s[i] == c
    requires forall j :: 0 <= j < i ==> s[j] != c
    ensures IndexOf(s, [c]) == Some(i)
  {
    IsAtChar(s, c, i);
    var r := IndexOf(s, [c]);
    IsAtChar(s, c, r.value);
  }

  /** `indexOf` of a character that does not occur. */
  lemma IndexOfCharNone(s: string, c: char)
    requires forall j :: 0 <= j < |s| ==> s[j] != c
    ensures IndexOf(s, [c]) == None
  {
    var r := IndexOf(s, [c]);
    if r.Some? {
      IsAtChar(s, c, r.value);
    }
  }
}
