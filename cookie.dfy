/**
 * The cookie helpers: reading one cookie out of a `document.cookie` string
 * (the `name=value; name=value` shape of the Cookie header, section 4.2.1 of
 * RFC 6265), building the attribute string `setCookie` assigns (the
 * Set-Cookie attributes of section 4.1.1 of RFC 6265, with SameSite from the
 * rfc6265bis draft), removing cookies, and collecting every cookie into a
 * record.
 */
module Cookie {
  import opened Js

  /** `expires`: a number of days from now, or a `Date` given as its time value. */
  datatype Expires = Days(days: int) | At(time: int)

  datatype SameSite = Strict | Lax | NoSameSite

  /** `CookieOptions`; a missing field is `undefined`. */
  datatype CookieOptions = CookieOptions(
    expires: Option<Expires>,
    path: Option<string>,
    domain: Option<string>,
    secure: Option<bool>,
    sameSite: Option<SameSite>)

  /** `{}`: the options `setCookie` uses when none are given. */
  const NoOptions := CookieOptions(None, None, None, None, None)

  /**
   * What the helpers take from the browser: the clock (`Date.now()` in
   * milliseconds), `toUTCString` of a time value, `encodeURIComponent`,
   * `decodeURIComponent`, and the cookie store's update of what reading
   * `document.cookie` returns after a string is written to it.
   */
  datatype Browser = Browser(
    now: int,
    toUTCString: int -> string,
    encode: string -> string,
    decode: string -> string,
    store: (string, string) -> string)

  /** `document`, reduced to its cookies. */
  class Document {
    /** What reading `document.cookie` returns. */
    var cookie: string
    /** Every string written to `document.cookie`, oldest first. */
    var written: seq<string>

    constructor(cookie: string)
      ensures this.cookie == cookie && written == []
    {
      this.cookie := cookie;
      written := [];
    }
  }

  // ---- getCookie / hasCookie ----

  /** The text before the first `;`, or all of `s`. */
  function BeforeSemicolon(s: string): (r: string)
    ensures StartsWith(s, r)
    ensures forall k :: 0 <= k < |r| ==> r[k] != ';'
    ensures |r| < |s| ==> s[|r|] == ';'
  {
    match IndexOf(s, ";")
    case None =>
      assert forall k :: 0 <= k < |s| ==> s[k] != ';' by {
        forall k | 0 <= k < |s| ensures s[k] != ';' { IsAtChar(s, ';', k); }
      }
      s
    case Some(i) =>
      IsAtChar(s, ';', i);
      assert forall k :: 0 <= k < i ==> s[k] != ';' by {
        forall k | 0 <= k < i ensures s[k] != ';' { IsAtChar(s, ';', k); }
      }
      s[..i]
  }

  /** The needle `getCookie` splits on: `; name=`. */
  function Needle(name: string): string {
    "; " + name + "="
  }

  /** `getCookie(name)` on the string `document.cookie` holds. */
  function CookieValue(cookie: string, name: string, decode: string -> string): Option<string> {
    var parts := Split("; " + cookie, Needle(name));
    if |parts| == 2 then
      var cookieValue := Split(parts[1], ";")[0];
      if cookieValue != "" then Some(decode(cookieValue)) else None
    else None
  }

  /** `getCookie(name)`: `null` without a document. */
  function GetCookie(doc: Document?, name: string, decode: string -> string): Option<string>
    reads doc
  {
    if doc == null then None else CookieValue(doc.cookie, name, decode)
  }

  /** `hasCookie(name)`. */
  predicate HasCookie(doc: Document?, name: string, decode: string -> string)
    reads doc
  {
    GetCookie(doc, name, decode).Some?
  }

  /** Two occurrences of `; name=` never overlap when the name holds no `;`. */
  lemma NeedleNoOverlap(s: string, name: string, i: int, j: int)
    requires ';' !in name
    requires IsAt(s, Needle(name), i) && IsAt(s, Needle(name), j) && i < j
    ensures j >= i + |Needle(name)|
  {
    var p := Needle(name);
    assert s[j..j + |p|] == p;
    assert s[j] == ';';
    forall d | 1 <= d < |p| ensures p[d] != ';' {
      if 2 <= d < |p| - 1 {
        assert p[d] == name[d - 2];
      }
    }
    assert s[i..i + |p|] == p;
    assert forall x :: i <= x < i + |p| ==> s[x] == p[x - i];
  }

  /** A split whose separator occurs has at least two pieces, the first being the text before the occurrence. */
  lemma SplitFound(s: string, sep: string)
    requires |sep| > 0 && IndexOf(s, sep).Some?
    ensures var i := IndexOf(s, sep).value;
      Split(s, sep) == [s[..i]] + Split(s[i + |sep|..], sep)
  {
  }

  /** The occurrences in what follows the first occurrence are the later occurrences. */
  lemma AfterFirst(s: string, name: string, k: nat)
    requires ';' !in name
    requires IndexOf(s, Needle(name)).Some?
    ensures var i := IndexOf(s, Needle(name)).value;
      var rest := s[i + |Needle(name)|..];
      IsAt(rest, Needle(name), k) <==> IsAt(s, Needle(name), i + |Needle(name)| + k)
  {
    var p := Needle(name);
    var i := IndexOf(s, p).value;
    var n := i + |p|;
    if 0 <= k && k + |p| <= |s| - n {
      assert s[n..][k..k + |p|] == s[n + k..n + k + |p|];
    }
  }

  /**
   * When `; name=` occurs in `"; " + cookie` at exactly one place, the value
   * is the decoded text after it up to the next `;`, or nothing if that text
   * is empty.
   */
  lemma CookieValueUnique(cookie: string, name: string, decode: string -> string, i: int)
    requires ';' !in name
    requires IsAt("; " + cookie, Needle(name), i)
    requires forall j :: IsAt("; " + cookie, Needle(name), j) ==> j == i
    ensures var raw := BeforeSemicolon(("; " + cookie)[i + |Needle(name)|..]);
      CookieValue(cookie, name, decode) == if raw != "" then Some(decode(raw)) else None
  {
    var s := "; " + cookie;
    UniqueSplit(s, Needle(name), i);
    SplitFirst(s[i + |Needle(name)|..], ";");
  }

  /** An occurrence in a suffix of `s` is an occurrence in `s`, shifted by where the suffix starts. */
  lemma LaterOccurrences(s: string, p: string, n: nat)
    requires n <= |s|
    ensures forall k :: IsAt(s[n..], p, k) ==> IsAt(s, p, n + k)
  {
    forall k | IsAt(s[n..], p, k)
      ensures IsAt(s, p, n + k)
    {
      assert s[n..][k..k + |p|] == s[n + k..n + k + |p|];
    }
  }

  /** A separator that occurs exactly once splits the string into the text before it and the text after it. */
  lemma UniqueSplit(s: string, p: string, i: int)
    requires |p| > 0 && IsAt(s, p, i)
    requires forall j :: IsAt(s, p, j) ==> j == i
    ensures Split(s, p) == [s[..i]] + [s[i + |p|..]]
  {
    assert IndexOf(s, p) == Some(i);
    assert IndexOf(s[i + |p|..], p).None? by {
      LaterOccurrences(s, p, i + |p|);
    }
    SplitOnce(s, p, i);
  }

  /** A separator found at `i` and not after it splits the string in two. */
  lemma SplitOnce(s: string, p: string, i: nat)
    requires |p| > 0 && IndexOf(s, p) == Some(i) && IndexOf(s[i + |p|..], p).None?
    ensures Split(s, p) == [s[..i]] + [s[i + |p|..]]
  {
    SplitFound(s, p);
  }

  /** A name that does not occur gives `null`. */
  lemma CookieValueAbsent(cookie: string, name: string, decode: string -> string)
    requires forall j :: !IsAt("; " + cookie, Needle(name), j)
    ensures CookieValue(cookie, name, decode) == None
  {
  }

  /** A name that occurs twice or more gives `null`. */
  lemma CookieValueDuplicate(cookie: string, name: string, decode: string -> string, i: int, j: int)
    requires ';' !in name
    requires IsAt("; " + cookie, Needle(name), i) && IsAt("; " + cookie, Needle(name), j) && i < j
    ensures CookieValue(cookie, name, decode) == None
  {
    DuplicateNeedleSplit("; " + cookie, name, i, j);
  }

  /** A needle that occurs twice splits the string into three pieces or more. */
  lemma DuplicateNeedleSplit(s: string, name: string, i: int, j: int)
    requires ';' !in name
    requires IsAt(s, Needle(name), i) && IsAt(s, Needle(name), j) && i < j
    ensures |Split(s, Needle(name))| >= 3
  {
    var p := Needle(name);
    var first := IndexOf(s, p).value;
    var later := if first == i then j else i;
    assert IsAt(s, p, later) && later > first;
    var k: nat := later - first - |p| by {
      NeedleNoOverlap(s, name, first, later);
    }
    assert IsAt(s[first + |p|..], p, k) by {
      AfterFirst(s, name, k);
    }
    SplitTwice(s, p, k);
  }

  /** A separator that occurs again after its first occurrence splits the string into three pieces or more. */
  lemma SplitTwice(s: string, p: string, k: nat)
    requires |p| > 0 && IndexOf(s, p).Some?
    requires IsAt(s[IndexOf(s, p).value + |p|..], p, k)
    ensures |Split(s, p)| >= 3
  {
    var rest := s[IndexOf(s, p).value + |p|..];
    assert IndexOf(rest, p).Some?;
    SplitFound(s, p);
    SplitFound(rest, p);
  }

  /** `hasCookie` is false for a missing, duplicated or empty-valued cookie. */
  lemma HasCookieCases(doc: Document, name: string, decode: string -> string)
    requires ';' !in name
    ensures (forall j :: !IsAt("; " + doc.cookie, Needle(name), j)) ==> !HasCookie(doc, name, decode)
    ensures forall i, j :: (0 <= i < j && IsAt("; " + doc.cookie, Needle(name), i) && IsAt("; " + doc.cookie, Needle(name), j)
      ==> !HasCookie(doc, name, decode))
    ensures forall i :: IsAt("; " + doc.cookie, Needle(name), i) && (forall j :: IsAt("; " + doc.cookie, Needle(name), j) ==> j == i) ==>
      (HasCookie(doc, name, decode) <==> BeforeSemicolon(("; " + doc.cookie)[i + |Needle(name)|..]) != "")
  {
    forall i, j | 0 <= i < j && IsAt("; " + doc.cookie, Needle(name), i) && IsAt("; " + doc.cookie, Needle(name), j)
      ensures !HasCookie(doc, name, decode)
    {
      CookieValueDuplicate(doc.cookie, name, decode, i, j);
    }
    forall i | IsAt("; " + doc.cookie, Needle(name), i) && (forall j :: IsAt("; " + doc.cookie, Needle(name), j) ==> j == i)
      ensures HasCookie(doc, name, decode) <==> BeforeSemicolon(("; " + doc.cookie)[i + |Needle(name)|..]) != ""
    {
      CookieValueUnique(doc.cookie, name, decode, i);
    }
  }

  // ---- setCookie ----

  /** A day in milliseconds. */
  const DayMillis := 24 * 60 * 60 * 1000

  /** `if (expires)`: a number is falsy when it is 0; a `Date` is always truthy. */
  predicate ExpiresTruthy(e: Expires) {
    e.At? || e.days != 0
  }

  /** The time value of the expiry date. */
  function ExpiresTime(e: Expires, now: int): int {
    match e
    case Days(d) => now + d * DayMillis
    case At(t) => t
  }

  function SameSiteText(s: SameSite): string {
    match s
    case Strict => "strict"
    case Lax => "lax"
    case NoSameSite => "none"
  }

  /** A string option used with `if (x)`: present and non-empty. */
  predicate Set(s: Option<string>) {
    s.Some? && s.value != ""
  }

  /**
   * The attributes after `name=value`, in their fixed order, with the
   * defaults of the destructuring: 30 days, path `/`, samesite `lax`.
   */
  function Attributes(options: CookieOptions, b: Browser): (r: seq<string>)
    ensures |r| >= 1 && r[|r| - 1] == "samesite=" + SameSiteText(options.sameSite.GetOr(Lax))
  {
    ExpiresAttr(options, b) + PathAttr(options) + DomainAttr(options) + SecureAttr(options)
      + ["samesite=" + SameSiteText(options.sameSite.GetOr(Lax))]
  }

  /** `;expires=…` unless the expiry (default 30 days) is falsy. */
  function ExpiresAttr(options: CookieOptions, b: Browser): seq<string> {
    var expires := options.expires.GetOr(Days(30));
    if ExpiresTruthy(expires) then ["expires=" + b.toUTCString(ExpiresTime(expires, b.now))] else []
  }

  /** `;path=…` unless the path (default `/`) is empty. */
  function PathAttr(options: CookieOptions): seq<string> {
    var path := if options.path.None? then Some("/") else options.path;
    if Set(path) then ["path=" + path.value] else []
  }

  function DomainAttr(options: CookieOptions): seq<string> {
    if Set(options.domain) then ["domain=" + options.domain.value] else []
  }

  function SecureAttr(options: CookieOptions): seq<string> {
    if options.secure == Some(true) then ["secure"] else []
  }

  /** Each attribute of a list of at most one, after a `;`. */
  function Prefixed(attr: seq<string>): string {
    if attr == [] then "" else ";" + attr[0]
  }

  /** The string `setCookie` assigns to `document.cookie`: the pair, then each attribute after a `;`. */
  function CookieString(name: string, value: string, options: CookieOptions, b: Browser): string {
    name + "=" + b.encode(value)
      + Prefixed(ExpiresAttr(options, b)) + Prefixed(PathAttr(options)) + Prefixed(DomainAttr(options))
      + Prefixed(SecureAttr(options)) + Prefixed(["samesite=" + SameSiteText(options.sameSite.GetOr(Lax))])
  }

  /** Joining one more piece of at most one. */
  lemma JoinExtend(parts: seq<string>, extra: seq<string>)
    requires |parts| >= 1 && |extra| <= 1
    ensures Join(parts + extra, ";") == Join(parts, ";") + Prefixed(extra)
  {
    if extra == [] {
      assert parts + extra == parts;
    } else {
      var x := extra[0];
      assert extra == [x];
      JoinAppend(parts, [x], ";");
      assert Join([x], ";") == x;
      assert Join(parts, ";") + ";" + x == Join(parts, ";") + Prefixed([x]);
    }
  }

  /** The assigned string is the pair and the attributes joined with `;`. */
  lemma CookieStringIsJoin(name: string, value: string, options: CookieOptions, b: Browser)
    ensures CookieString(name, value, options, b) == Join([name + "=" + b.encode(value)] + Attributes(options, b), ";")
  {
    var p0 := [name + "=" + b.encode(value)];
    var e, pa, d, se := ExpiresAttr(options, b), PathAttr(options), DomainAttr(options), SecureAttr(options);
    var ss := ["samesite=" + SameSiteText(options.sameSite.GetOr(Lax))];
    JoinExtend(p0, e);
    JoinExtend(p0 + e, pa);
    JoinExtend(p0 + e + pa, d);
    JoinExtend(p0 + e + pa + d, se);
    JoinExtend(p0 + e + pa + d + se, ss);
    AppendAssoc(p0, e, pa);
    AppendAssoc(p0, e + pa, d);
    AppendAssoc(p0, e + pa + d, se);
    AppendAssoc(p0, e + pa + d + se, ss);
  }

  /** Appending one more piece to a join. */
  lemma JoinSnoc(parts: seq<string>, x: string, sep: string)
    requires |parts| >= 1
    ensures Join(parts + [x], sep) == Join(parts, sep) + sep + x
  {
    JoinAppend(parts, [x], sep);
  }

  /**
   * `setCookie(name, value, options)`: builds the string step by step and
   * assigns it to `document.cookie`; nothing happens without a document.
   */
  method SetCookie(doc: Document?, name: string, value: string, options: CookieOptions, b: Browser)
    modifies doc
    ensures doc != null ==> doc.written == old(doc.written) + [CookieString(name, value, options, b)]
    ensures doc != null ==> doc.cookie == b.store(old(doc.cookie), CookieString(name, value, options, b))
  {
    if doc == null {
      return;
    }
    var expires := options.expires.GetOr(Days(30));
    var path := if options.path.None? then Some("/") else options.path;
    var sameSite := options.sameSite.GetOr(Lax);

    var cookieString := name + "=" + b.encode(value);

    // each step adds the template `;attr=value` of one attribute
    if ExpiresTruthy(expires) {
      var expiresDate := ExpiresTime(expires, b.now);
      cookieString := cookieString + (";" + ("expires=" + b.toUTCString(expiresDate)));
    }
    assert cookieString == name + "=" + b.encode(value) + Prefixed(ExpiresAttr(options, b));
    ghost var sofar := cookieString;
    if Set(path) {
      cookieString := cookieString + (";" + ("path=" + path.value));
    }
    assert cookieString == sofar + Prefixed(PathAttr(options));
    sofar := cookieString;
    if Set(options.domain) {
      cookieString := cookieString + (";" + ("domain=" + options.domain.value));
    }
    assert cookieString == sofar + Prefixed(DomainAttr(options));
    sofar := cookieString;
    if options.secure == Some(true) {
      cookieString := cookieString + (";" + "secure");
    }
    assert cookieString == sofar + Prefixed(SecureAttr(options));
    cookieString := cookieString + (";" + ("samesite=" + SameSiteText(sameSite)));

    doc.cookie := b.store(doc.cookie, cookieString);
    doc.written := doc.written + [cookieString];
  }

  /** A one-character separator occurs in a piece only where the piece holds that character. */
  lemma NoStraddle(parts: seq<string>, c: char)
    requires forall k :: 0 <= k < |parts| ==> c !in parts[k]
    ensures forall k :: 0 <= k < |parts| ==> !Contains(parts[k], [c])
    ensures forall k, j :: 0 <= k < |parts| - 1 && 0 <= j < |parts[k]| ==> !IsAt(parts[k] + [c], [c], j)
  {
    forall k | 0 <= k < |parts| ensures !Contains(parts[k], [c]) {
      if Contains(parts[k], [c]) {
        IsAtChar(parts[k], c, IndexOf(parts[k], [c]).value);
      }
    }
    forall k, j | 0 <= k < |parts| - 1 && 0 <= j < |parts[k]| ensures !IsAt(parts[k] + [c], [c], j) {
      IsAtChar(parts[k] + [c], c, j);
      assert (parts[k] + [c])[j] == parts[k][j];
    }
  }

  /**
   * Reading the written string back: split on `;`, it gives the pair and
   * the attributes in order, provided none of them holds a `;`.
   */
  lemma CookieStringFields(name: string, value: string, options: CookieOptions, b: Browser)
    requires forall k :: 0 <= k < |[name + "=" + b.encode(value)] + Attributes(options, b)| ==>
      ';' !in ([name + "=" + b.encode(value)] + Attributes(options, b))[k]
    ensures Split(CookieString(name, value, options, b), ";") == [name + "=" + b.encode(value)] + Attributes(options, b)
  {
    var parts := [name + "=" + b.encode(value)] + Attributes(options, b);
    NoStraddle(parts, ';');
    SplitJoin(parts, ";");
    CookieStringIsJoin(name, value, options, b);
  }

  /** With no options: a 30-day expiry, path `/` and samesite `lax`, and nothing else. */
  lemma DefaultAttributes(b: Browser)
    ensures Attributes(NoOptions, b) ==
      ["expires=" + b.toUTCString(b.now + 30 * DayMillis), "path=" + "/", "samesite=" + "lax"]
  {
  }

  /** Every attribute present, in the fixed order expires, path, domain, secure, samesite. */
  lemma AllAttributes(t: int, path: string, domain: string, sameSite: SameSite, b: Browser)
    requires path != "" && domain != ""
    ensures Attributes(CookieOptions(Some(At(t)), Some(path), Some(domain), Some(true), Some(sameSite)), b) ==
      ["expires=" + b.toUTCString(t), "path=" + path, "domain=" + domain, "secure", "samesite=" + SameSiteText(sameSite)]
  {
  }

  /** A falsy expiry (the number 0) or an empty path leaves that attribute out; a `Date` at the epoch does not. */
  lemma FalsyAttributesOmitted(b: Browser)
    ensures Attributes(CookieOptions(Some(Days(0)), Some(""), None, Some(false), None), b) == ["samesite=" + "lax"]
    ensures Attributes(CookieOptions(Some(At(0)), None, None, None, None), b) ==
      ["expires=" + b.toUTCString(0), "path=" + "/", "samesite=" + "lax"]
  {
    var epoch := CookieOptions(Some(At(0)), None, None, None, None);
    assert ExpiresAttr(epoch, b) == ["expires=" + b.toUTCString(0)];
    assert PathAttr(epoch) == ["path=" + "/"];
    assert DomainAttr(epoch) + SecureAttr(epoch) == [];
  }

  // ---- removeCookie / getAllCookies / clearAllCookies ----

  /** `{ ...options, expires: new Date(0) }` for the path and domain of `removeCookie`. */
  function RemoveOptions(path: Option<string>, domain: Option<string>): CookieOptions {
    CookieOptions(Some(At(0)), path, domain, None, None)
  }

  /** The string `removeCookie(name, { path, domain })` assigns. */
  function RemovalString(name: string, path: Option<string>, domain: Option<string>, b: Browser): string {
    CookieString(name, "", RemoveOptions(path, domain), b)
  }

  /**
   * The removal string sets an empty value and an expiry at the epoch, then
   * the caller's path (default `/`) and domain, then samesite `lax`.
   */
  lemma RemovalStringShape(name: string, path: Option<string>, domain: Option<string>, b: Browser)
    ensures Attributes(RemoveOptions(path, domain), b) ==
      ["expires=" + b.toUTCString(0)]
      + (if path.None? then ["path=" + "/"] else if path.value != "" then ["path=" + path.value] else [])
      + (if Set(domain) then ["domain=" + domain.value] else [])
      + ["samesite=" + "lax"]
    ensures RemovalString(name, path, domain, b) ==
      Join([name + "=" + b.encode("")] + Attributes(RemoveOptions(path, domain), b), ";")
  {
    var options := RemoveOptions(path, domain);
    var e, pa, d := ExpiresAttr(options, b), PathAttr(options), DomainAttr(options);
    assert e == ["expires=" + b.toUTCString(0)];
    assert SecureAttr(options) == [];
    assert e + pa + d + [] == e + pa + d;
    CookieStringIsJoin(name, "", options, b);
  }

  /** `removeCookie(name, { path, domain })`. */
  method RemoveCookie(doc: Document?, name: string, path: Option<string>, domain: Option<string>, b: Browser)
    modifies doc
    ensures doc != null ==> doc.written == old(doc.written) + [RemovalString(name, path, domain, b)]
    ensures doc != null ==> doc.cookie == b.store(old(doc.cookie), RemovalString(name, path, domain, b))
  {
    SetCookie(doc, name, "", RemoveOptions(path, domain), b);
  }

  /** A `Record<string, string>`: its keys in insertion order, each with its value. */
  type Record = seq<(string, string)>

  function Keys(rec: Record): (ks: seq<string>)
    ensures |ks| == |rec| && forall i :: 0 <= i < |rec| ==> ks[i] == rec[i].0
  {
    if rec == [] then [] else [rec[0].0] + Keys(rec[1..])
  }

  predicate DistinctKeys(rec: Record) {
    forall i, j :: 0 <= i < j < |rec| ==> rec[i].0 != rec[j].0
  }

  /** `rec[k]`. */
  function Lookup(rec: Record, k: string): Option<string> {
    if rec == [] then None else if rec[0].0 == k then Some(rec[0].1) else Lookup(rec[1..], k)
  }

  /** `rec[k] = v`: an existing key keeps its place and takes the new value; a new key goes last. */
  function Put(rec: Record, k: string, v: string): (r: Record)
    ensures Lookup(r, k) == Some(v)
    ensures forall k' :: k' != k ==> Lookup(r, k') == Lookup(rec, k')
    ensures forall k' :: k' in Keys(r) <==> k' == k || k' in Keys(rec)
  {
    if rec == [] then [(k, v)]
    else if rec[0].0 == k then [(k, v)] + rec[1..]
    else [rec[0]] + Put(rec[1..], k, v)
  }

  /** Putting a key keeps the keys distinct. */
  lemma {:induction false} PutDistinct(rec: Record, k: string, v: string)
    requires DistinctKeys(rec)
    ensures DistinctKeys(Put(rec, k, v))
  {
    if rec != [] && rec[0].0 != k {
      var tail := Put(rec[1..], k, v);
      PutDistinct(rec[1..], k, v);
      var r := [rec[0]] + tail;
      forall i | 0 <= i < |rec| - 1 ensures Keys(rec[1..])[i] != rec[0].0 {
        assert Keys(rec[1..])[i] == rec[i + 1].0;
      }
      assert rec[0].0 !in Keys(rec[1..]);
      forall j | 0 < j < |r| ensures r[0].0 != r[j].0 {
        assert Keys(tail)[j - 1] == r[j].0;
        assert r[j].0 in Keys(tail);
      }
    } else if rec != [] {
      assert forall j :: 0 < j < |rec| ==> Put(rec, k, v)[j] == rec[j];
    }
  }

  /** `const [name, value] = cookie.trim().split('=')` and `if (name && value)`: the name and raw value kept, if any. */
  function Entry(piece: string): Option<(string, string)> {
    var parts := Split(Trim(piece), "=");
    if |parts| >= 2 && parts[0] != "" && parts[1] != "" then Some((parts[0], parts[1])) else None
  }

  /** The record after the `forEach` has handled the first pieces. */
  function Collect(pieces: seq<string>, decode: string -> string): Record
    decreases |pieces|
  {
    if pieces == [] then []
    else
      var rec := Collect(pieces[..|pieces| - 1], decode);
      match Entry(pieces[|pieces| - 1])
      case None => rec
      case Some(e) => Put(rec, e.0, decode(e.1))
  }

  /** `getAllCookies()` on the string `document.cookie` holds. */
  function AllCookies(cookie: string, decode: string -> string): Record {
    if cookie == "" then [] else Collect(Split(cookie, ";"), decode)
  }

  /** The raw value of the last piece that names `k` with a non-empty value. */
  function LastRaw(pieces: seq<string>, k: string): Option<string>
    decreases |pieces|
  {
    if pieces == [] then None
    else
      var e := Entry(pieces[|pieces| - 1]);
      if e.Some? && e.value.0 == k then Some(e.value.1) else LastRaw(pieces[..|pieces| - 1], k)
  }

  /**
   * The record lists each name once, and maps it to the decoded value of the
   * LAST piece naming it: a later duplicate overwrites an earlier one.
   */
  lemma {:induction false} CollectSpec(pieces: seq<string>, decode: string -> string)
    ensures DistinctKeys(Collect(pieces, decode))
    ensures forall k :: (Lookup(Collect(pieces, decode), k) ==
      if LastRaw(pieces, k).Some? then Some(decode(LastRaw(pieces, k).value)) else None)
    decreases |pieces|
  {
    if pieces != [] {
      var init := pieces[..|pieces| - 1];
      CollectSpec(init, decode);
      var e := Entry(pieces[|pieces| - 1]);
      if e.Some? {
        PutDistinct(Collect(init, decode), e.value.0, decode(e.value.1));
      }
    }
  }

  /** Splitting on a character at its first occurrence. */
  lemma SplitAtChar(s: string, c: char, i: nat)
    requires i < |s| && s[i] == c && forall j :: 0 <= j < i ==> s[j] != c
    ensures Split(s, [c]) == [s[..i]] + Split(s[i + 1..], [c])
  {
    IndexOfCharAt(s, c, i);
  }

  /** Splitting on a character that does not occur. */
  lemma SplitNoChar(s: string, c: char)
    requires c !in s
    ensures Split(s, [c]) == [s]
  {
    IndexOfCharNone(s, c);
  }

  /** A field free of `c`, then `c`, then the rest: the field is the first piece. */
  lemma SplitAfterField(field: string, c: char, tail: string)
    requires c !in field
    ensures Split(field + [c] + tail, [c]) == [field] + Split(tail, [c])
  {
    var s := field + [c] + tail;
    assert s[..|field|] == field && s[|field| + 1..] == tail;
    SplitAtChar(s, c, |field|);
  }

  /** Splitting `name=value=rest` on `=`, when `name` and `value` hold no `=`. */
  lemma SplitTwoFields(name: string, value: string, rest: string)
    requires '=' !in name && '=' !in value
    ensures Split(name + "=" + value + "=" + rest, "=") == [name] + ([value] + Split(rest, "="))
  {
    var tail := value + "=" + rest;
    assert name + "=" + value + "=" + rest == name + "=" + tail;
    SplitAfterField(name, '=', tail);
    SplitAfterField(value, '=', rest);
  }

  /** A piece `name=value=rest` (without whitespace, `name` and `value` non-empty and free of `=`) contributes `name` with `value` alone. */
  lemma EntryCutsAtSecondEquals(name: string, value: string, rest: string)
    requires name != "" && value != ""
    requires '=' !in name && '=' !in value
    requires NoWhitespace(name + "=" + value + "=" + rest)
    ensures Entry(name + "=" + value + "=" + rest) == Some((name, value))
  {
    SplitTwoFields(name, value, rest);
    var s := name + "=" + value + "=" + rest;
    assert Trim(s) == s;
    var parts := Split(s, "=");
    assert |parts| >= 2 && parts[0] == name && parts[1] == value;
  }

  /** The same without a third part: `name=value`. */
  lemma EntryOfPair(name: string, value: string)
    requires name != "" && value != ""
    requires '=' !in name && '=' !in value
    requires NoWhitespace(name + "=" + value)
    ensures Entry(name + "=" + value) == Some((name, value))
  {
    var s := name + "=" + value;
    assert Trim(s) == s;
    assert Split(s, "=") == [name] + [value] by {
      assert s[|name|] == '=' && s[..|name|] == name && s[|name| + 1..] == value;
      SplitAtChar(s, '=', |name|);
      SplitNoChar(value, '=');
    }
  }

  /** A piece without `=`, or with nothing after it, contributes nothing. */
  lemma EntryNeedsValue(name: string)
    requires '=' !in name && NoWhitespace(name + "=")
    ensures Entry(name) == None
    ensures Entry(name + "=") == None
  {
    var a := name + "=";
    assert NoWhitespace(name) by {
      forall i | 0 <= i < |name| ensures !IsWhitespace(name[i]) { assert name[i] == a[i]; }
    }
    SplitNoChar(name, '=');
    assert a[|name|] == '=' && a[..|name|] == name && a[|name| + 1..] == "";
    SplitAtChar(a, '=', |name|);
  }

  /** A piece with nothing before its first `=` contributes nothing. */
  lemma EntryNeedsName(value: string)
    requires NoWhitespace("=" + value)
    ensures Entry("=" + value) == None
  {
    var c := "=" + value;
    assert c[0] == '=' && c[..0] == "";
    SplitAtChar(c, '=', 0);
  }

  /** `getAllCookies()`: `{}` without a document or cookies, else every piece's pair put in turn. */
  method GetAllCookies(doc: Document?, decode: string -> string) returns (cookies: Record)
    ensures cookies == if doc == null then [] else AllCookies(doc.cookie, decode)
  {
    if doc == null {
      return [];
    }
    cookies := [];
    if doc.cookie != "" {
      var pieces := Split(doc.cookie, ";");
      for i := 0 to |pieces|
        invariant cookies == Collect(pieces[..i], decode)
      {
        assert pieces[..i + 1][..i] == pieces[..i];
        var e := Entry(pieces[i]);
        if e.Some? {
          cookies := Put(cookies, e.value.0, decode(e.value.1));
        }
      }
      assert pieces[..|pieces|] == pieces;
    }
  }

  /** The removal strings for `names`, in order, with the default path and no domain. */
  function RemovalStrings(names: seq<string>, b: Browser): (r: seq<string>)
    ensures |r| == |names|
  {
    if names == [] then [] else [RemovalString(names[0], None, None, b)] + RemovalStrings(names[1..], b)
  }

  /** The `i`-th removal string removes the `i`-th name. */
  lemma {:induction false} RemovalStringsAt(names: seq<string>, b: Browser)
    ensures forall i :: 0 <= i < |names| ==> RemovalStrings(names, b)[i] == RemovalString(names[i], None, None, b)
    decreases |names|
  {
    if names != [] {
      RemovalStringsAt(names[1..], b);
    }
  }

  /** What reading `document.cookie` returns after each of `written` is written in turn. */
  function StoreAll(jar: string, written: seq<string>, store: (string, string) -> string): string
    decreases |written|
  {
    if written == [] then jar else StoreAll(store(jar, written[0]), written[1..], store)
  }

  lemma {:induction false} StoreAllSnoc(jar: string, written: seq<string>, x: string, store: (string, string) -> string)
    ensures StoreAll(jar, written + [x], store) == store(StoreAll(jar, written, store), x)
    decreases |written|
  {
    if written != [] {
      assert (written + [x])[1..] == written[1..] + [x];
      StoreAllSnoc(store(jar, written[0]), written[1..], x, store);
    }
  }

  lemma AppendAssoc(a: seq<string>, b: seq<string>, c: seq<string>)
    ensures a + b + c == a + (b + c)
  {
  }

  /** The removal strings `clearAllCookies` assigns when `document.cookie` holds `cookie`. */
  function ClearStrings(cookie: string, b: Browser): seq<string> {
    RemovalStrings(Keys(AllCookies(cookie, b.decode)), b)
  }

  /**
   * `clearAllCookies()`: a `removeCookie(name)` for every name of
   * `getAllCookies()`, in key order; the names are read once, before the
   * first removal.
   */
  method ClearAllCookies(doc: Document?, b: Browser)
    modifies doc
    ensures doc != null ==>
      doc.written == old(doc.written) + ClearStrings(old(doc.cookie), b)
      && doc.cookie == StoreAll(old(doc.cookie), ClearStrings(old(doc.cookie), b), b.store)
  {
    var cookies := GetAllCookies(doc, b.decode);
    if doc == null {
      return;
    }
    RemoveAll(doc, Keys(cookies), b);
  }

  /** The `forEach` of `clearAllCookies`: `removeCookie(name)` for each name in turn. */
  method RemoveAll(doc: Document, names: seq<string>, b: Browser)
    modifies doc
    ensures doc.written == old(doc.written) + RemovalStrings(names, b)
    ensures doc.cookie == StoreAll(old(doc.cookie), RemovalStrings(names, b), b.store)
  {
    ghost var jar := doc.cookie;
    ghost var log := doc.written;
    for i := 0 to |names|
      invariant doc.written == log + RemovalStrings(names[..i], b)
      invariant doc.cookie == StoreAll(jar, RemovalStrings(names[..i], b), b.store)
    {
      RemoveCookie(doc, names[i], None, None, b);
      RemoveStep(log, jar, names, i, b);
    }
    assert names[..|names|] == names;
  }

  /** One turn of the removal loop: the log and the store each take the next removal string. */
  lemma RemoveStep(log: seq<string>, jar: string, names: seq<string>, i: nat, b: Browser)
    requires i < |names|
    ensures log + RemovalStrings(names[..i], b) + [RemovalString(names[i], None, None, b)]
      == log + RemovalStrings(names[..i + 1], b)
    ensures b.store(StoreAll(jar, RemovalStrings(names[..i], b), b.store), RemovalString(names[i], None, None, b))
      == StoreAll(jar, RemovalStrings(names[..i + 1], b), b.store)
  {
    RemovalStringsStep(names, i, b);
    SnocStep(log, jar, RemovalStrings(names[..i], b), RemovalString(names[i], None, None, b),
      RemovalStrings(names[..i + 1], b), b.store);
  }

  lemma RemovalStringsStep(names: seq<string>, i: nat, b: Browser)
    requires i < |names|
    ensures RemovalStrings(names[..i + 1], b) == RemovalStrings(names[..i], b) + [RemovalString(names[i], None, None, b)]
  {
    assert names[..i + 1] == names[..i] + [names[i]];
    RemovalStringsSnoc(names[..i], names[i], b);
  }

  /** Appending `r` to what was written extends the log and the store by `r`. */
  lemma SnocStep(log: seq<string>, jar: string, done: seq<string>, r: string, next: seq<string>, store: (string, string) -> string)
    requires next == done + [r]
    ensures log + done + [r] == log + next
    ensures store(StoreAll(jar, done, store), r) == StoreAll(jar, next, store)
  {
    AppendAssoc(log, done, [r]);
    StoreAllSnoc(jar, done, r, store);
  }

  lemma {:induction false} RemovalStringsSnoc(names: seq<string>, x: string, b: Browser)
    ensures RemovalStrings(names + [x], b) == RemovalStrings(names, b) + [RemovalString(x, None, None, b)]
    decreases |names|
  {
    if names != [] {
      assert (names + [x])[1..] == names[1..] + [x];
      RemovalStringsSnoc(names[1..], x, b);
    }
  }

}
