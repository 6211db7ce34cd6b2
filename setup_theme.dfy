/**
 * The inline script that runs before the first paint and puts the `dark`
 * class on `<html>`: a `theme` cookie of `dark` or `light` decides, anything
 * else defers to the system colour-scheme preference, and an error while
 * decoding the cookie leaves the page as it was.
 */
module SetupTheme {
  import opened Js

  /** `document.documentElement`: the only state the script changes is its class list. */
  class Root {
    var classes: set<string>

    constructor(classes: set<string>)
      ensures this.classes == classes
    {
      this.classes := classes;
    }
  }

  /** `decodeURIComponent`; `None` stands for the `URIError` it throws on a malformed escape. */
  type Decoder = string -> Option<string>

  /** `document.cookie ? document.cookie.split('; ') : []`. */
  function CookiePairs(cookie: string): (pairs: seq<string>)
    ensures cookie == "" <==> pairs == []
    ensures Join(pairs, "; ") == cookie
  {
    if cookie == "" then []
    else
      JoinSplit(cookie, "; ");
      Split(cookie, "; ")
  }

  /** What the search for the theme cookie ends with. */
  datatype Scan = Found(theme: string) | Missing | Failed

  /** The cookie name of a pair: the decoded text before its first `=`. */
  function PairName(pair: string, decode: Decoder): Option<string> {
    decode(Split(pair, "=")[0])
  }

  /** The raw value of a pair: every piece after the first, joined back with `=`. */
  function PairValue(pair: string): string {
    Join(Split(pair, "=")[1..], "=")
  }

  /** A pair the search passes over: its name decodes, and is not `theme`. */
  predicate Skips(pair: string, decode: Decoder) {
    PairName(pair, decode).Some? && PairName(pair, decode).value != "theme"
  }

  /**
   * The loop over the pairs: the first pair named `theme` ends it with its
   * decoded value; a name or that value failing to decode throws.
   */
  function ScanFrom(pairs: seq<string>, decode: Decoder): Scan
  {
    if pairs == [] then Missing
    else
      match PairName(pairs[0], decode)
      case None => Failed
      case Some(name) =>
        if name == "theme" then
          match decode(PairValue(pairs[0]))
          case None => Failed
          case Some(t) => Found(t)
        else ScanFrom(pairs[1..], decode)
  }

  /** `window.matchMedia && window.matchMedia('(prefers-color-scheme: dark)').matches`; `None` when there is no `matchMedia`. */
  predicate PrefersDark(media: Option<bool>) {
    media == Some(true)
  }

  /** The class list the script leaves behind. */
  function ThemeClasses(classes: set<string>, cookie: string, decode: Decoder, media: Option<bool>): (r: set<string>)
    ensures ScanFrom(CookiePairs(cookie), decode) == Failed ==> r == classes
    ensures ScanFrom(CookiePairs(cookie), decode) != Failed ==>
      ("dark" in r <==>
        ScanFrom(CookiePairs(cookie), decode) == Found("dark")
        || (ScanFrom(CookiePairs(cookie), decode) != Found("light") && PrefersDark(media)))
    ensures forall c :: c != "dark" ==> (c in r <==> c in classes)
  {
    match ScanFrom(CookiePairs(cookie), decode)
    case Failed => classes
    case Found(t) =>
      if t == "dark" then classes + {"dark"}
      else if t == "light" then classes - {"dark"}
      else SystemClasses(classes, media)
    case Missing => SystemClasses(classes, media)
  }

  /** The fallback: follow the system preference. */
  function SystemClasses(classes: set<string>, media: Option<bool>): set<string> {
    if PrefersDark(media) then classes + {"dark"} else classes - {"dark"}
  }

  /** The script itself, with the `try`/`catch` that swallows a decoding error. */
  method SetupTheme(root: Root, cookie: string, decode: Decoder, media: Option<bool>)
    modifies root
    ensures root.classes == ThemeClasses(old(root.classes), cookie, decode, media)
  {
    var cookies := if cookie != "" then Split(cookie, "; ") else [];
    var theme: Option<string> := None;
    var i := 0;
    while i < |cookies|
      invariant 0 <= i <= |cookies|
      invariant ScanFrom(cookies, decode) == ScanFrom(cookies[i..], decode)
    {
      assert cookies[i..][1..] == cookies[i + 1..];
      var parts := Split(cookies[i], "=");
      var name := decode(parts[0]);
      if name.None? {
        return;
      }
      if name.value == "theme" {
        var value := decode(Join(parts[1..], "="));
        if value.None? {
          return;
        }
        theme := value;
        break;
      }
      i := i + 1;
    }
    assert theme.Some? ==> ScanFrom(cookies, decode) == Found(theme.value);
    assert theme.None? ==> ScanFrom(cookies, decode) == Missing;

    if theme == Some("dark") || theme == Some("light") {
      if theme == Some("dark") {
        root.classes := root.classes + {"dark"};
      } else {
        root.classes := root.classes - {"dark"};
      }
    } else {
      var prefersDark := media.Some? && media.value;
      if prefersDark {
        root.classes := root.classes + {"dark"};
      } else {
        root.classes := root.classes - {"dark"};
      }
    }
  }

  /** Without cookies the class follows the system preference alone. */
  lemma NoCookieFollowsSystem(classes: set<string>, decode: Decoder, media: Option<bool>)
    ensures "dark" in ThemeClasses(classes, "", decode, media) <==> PrefersDark(media)
  {
  }

  /** The search passes over pairs that are not named `theme`. */
  lemma {:induction false} ScanSkipsPrefix(pre: seq<string>, post: seq<string>, decode: Decoder)
    requires forall k :: 0 <= k < |pre| ==> Skips(pre[k], decode)
    ensures ScanFrom(pre + post, decode) == ScanFrom(post, decode)
    decreases |pre|
  {
    if pre == [] {
      assert pre + post == post;
    } else {
      assert (pre + post)[0] == pre[0];
      assert (pre + post)[1..] == pre[1..] + post;
      ScanSkipsPrefix(pre[1..], post, decode);
    }
  }

  /** The search finds nothing exactly when every pair is passed over. */
  lemma {:induction false} ScanMissing(pairs: seq<string>, decode: Decoder)
    ensures ScanFrom(pairs, decode) == Missing <==> forall k :: 0 <= k < |pairs| ==> Skips(pairs[k], decode)
    decreases |pairs|
  {
    if pairs != [] {
      ScanMissing(pairs[1..], decode);
      if Skips(pairs[0], decode) {
        forall k | 0 < k < |pairs| ensures pairs[k] == pairs[1..][k - 1] {}
      }
    }
  }

  /** A pair `name=value` whose name holds no `=` has `value` as its raw value, `=` signs included. */
  lemma PairFields(name: string, value: string)
    requires '=' !in name
    ensures Split(name + "=" + value, "=")[0] == name
    ensures PairValue(name + "=" + value) == value
  {
    var s := name + "=" + value;
    assert s[|name|] == '=' && s[..|name|] == name && s[|name| + 1..] == value;
    IndexOfCharAt(s, '=', |name|);
    assert Split(s, "=") == [name] + Split(value, "=");
    assert Split(s, "=")[1..] == Split(value, "=");
    JoinSplit(value, "=");
  }

  /**
   * The first cookie named `theme` wins: after pairs that are passed over,
   * `name=value` with `name` decoding to `theme` ends the search with the
   * decoded `value`, whatever follows it.
   */
  lemma FirstThemeCookieWins(pre: seq<string>, name: string, value: string, post: seq<string>, decode: Decoder)
    requires forall k :: 0 <= k < |pre| ==> Skips(pre[k], decode)
    requires '=' !in name && decode(name) == Some("theme")
    ensures ScanFrom(pre + [name + "=" + value] + post, decode) ==
      if decode(value).Some? then Found(decode(value).value) else Failed
  {
    assert pre + [name + "=" + value] + post == pre + ([name + "=" + value] + post);
    ScanSkipsPrefix(pre, [name + "=" + value] + post, decode);
    PairFields(name, value);
  }

  /** A name that fails to decode before any theme cookie leaves the class list untouched. */
  lemma MalformedNameLeavesClasses(classes: set<string>, cookie: string, k: nat, decode: Decoder, media: Option<bool>)
    requires k < |CookiePairs(cookie)|
    requires forall j :: 0 <= j < k ==> Skips(CookiePairs(cookie)[j], decode)
    requires PairName(CookiePairs(cookie)[k], decode).None?
    ensures ThemeClasses(classes, cookie, decode, media) == classes
  {
    var pairs := CookiePairs(cookie);
    assert pairs == pairs[..k] + pairs[k..];
    ScanSkipsPrefix(pairs[..k], pairs[k..], decode);
  }
}
