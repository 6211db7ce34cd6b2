/**
 * `extractDescription`: a short description taken from the cleaned text of
 * a post. The script of the text decides between the CJK sentence rules and
 * the Latin ones; each gathers whole sentences greedily up to a length cap
 * and falls back to a truncation when no sentence fits.
 *
 * Lengths count `char`s, one per UTF-16 code unit. The fractional thresholds
 * of the source (0.3, 0.6, 0.7, 0.8 of a length) are restated as exact
 * integer inequalities.
 */
module Description {
  import opened Js

  const DefaultMaxLength := 160

  // ---- Script detection ----

  /** CJK Unified Ideographs, U+4E00 to U+9FFF. */
  predicate IsHan(c: char) {
    '\U{4E00}' <= c <= '\U{9FFF}'
  }

  /** Hiragana (U+3040 to U+309F) and Katakana (U+30A0 to U+30FF). */
  predicate IsKana(c: char) {
    ('\U{3040}' <= c <= '\U{309F}') || ('\U{30A0}' <= c <= '\U{30FF}')
  }

  /** Hangul syllables, U+AC00 to U+D7AF. */
  predicate IsHangul(c: char) {
    '\U{AC00}' <= c <= '\U{D7AF}'
  }

  /** The character class the CJK share is counted with: the three scripts together. */
  predicate IsCJKChar(c: char) {
    ('\U{4E00}' <= c <= '\U{9FFF}') || ('\U{3040}' <= c <= '\U{309F}')
    || ('\U{30A0}' <= c <= '\U{30FF}') || ('\U{AC00}' <= c <= '\U{D7AF}')
  }

  /** `(text.match(/[class]/g) || []).length`: the number of characters in the class. */
  function CountOf(s: string, p: char -> bool): (n: nat)
    ensures n <= |s|
    ensures (forall i :: 0 <= i < |s| ==> !p(s[i])) ==> n == 0
  {
    if s == [] then 0 else (if p(s[0]) then 1 else 0) + CountOf(s[1..], p)
  }

  /** The CJK count is the Han, kana and Hangul counts added up: the three ranges are disjoint. */
  lemma {:induction false} CountPartition(s: string)
    ensures CountOf(s, IsCJKChar) == CountOf(s, IsHan) + CountOf(s, IsKana) + CountOf(s, IsHangul)
  {
    if s != [] {
      CountPartition(s[1..]);
    }
  }

  /**
   * `detectLanguage(text)`: `en` unless CJK characters make up more than 30%
   * of the text; then `ja` when kana is strictly the most frequent of the
   * three scripts, `ko` when Hangul is, and `zh` otherwise. An empty text
   * compares NaN with 0.3 and so reads as `en`.
   */
  function DetectLanguage(text: string): (r: string)
    ensures r == "en" || r == "zh" || r == "ja" || r == "ko"
  {
    var cjk := CountOf(text, IsCJKChar);
    if 10 * cjk > 3 * |text| then
      var han := CountOf(text, IsHan);
      var kana := CountOf(text, IsKana);
      var hangul := CountOf(text, IsHangul);
      if kana > han && kana > hangul then "ja"
      else if hangul > han && hangul > kana then "ko"
      else "zh"
    else "en"
  }

  /** The locales that take the CJK rules. */
  const CJKLocales: seq<string> := ["zh", "ja", "ko", "zh-CN", "zh-TW", "ja-JP", "ko-KR"]

  /** `isCJK(locale)`: membership in the seven listed codes, compared exactly. */
  predicate IsCJK(locale: string) {
    locale in CJKLocales
  }

  /** The detected language takes the CJK rules exactly when CJK characters exceed 30% of the text. */
  lemma DetectedIsCJK(text: string)
    ensures IsCJK(DetectLanguage(text)) <==> 10 * CountOf(text, IsCJKChar) > 3 * |text|
  {
    DetectedNotEnglish(text);
    DetectedCodes(DetectLanguage(text));
  }

  /** Any code but `en` is detected exactly when CJK characters exceed 30% of the text. */
  lemma DetectedNotEnglish(text: string)
    ensures DetectLanguage(text) != "en" <==> 10 * CountOf(text, IsCJKChar) > 3 * |text|
  {
  }

  /** Of the four codes detection gives, all but `en` are in the CJK list. */
  lemma DetectedCodes(r: string)
    requires r == "en" || r == "zh" || r == "ja" || r == "ko"
    ensures IsCJK(r) <==> r != "en"
  {
    IsCJKExamples();
  }

  /**
   * `ja` (or `ko`) is detected only when kana (or Hangul) alone makes up
   * more than a tenth of the text: it beats both other scripts, so it holds
   * more than a third of a CJK share that is above 30%.
   */
  lemma DetectedScriptShare(text: string)
    ensures DetectLanguage(text) == "ja" ==> 10 * CountOf(text, IsKana) > |text|
    ensures DetectLanguage(text) == "ko" ==> 10 * CountOf(text, IsHangul) > |text|
  {
    var kana := CountOf(text, IsKana);
    var hangul := CountOf(text, IsHangul);
    var han := CountOf(text, IsHan);
    var cjk := CountOf(text, IsCJKChar);
    CountPartition(text);
    assert cjk == han + kana + hangul;
    if DetectLanguage(text) == "ja" {
      assert 10 * cjk > 3 * |text| && kana > han && kana > hangul;
    }
    if DetectLanguage(text) == "ko" {
      assert 10 * cjk > 3 * |text| && hangul > han && hangul > kana;
    }
  }

  /** Only codes in the list count: a regional code outside it, like `zh-HK`, takes the Latin rules. */
  lemma IsCJKExamples()
    ensures IsCJK("zh") && IsCJK("ja") && IsCJK("ko") && IsCJK("ja-JP") && IsCJK("ko-KR")
    ensures !IsCJK("zh-HK") && !IsCJK("en") && !IsCJK("")
  {
  }

  // ---- Splitting into sentences ----

  /** No character of `s` is in the class. */
  predicate Free(s: string, p: char -> bool) {
    forall i :: 0 <= i < |s| ==> !p(s[i])
  }

  /** `text.split(/[class]/)` for a class of single characters: the pieces between the matching characters. */
  function SplitWhere(s: string, p: char -> bool): (parts: seq<string>)
    ensures |parts| == CountOf(s, p) + 1
    ensures forall k :: 0 <= k < |parts| ==> Free(parts[k], p)
  {
    if s == [] then [""]
    else
      var rest := SplitWhere(s[1..], p);
      if p(s[0]) then [""] + rest
      else
        var first := [s[0]] + rest[0];
        assert Free(first, p) by {
          forall i | 0 < i < |first| ensures !p(first[i]) {
            assert first[i] == rest[0][i - 1];
          }
        }
        [first] + rest[1..]
  }

  /** The CJK sentence terminators `。！？．` (the class lists `！？` twice). */
  predicate IsCJKEnder(c: char) {
    c == '\U{3002}' || c == '\U{FF01}' || c == '\U{FF1F}' || c == '\U{FF0E}'
  }

  /** `text.split(/[。！？．！？]/)`: the pieces hold no terminator. */
  function CJKSentences(text: string): (ss: seq<string>)
    ensures forall k :: 0 <= k < |ss| ==> Free(ss[k], IsCJKEnder)
  {
    SplitWhere(text, IsCJKEnder)
  }

  /** The Latin sentence terminators `.!?`. */
  predicate IsLatinEnder(c: char) {
    c == '.' || c == '!' || c == '?'
  }

  /** The end of the run of class characters that starts at `i`. */
  function RunEnd(s: string, i: nat, p: char -> bool): (r: nat)
    requires i <= |s|
    ensures i <= r <= |s|
    ensures forall k :: i <= k < r ==> p(s[k])
    ensures r == |s| || !p(s[r])
    decreases |s| - i
  {
    if i < |s| && p(s[i]) then RunEnd(s, i + 1, p) else i
  }

  /**
   * Where a match of `/[.!?]+\s+/` that starts at `i` ends: the greedy run of
   * terminators, then the greedy run of whitespace, which must not be empty
   * (giving back terminators cannot help, as whitespace has to follow).
   */
  function SentenceBreak(s: string, i: nat): (r: Option<nat>)
    requires i <= |s|
    ensures r.Some? ==> i < r.value <= |s|
  {
    if i < |s| && IsLatinEnder(s[i]) then
      var j := RunEnd(s, i, IsLatinEnder);
      var k := RunEnd(s, j, IsWhitespace);
      if k > j then Some(k) else None
    else None
  }

  /** The split scan: the piece begun at `start`, continued from `i`, each piece ending at the leftmost match. */
  function LatinSplitFrom(s: string, start: nat, i: nat): (parts: seq<string>)
    requires start <= i <= |s|
    ensures |parts| >= 1
    decreases |s| - i
  {
    if i == |s| then [s[start..]]
    else match SentenceBreak(s, i)
      case Some(k) => [s[start..i]] + LatinSplitFrom(s, k, k)
      case None => LatinSplitFrom(s, start, i + 1)
  }

  /** `text.split(/[.!?]+\s+/)`. */
  function LatinSentences(text: string): seq<string> {
    LatinSplitFrom(text, 0, 0)
  }

  /** Text in which no terminator is followed by whitespace is one sentence. */
  lemma {:induction false} LatinSplitNoBreak(s: string, start: nat, i: nat)
    requires start <= i <= |s|
    requires forall j :: i <= j <= |s| ==> SentenceBreak(s, j).None?
    ensures LatinSplitFrom(s, start, i) == [s[start..]]
    decreases |s| - i
  {
    if i < |s| {
      LatinSplitNoBreak(s, start, i + 1);
    }
  }

  /** A whole text without a sentence break splits into itself. */
  lemma LatinSentencesSingle(text: string)
    requires forall j :: 0 <= j <= |text| ==> SentenceBreak(text, j).None?
    ensures LatinSentences(text) == [text]
  {
    LatinSplitNoBreak(text, 0, 0);
  }

  /** The sentences the loops keep: each piece trimmed, the empty ones skipped. */
  function Kept(ss: seq<string>): (ks: seq<string>)
    ensures |ks| <= |ss|
    ensures forall k :: 0 <= k < |ks| ==> ks[k] != ""
  {
    if ss == [] then []
    else
      var t := Trim(ss[0]);
      (if t == "" then [] else [t]) + Kept(ss[1..])
  }

  /** Reading one more piece either skips it, when it trims to nothing, or keeps it trimmed as the next sentence. */
  lemma KeptStep(ss: seq<string>, ks: seq<string>, j: nat)
    requires ss != [] && j <= |ks| && ks[j..] == Kept(ss)
    ensures Trim(ss[0]) == "" ==> ks[j..] == Kept(ss[1..])
    ensures Trim(ss[0]) != "" ==> j < |ks| && ks[j] == Trim(ss[0]) && ks[j + 1..] == Kept(ss[1..])
  {
    var t := Trim(ss[0]);
    if t != "" {
      assert Kept(ss) == [t] + Kept(ss[1..]);
      assert ks[j] == Kept(ss)[0];
      assert ks[j + 1..] == Kept(ss)[1..];
    }
  }

  /** Trimming keeps pieces free of a class they were free of. */
  lemma {:induction false} KeptFree(ss: seq<string>, p: char -> bool)
    requires forall k :: 0 <= k < |ss| ==> Free(ss[k], p)
    ensures forall k :: 0 <= k < |Kept(ss)| ==> Free(Kept(ss)[k], p)
  {
    if ss != [] {
      KeptFree(ss[1..], p);
      var t := Trim(ss[0]);
      TrimChars(ss[0]);
      assert Free(t, p) by {
        forall i | 0 <= i < |t| ensures !p(t[i]) {
          var c := t[i];
          assert c in ss[0];
          var j :| 0 <= j < |ss[0]| && ss[0][j] == c;
        }
      }
      var ks := (if t == "" then [] else [t]) + Kept(ss[1..]);
      forall k | 0 <= k < |ks| ensures Free(ks[k], p) {
        if t != "" && k > 0 {
          assert ks[k] == Kept(ss[1..])[k - 1];
        }
      }
    }
  }

  // ---- The CJK rules ----

  /** `description.length >= Math.min(50, maxLength * 0.6)`. */
  predicate CJKStop(len: int, maxLength: int) {
    len >= 50 || 10 * len >= 6 * maxLength
  }

  /** One turn of the CJK loop after the sentence is known to be non-empty: append it, and `。` unless it already ends a sentence. */
  function CJKAppend(description: string, trimmed: string): string
    requires trimmed != ""
  {
    var newDescription := description + trimmed;
    if !IsCJKEnder(trimmed[|trimmed| - 1]) then newDescription + "\U{3002}" else newDescription
  }

  /** What the CJK loop leaves in `description` when it has the sentences `ss` still to read. */
  function CJKAccumulate(ss: seq<string>, description: string, maxLength: int): string {
    if ss == [] then description
    else
      var trimmed := Trim(ss[0]);
      if trimmed == "" then CJKAccumulate(ss[1..], description, maxLength)
      else
        var finalDescription := CJKAppend(description, trimmed);
        if |finalDescription| > maxLength then description
        else if CJKStop(|finalDescription|, maxLength) then finalDescription
        else CJKAccumulate(ss[1..], finalDescription, maxLength)
  }

  /** The first `n` kept sentences, each followed by `。`. */
  function GlueCJK(ks: seq<string>, n: nat): string
    requires n <= |ks|
  {
    if n == 0 then "" else GlueCJK(ks, n - 1) + ks[n - 1] + "\U{3002}"
  }

  /** Runs only grow: a shorter run is never longer. */
  lemma {:induction false} GlueCJKGrows(ks: seq<string>, k: nat, n: nat)
    requires k <= n <= |ks|
    ensures |GlueCJK(ks, k)| <= |GlueCJK(ks, n)|
    decreases n
  {
    if k < n {
      GlueCJKGrows(ks, k, n - 1);
    }
  }

  /**
   * Taking the first `n` of the kept sentences `ks` is the greedy choice:
   * the run fits in `maxLength`, the run before it had not reached the stop
   * length, and it ends because the sentences ran out, the next one would
   * not fit, or the stop length is reached.
   */
  predicate CJKGreedy(ks: seq<string>, n: nat, maxLength: int) {
    && n <= |ks|
    && (n > 1 ==> !CJKStop(|GlueCJK(ks, n - 1)|, maxLength))
    && (n > 0 ==> |GlueCJK(ks, n)| <= maxLength)
    && (n < |ks| ==> |GlueCJK(ks, n + 1)| > maxLength || (n > 0 && CJKStop(|GlueCJK(ks, n)|, maxLength)))
  }

  /** In a greedy run every shorter run fits and stays below the stop length. */
  lemma CJKGreedyEarlier(ks: seq<string>, n: nat, maxLength: int)
    requires CJKGreedy(ks, n, maxLength)
    ensures forall k :: 0 < k < n ==> |GlueCJK(ks, k)| <= maxLength && !CJKStop(|GlueCJK(ks, k)|, maxLength)
  {
    forall k | 0 < k < n ensures |GlueCJK(ks, k)| <= maxLength && !CJKStop(|GlueCJK(ks, k)|, maxLength) {
      GlueCJKGrows(ks, k, n - 1);
      GlueCJKGrows(ks, k, n);
    }
  }

  lemma {:induction false} CJKGreedyFrom(ss: seq<string>, ks: seq<string>, j: nat, maxLength: int) returns (n: nat)
    requires j <= |ks| && ks[j..] == Kept(ss)
    requires forall k :: 0 <= k < |ks| ==> Unterminated(ks[k])
    requires j > 0 ==> |GlueCJK(ks, j)| <= maxLength && !CJKStop(|GlueCJK(ks, j)|, maxLength)
    requires j > 1 ==> !CJKStop(|GlueCJK(ks, j - 1)|, maxLength)
    ensures j <= n <= |ks| && CJKGreedy(ks, n, maxLength)
    ensures CJKAccumulate(ss, GlueCJK(ks, j), maxLength) == GlueCJK(ks, n)
    decreases |ss|, 1
  {
    if ss == [] {
      assert j == |ks|;
      n := j;
      CJKGreedyStop(ks, j, maxLength);
    } else {
      KeptStep(ss, ks, j);
      if Trim(ss[0]) == "" {
        assert CJKAccumulate(ss, GlueCJK(ks, j), maxLength) == CJKAccumulate(ss[1..], GlueCJK(ks, j), maxLength);
        n := CJKGreedyFrom(ss[1..], ks, j, maxLength);
      } else {
        n := CJKGreedyKept(ss, ks, j, maxLength);
      }
    }
  }

  /** The turn of the greedy proof where the next piece is kept: stop before it, stop after it, or go on. */
  lemma {:induction false} CJKGreedyKept(ss: seq<string>, ks: seq<string>, j: nat, maxLength: int) returns (n: nat)
    requires ss != [] && j < |ks| && ks[j] == Trim(ss[0]) && ks[j + 1..] == Kept(ss[1..])
    requires forall k :: 0 <= k < |ks| ==> Unterminated(ks[k])
    requires j > 0 ==> |GlueCJK(ks, j)| <= maxLength && !CJKStop(|GlueCJK(ks, j)|, maxLength)
    requires j > 1 ==> !CJKStop(|GlueCJK(ks, j - 1)|, maxLength)
    ensures j <= n <= |ks| && CJKGreedy(ks, n, maxLength)
    ensures CJKAccumulate(ss, GlueCJK(ks, j), maxLength) == GlueCJK(ks, n)
    decreases |ss|, 0
  {
    CJKAppendGlue(ks, j);
    var f := GlueCJK(ks, j + 1);
    assert CJKAccumulate(ss, GlueCJK(ks, j), maxLength)
      == if |f| > maxLength then GlueCJK(ks, j)
         else if CJKStop(|f|, maxLength) then f
         else CJKAccumulate(ss[1..], f, maxLength);
    if |f| > maxLength {
      n := j;
      CJKGreedyStop(ks, j, maxLength);
    } else if CJKStop(|f|, maxLength) {
      n := j + 1;
      CJKGreedyStop(ks, j + 1, maxLength);
    } else {
      n := CJKGreedyFrom(ss[1..], ks, j + 1, maxLength);
    }
  }

  /** A run that fits, whose last sentence was added below the stop length, and that cannot or need not grow, is greedy. */
  lemma CJKGreedyStop(ks: seq<string>, n: nat, maxLength: int)
    requires n <= |ks|
    requires n > 1 ==> !CJKStop(|GlueCJK(ks, n - 1)|, maxLength)
    requires n > 0 ==> |GlueCJK(ks, n)| <= maxLength
    requires n < |ks| ==> |GlueCJK(ks, n + 1)| > maxLength || (n > 0 && CJKStop(|GlueCJK(ks, n)|, maxLength))
    ensures CJKGreedy(ks, n, maxLength)
  {
  }

  /** Appending a kept sentence extends the glued run by one. */
  lemma CJKAppendGlue(ks: seq<string>, j: nat)
    requires j < |ks| && Unterminated(ks[j])
    ensures CJKAppend(GlueCJK(ks, j), ks[j]) == GlueCJK(ks, j + 1)
  {
  }

  /** A non-empty sentence that does not end in a CJK terminator. */
  predicate Unterminated(t: string) {
    t != "" && !IsCJKEnder(t[|t| - 1])
  }

  /** The CJK sentence path: the result is the greedy run of kept sentences. */
  lemma CJKSentencePath(text: string, maxLength: int)
    ensures var ss := CJKSentences(text);
      var ks := Kept(ss);
      exists n :: CJKGreedy(ks, n, maxLength) && CJKAccumulate(ss, "", maxLength) == GlueCJK(ks, n)
  {
    var ss := CJKSentences(text);
    var ks := Kept(ss);
    KeptFree(ss, IsCJKEnder);
    forall k | 0 <= k < |ks| ensures Unterminated(ks[k]) {
      assert !IsCJKEnder(ks[k][|ks[k]| - 1]);
    }
    assert ks[0..] == ks;
    assert GlueCJK(ks, 0) == "";
    var n := CJKGreedyFrom(ss, ks, 0, maxLength);
    assert CJKAccumulate(ss, "", maxLength) == GlueCJK(ks, n);
  }

  /** A non-empty sentence-path result fits in `maxLength` and ends in `。`. */
  lemma CJKSentenceBound(text: string, maxLength: int)
    ensures var d := CJKAccumulate(CJKSentences(text), "", maxLength);
      d != "" ==> |d| <= maxLength && d[|d| - 1] == '\U{3002}'
  {
    var ss := CJKSentences(text);
    var ks := Kept(ss);
    CJKSentencePath(text, maxLength);
    var n :| CJKGreedy(ks, n, maxLength) && CJKAccumulate(ss, "", maxLength) == GlueCJK(ks, n);
    GlueCJKEnds(ks, n);
  }

  /** A run of at least one kept sentence ends in `。`. */
  lemma GlueCJKEnds(ks: seq<string>, n: nat)
    requires n <= |ks|
    ensures var g := GlueCJK(ks, n); n > 0 ==> g != "" && g[|g| - 1] == '\U{3002}'
  {
  }

  /** When no sentence is taken: the first `maxLength` characters, with `...` if that cut something off. */
  function CJKFallback(text: string, maxLength: int): string {
    if |text| > 0 then
      var description := SliceTo(text, maxLength);
      if |description| < |text| then description + "..." else description
    else ""
  }

  /** `extractCJKDescription(text, maxLength)`. */
  function CJKDescription(text: string, maxLength: int): string {
    var description := CJKAccumulate(CJKSentences(text), "", maxLength);
    if description == "" then CJKFallback(text, maxLength) else description
  }

  /** The CJK loop over the sentences, with its two early exits. */
  method CJKSentenceLoop(sentences: seq<string>, maxLength: int) returns (description: string)
    ensures description == CJKAccumulate(sentences, "", maxLength)
  {
    description := "";
    for i := 0 to |sentences|
      invariant CJKAccumulate(sentences, "", maxLength) == CJKAccumulate(sentences[i..], description, maxLength)
    {
      assert sentences[i..][1..] == sentences[i + 1..];
      var trimmed := Trim(sentences[i]);
      if trimmed == "" {
        continue;
      }
      var newDescription := description + trimmed;
      var needsPunctuation := !IsCJKEnder(trimmed[|trimmed| - 1]);
      var finalDescription := if needsPunctuation then newDescription + "\U{3002}" else newDescription;
      if |finalDescription| > maxLength {
        return;
      }
      description := finalDescription;
      if CJKStop(|description|, maxLength) {
        return;
      }
    }
  }

  /** `extractCJKDescription`: the sentence loop, then the fallback when it kept nothing. */
  method ExtractCJKDescription(text: string, maxLength: int) returns (description: string)
    ensures description == CJKDescription(text, maxLength)
  {
    description := CJKSentenceLoop(CJKSentences(text), maxLength);
    if description == "" && |text| > 0 {
      description := SliceTo(text, maxLength);
      if |description| < |text| {
        description := description + "...";
      }
    }
  }

  /** The fallback is the whole text when it fits, and otherwise its first `maxLength` characters and `...`. */
  lemma CJKFallbackShape(text: string, maxLength: nat)
    ensures |text| <= maxLength ==> CJKFallback(text, maxLength) == text
    ensures |text| > maxLength ==> CJKFallback(text, maxLength) == text[..maxLength] + "..."
  {
  }

  /** Splitting at the first character of the class gives the piece before it, then the split of what follows. */
  lemma {:induction false} SplitWhereFirst(a: string, c: char, b: string, p: char -> bool)
    requires Free(a, p) && p(c)
    ensures SplitWhere(a + [c] + b, p) == [a] + SplitWhere(b, p)
  {
    var s := a + [c] + b;
    if a == [] {
      assert s[1..] == b;
    } else {
      assert s[1..] == a[1..] + [c] + b;
      assert Free(a[1..], p) by {
        forall i | 0 <= i < |a[1..]| ensures !p(a[1..][i]) {
          assert a[1..][i] == a[i + 1];
        }
      }
      SplitWhereFirst(a[1..], c, b, p);
      var rest := SplitWhere(s[1..], p);
      assert !p(s[0]) && rest == [a[1..]] + SplitWhere(b, p);
      assert [s[0]] + rest[0] == a;
      assert rest[1..] == SplitWhere(b, p);
    }
  }

  /** Text of Han characters and fullwidth commas holds no terminator, and `trim` leaves it alone. */
  lemma HanClause(s: string)
    requires forall i :: 0 <= i < |s| ==> '\U{4E00}' <= s[i] <= '\U{9FFF}' || s[i] == '\U{FF0C}'
    ensures Free(s, IsCJKEnder) && Trim(s) == s
  {
  }

  /** Two pieces, each closed by a character of the class, split into those pieces and the empty one after them. */
  lemma SplitWhereTwo(a: string, b: string, c: char, p: char -> bool)
    requires Free(a, p) && Free(b, p) && p(c)
    ensures SplitWhere(a + [c] + b + [c], p) == [a, b, ""]
  {
    assert a + [c] + b + [c] == a + [c] + (b + [c]);
    SplitWhereFirst(a, c, b + [c], p);
    assert b + [c] == b + [c] + "";
    SplitWhereFirst(b, c, "", p);
  }

  /** A two-sentence CJK text: its first sentence, its second, and the whole with a `。` after each. */
  const FirstClause: string := "这是第一句"
  const SecondClause: string := "这是第二句，比较长一些"
  const TwoSentences: string := FirstClause + "\U{3002}" + SecondClause + "\U{3002}"

  /** The first sentence of the example holds no terminator, and `trim` leaves it alone. */
  lemma CJKExampleFirst()
    ensures Free(FirstClause, IsCJKEnder) && Trim(FirstClause) == FirstClause
  {
    HanClause(FirstClause);
  }

  /** The second sentence of the example holds no terminator, and `trim` leaves it alone. */
  lemma CJKExampleSecond()
    ensures Free(SecondClause, IsCJKEnder) && Trim(SecondClause) == SecondClause
  {
    HanClause(SecondClause);
  }

  /** The example splits into its two sentences and the empty piece after the last `。`. */
  lemma CJKExampleSplit()
    ensures CJKSentences(TwoSentences) == [FirstClause, SecondClause, ""]
  {
    CJKExampleFirst();
    CJKExampleSecond();
    SplitWhereTwo(FirstClause, SecondClause, '\U{3002}', IsCJKEnder);
  }

  /** The first turn: the first sentence and its `。` make 6 characters, short of the stop length 12. */
  lemma CJKExampleTurnOne()
    ensures CJKAppend("", FirstClause) == FirstClause + "\U{3002}"
    ensures |FirstClause + "\U{3002}"| == 6 && !CJKStop(6, 20)
  {
  }

  /** The second turn: with the second sentence and its `。` the text is 18 characters, within 20 and past the stop length 12. */
  lemma CJKExampleTurnTwo()
    ensures CJKAppend(FirstClause + "\U{3002}", SecondClause) == TwoSentences
    ensures |TwoSentences| == 18 && CJKStop(18, 20)
  {
  }

  /**
   * `extractCJKDescription` on the example with `maxLength` 20 keeps both sentences:
   * the stop length `min(50, 12)` is first reached after the second one.
   */
  lemma CJKExampleKeepsBoth()
    ensures CJKDescription(TwoSentences, 20) == TwoSentences
  {
    CJKExampleSplit();
    CJKExampleFirst();
    CJKExampleSecond();
    CJKExampleTurnOne();
    CJKExampleTurnTwo();
    var ss := [FirstClause, SecondClause, ""];
    assert ss[1..] == [SecondClause, ""];
    assert CJKAccumulate(ss[1..], FirstClause + "\U{3002}", 20) == TwoSentences;
  }

  // ---- The Latin rules ----

  /** `description.length >= Math.min(80, maxLength * 0.7)`. */
  predicate LatinStop(len: int, maxLength: int) {
    len >= 80 || 10 * len >= 7 * maxLength
  }

  /** A sentence with `.` added unless it ends in `.`, `!` or `?`. */
  function LatinPunctuated(trimmed: string): (r: string)
    ensures trimmed != "" ==> |r| > 0 && IsLatinEnder(r[|r| - 1])
  {
    if trimmed != "" && !IsLatinEnder(trimmed[|trimmed| - 1]) then trimmed + "." else trimmed
  }

  /** One turn of the Latin loop: the sentence after one space (none at the start), then the punctuation it needs. */
  function LatinAppend(description: string, trimmed: string): string
    requires trimmed != ""
  {
    var newDescription := if description != "" then description + " " + trimmed else trimmed;
    if !IsLatinEnder(trimmed[|trimmed| - 1]) then newDescription + "." else newDescription
  }

  /** What the Latin loop leaves in `description` when it has the sentences `ss` still to read. */
  function LatinAccumulate(ss: seq<string>, description: string, maxLength: int): string {
    if ss == [] then description
    else
      var trimmed := Trim(ss[0]);
      if trimmed == "" then LatinAccumulate(ss[1..], description, maxLength)
      else
        var finalDescription := LatinAppend(description, trimmed);
        if |finalDescription| > maxLength then description
        else if LatinStop(|finalDescription|, maxLength) then finalDescription
        else LatinAccumulate(ss[1..], finalDescription, maxLength)
  }

  /** The first `n` kept sentences, punctuated and separated by single spaces. */
  function GlueLatin(ks: seq<string>, n: nat): string
    requires n <= |ks|
  {
    if n == 0 then ""
    else if n == 1 then LatinPunctuated(ks[0])
    else GlueLatin(ks, n - 1) + " " + LatinPunctuated(ks[n - 1])
  }

  /** Runs only grow: a shorter run is never longer. */
  lemma {:induction false} GlueLatinGrows(ks: seq<string>, k: nat, n: nat)
    requires k <= n <= |ks|
    ensures |GlueLatin(ks, k)| <= |GlueLatin(ks, n)|
    decreases n
  {
    if k < n {
      GlueLatinGrows(ks, k, n - 1);
      if n > 1 {
        assert |GlueLatin(ks, n)| == |GlueLatin(ks, n - 1)| + 1 + |LatinPunctuated(ks[n - 1])|;
      }
    }
  }

  /**
   * Taking the first `n` of the kept sentences `ks` is the greedy choice:
   * the run fits in `maxLength`, the run before it had not reached the stop
   * length, and it ends because the sentences ran out, the next one would
   * not fit, or the stop length is reached.
   */
  predicate LatinGreedy(ks: seq<string>, n: nat, maxLength: int) {
    && n <= |ks|
    && (n > 1 ==> !LatinStop(|GlueLatin(ks, n - 1)|, maxLength))
    && (n > 0 ==> |GlueLatin(ks, n)| <= maxLength)
    && (n < |ks| ==> |GlueLatin(ks, n + 1)| > maxLength || (n > 0 && LatinStop(|GlueLatin(ks, n)|, maxLength)))
  }

  /** In a greedy run every shorter run fits and stays below the stop length. */
  lemma LatinGreedyEarlier(ks: seq<string>, n: nat, maxLength: int)
    requires LatinGreedy(ks, n, maxLength)
    ensures forall k :: 0 < k < n ==> |GlueLatin(ks, k)| <= maxLength && !LatinStop(|GlueLatin(ks, k)|, maxLength)
  {
    if n > 1 {
      var m: nat := n - 1;
      assert |GlueLatin(ks, m + 1)| <= maxLength && !LatinStop(|GlueLatin(ks, m)|, maxLength);
      forall k | 0 < k < n ensures |GlueLatin(ks, k)| <= maxLength && !LatinStop(|GlueLatin(ks, k)|, maxLength) {
        LatinGreedyBefore(ks, m, maxLength, k);
      }
    }
  }

  /** One shorter run of a greedy run of `m + 1` sentences. */
  lemma LatinGreedyBefore(ks: seq<string>, m: nat, maxLength: int, k: nat)
    requires 0 < k <= m < |ks|
    requires |GlueLatin(ks, m + 1)| <= maxLength && !LatinStop(|GlueLatin(ks, m)|, maxLength)
    ensures |GlueLatin(ks, k)| <= maxLength && !LatinStop(|GlueLatin(ks, k)|, maxLength)
  {
    GlueLatinGrows(ks, k, m);
    GlueLatinGrows(ks, m, m + 1);
    StopMonotone(|GlueLatin(ks, k)|, |GlueLatin(ks, m)|, maxLength);
  }

  /** A shorter description has not reached the stop length either. */
  lemma StopMonotone(len: int, longer: int, maxLength: int)
    requires len <= longer && !LatinStop(longer, maxLength)
    ensures !LatinStop(len, maxLength)
  {
  }

  lemma {:induction false} LatinGreedyFrom(ss: seq<string>, ks: seq<string>, j: nat, maxLength: int) returns (n: nat)
    requires j <= |ks| && ks[j..] == Kept(ss)
    requires forall k :: 0 <= k < |ks| ==> ks[k] != ""
    requires j > 0 ==> |GlueLatin(ks, j)| <= maxLength && !LatinStop(|GlueLatin(ks, j)|, maxLength)
    requires j > 1 ==> !LatinStop(|GlueLatin(ks, j - 1)|, maxLength)
    ensures j <= n <= |ks| && LatinGreedy(ks, n, maxLength)
    ensures LatinAccumulate(ss, GlueLatin(ks, j), maxLength) == GlueLatin(ks, n)
    decreases |ss|, 1
  {
    if ss == [] {
      assert j == |ks|;
      n := j;
      LatinGreedyStop(ks, j, maxLength);
    } else {
      KeptStep(ss, ks, j);
      if Trim(ss[0]) == "" {
        assert LatinAccumulate(ss, GlueLatin(ks, j), maxLength) == LatinAccumulate(ss[1..], GlueLatin(ks, j), maxLength);
        n := LatinGreedyFrom(ss[1..], ks, j, maxLength);
      } else {
        n := LatinGreedyKept(ss, ks, j, maxLength);
      }
    }
  }

  /** The turn of the greedy proof where the next piece is kept: stop before it, stop after it, or go on. */
  lemma {:induction false} LatinGreedyKept(ss: seq<string>, ks: seq<string>, j: nat, maxLength: int) returns (n: nat)
    requires ss != [] && j < |ks| && ks[j] == Trim(ss[0]) && ks[j + 1..] == Kept(ss[1..])
    requires forall k :: 0 <= k < |ks| ==> ks[k] != ""
    requires j > 0 ==> |GlueLatin(ks, j)| <= maxLength && !LatinStop(|GlueLatin(ks, j)|, maxLength)
    requires j > 1 ==> !LatinStop(|GlueLatin(ks, j - 1)|, maxLength)
    ensures j <= n <= |ks| && LatinGreedy(ks, n, maxLength)
    ensures LatinAccumulate(ss, GlueLatin(ks, j), maxLength) == GlueLatin(ks, n)
    decreases |ss|, 0
  {
    var f := GlueLatin(ks, j + 1);
    assert LatinAccumulate(ss, GlueLatin(ks, j), maxLength)
      == if |f| > maxLength then GlueLatin(ks, j)
         else if LatinStop(|f|, maxLength) then f
         else LatinAccumulate(ss[1..], f, maxLength)
    by {
      LatinAppendGlue(ks, j);
    }
    if |f| > maxLength {
      n := j;
      LatinGreedyStop(ks, j, maxLength);
    } else if LatinStop(|f|, maxLength) {
      n := j + 1;
      LatinGreedyStop(ks, j + 1, maxLength);
    } else {
      n := LatinGreedyFrom(ss[1..], ks, j + 1, maxLength);
    }
  }

  /** A run that fits, whose last sentence was added below the stop length, and that cannot or need not grow, is greedy. */
  lemma LatinGreedyStop(ks: seq<string>, n: nat, maxLength: int)
    requires n <= |ks|
    requires n > 1 ==> !LatinStop(|GlueLatin(ks, n - 1)|, maxLength)
    requires n > 0 ==> |GlueLatin(ks, n)| <= maxLength
    requires n < |ks| ==> |GlueLatin(ks, n + 1)| > maxLength || (n > 0 && LatinStop(|GlueLatin(ks, n)|, maxLength))
    ensures LatinGreedy(ks, n, maxLength)
  {
  }

  /** Appending a kept sentence extends the glued run by one. */
  lemma LatinAppendGlue(ks: seq<string>, j: nat)
    requires j < |ks| && ks[j] != "" && (j > 0 ==> ks[j - 1] != "")
    ensures LatinAppend(GlueLatin(ks, j), ks[j]) == GlueLatin(ks, j + 1)
  {
  }

  /** The Latin sentence path: the result is the greedy run of kept sentences. */
  lemma LatinSentencePath(text: string, maxLength: int)
    ensures var ss := LatinSentences(text);
      var ks := Kept(ss);
      exists n :: LatinGreedy(ks, n, maxLength) && LatinAccumulate(ss, "", maxLength) == GlueLatin(ks, n)
  {
    var ss := LatinSentences(text);
    var ks := Kept(ss);
    assert ks[0..] == ks;
    assert GlueLatin(ks, 0) == "";
    var n := LatinGreedyFrom(ss, ks, 0, maxLength);
    assert LatinAccumulate(ss, "", maxLength) == GlueLatin(ks, n);
  }

  /** A non-empty sentence-path result fits in `maxLength` and ends in `.`, `!` or `?`. */
  lemma LatinSentenceBound(text: string, maxLength: int)
    ensures var d := LatinAccumulate(LatinSentences(text), "", maxLength);
      d != "" ==> |d| <= maxLength && IsLatinEnder(d[|d| - 1])
  {
    var ss := LatinSentences(text);
    var ks := Kept(ss);
    assert ks[0..] == ks;
    assert GlueLatin(ks, 0) == "";
    var n := LatinGreedyFrom(ss, ks, 0, maxLength);
    GlueLatinEnds(ks, n);
  }

  /** A run of at least one kept sentence ends in `.`, `!` or `?`. */
  lemma GlueLatinEnds(ks: seq<string>, n: nat)
    requires n <= |ks| && forall k :: 0 <= k < |ks| ==> ks[k] != ""
    ensures var g := GlueLatin(ks, n); n > 0 ==> g != "" && IsLatinEnder(g[|g| - 1])
  {
    if n > 0 {
      var p := LatinPunctuated(ks[n - 1]);
      assert p != "" && IsLatinEnder(p[|p| - 1]);
      if n > 1 {
        var g := GlueLatin(ks, n - 1) + " " + p;
        assert g[|g| - 1] == p[|p| - 1];
      }
    }
  }

  /** When no sentence is taken: the first `maxLength` characters, cut back to the last space if it lies past 80%, and `...`. */
  function LatinFallback(text: string, maxLength: int): string {
    if |text| > 0 then
      var description := SliceTo(text, maxLength);
      if |description| < |text| then
        var lastSpace := LastIndexOf(description, ' ');
        (if 10 * lastSpace > 8 * maxLength then SliceTo(description, lastSpace) else description) + "..."
      else description
    else ""
  }

  /** `extractLatinDescription(text, maxLength)`. */
  function LatinDescription(text: string, maxLength: int): string {
    var description := LatinAccumulate(LatinSentences(text), "", maxLength);
    if description == "" then LatinFallback(text, maxLength) else description
  }

  /** The Latin loop over the sentences, with its two early exits. */
  method LatinSentenceLoop(sentences: seq<string>, maxLength: int) returns (description: string)
    ensures description == LatinAccumulate(sentences, "", maxLength)
  {
    description := "";
    for i := 0 to |sentences|
      invariant LatinAccumulate(sentences, "", maxLength) == LatinAccumulate(sentences[i..], description, maxLength)
    {
      assert sentences[i..][1..] == sentences[i + 1..];
      var trimmed := Trim(sentences[i]);
      if trimmed == "" {
        continue;
      }
      var newDescription := if description != "" then description + " " + trimmed else trimmed;
      var needsPunctuation := !IsLatinEnder(trimmed[|trimmed| - 1]);
      var finalDescription := if needsPunctuation then newDescription + "." else newDescription;
      if |finalDescription| > maxLength {
        return;
      }
      description := finalDescription;
      if LatinStop(|description|, maxLength) {
        return;
      }
    }
  }

  /** `extractLatinDescription`: the sentence loop, then the word-preserving fallback when it kept nothing. */
  method ExtractLatinDescription(text: string, maxLength: int) returns (description: string)
    ensures description == LatinDescription(text, maxLength)
  {
    description := LatinSentenceLoop(LatinSentences(text), maxLength);
    if description == "" && |text| > 0 {
      description := SliceTo(text, maxLength);
      if |description| < |text| {
        var lastSpace := LastIndexOf(description, ' ');
        if 10 * lastSpace > 8 * maxLength {
          description := SliceTo(description, lastSpace);
        }
        description := description + "...";
      }
    }
  }

  /**
   * The fallback never cuts inside the last 20% of a word: a longer text is
   * cut at `maxLength`, or at a space past 80% of it after which no space
   * follows before `maxLength`, and gets `...`.
   */
  lemma LatinFallbackShape(text: string, maxLength: nat)
    ensures |text| <= maxLength ==> LatinFallback(text, maxLength) == text
    ensures |text| > maxLength ==> exists cut :: (0 <= cut <= maxLength && LatinFallback(text, maxLength) == text[..cut] + "..."
      && (cut < maxLength ==> (text[cut] == ' ' && 10 * cut > 8 * maxLength
                                && forall j :: cut < j < maxLength ==> text[j] != ' '))
      && (cut == maxLength ==> forall j :: 0 <= j < maxLength && 10 * j > 8 * maxLength ==> text[j] != ' '))
  {
    if |text| > maxLength {
      var d := text[..maxLength];
      var lastSpace := LastIndexOf(d, ' ');
      if 10 * lastSpace > 8 * maxLength {
        assert d[..lastSpace] == text[..lastSpace];
        assert LatinFallback(text, maxLength) == text[..lastSpace] + "...";
      } else {
        assert LatinFallback(text, maxLength) == text[..maxLength] + "...";
        forall j | 0 <= j < maxLength && 10 * j > 8 * maxLength ensures text[j] != ' ' {
          assert d[j] == text[j];
        }
      }
    }
  }

  // ---- The whole extractor ----

  /** `locale || detectLanguage(cleanText)`: a given, non-empty locale skips detection. */
  function ChosenLocale(cleanText: string, locale: Option<string>): string {
    if locale.Some? && locale.value != "" then locale.value else DetectLanguage(cleanText)
  }

  /**
   * `extractDescription(content, maxLength, locale)`, with the Markdown
   * cleaning pipeline given as `clean`; `maxLength` defaults to 160.
   */
  function DescriptionOf(content: string, maxLength: Option<int>, locale: Option<string>, clean: string -> string): string {
    if content == "" then ""
    else
      var cleanText := clean(content);
      if cleanText == "" then ""
      else
        var m := maxLength.GetOr(DefaultMaxLength);
        if IsCJK(ChosenLocale(cleanText, locale)) then CJKDescription(cleanText, m) else LatinDescription(cleanText, m)
  }

  /** The extractor: empty input out early, then the rules for the chosen locale. */
  method ExtractDescription(content: string, maxLength: Option<int>, locale: Option<string>, clean: string -> string)
    returns (description: string)
    ensures description == DescriptionOf(content, maxLength, locale, clean)
  {
    if content == "" {
      return "";
    }
    var cleanText := clean(content);
    if cleanText == "" {
      return "";
    }
    var m := maxLength.GetOr(DefaultMaxLength);
    var detectedLocale := ChosenLocale(cleanText, locale);
    if IsCJK(detectedLocale) {
      description := ExtractCJKDescription(cleanText, m);
    } else {
      description := ExtractLatinDescription(cleanText, m);
    }
  }

  /** Empty content, or content that cleans to nothing, has the empty description. */
  lemma DescriptionOfEmpty(content: string, maxLength: Option<int>, locale: Option<string>, clean: string -> string)
    requires content == "" || clean(content) == ""
    ensures DescriptionOf(content, maxLength, locale, clean) == ""
  {
  }

  /** A description is never longer than the cap plus the three characters of `...`, and is empty only for empty text. */
  lemma DescriptionBound(text: string, maxLength: nat)
    ensures |CJKDescription(text, maxLength)| <= maxLength + 3
    ensures |LatinDescription(text, maxLength)| <= maxLength + 3
    ensures text != "" ==> CJKDescription(text, maxLength) != "" && LatinDescription(text, maxLength) != ""
  {
    CJKDescriptionBound(text, maxLength);
    LatinDescriptionBound(text, maxLength);
  }

  lemma CJKDescriptionBound(text: string, maxLength: nat)
    ensures |CJKDescription(text, maxLength)| <= maxLength + 3
    ensures text != "" ==> CJKDescription(text, maxLength) != ""
  {
    CJKSentenceBound(text, maxLength);
  }

  lemma LatinDescriptionBound(text: string, maxLength: nat)
    ensures |LatinDescription(text, maxLength)| <= maxLength + 3
    ensures text != "" ==> LatinDescription(text, maxLength) != ""
  {
    var d := LatinAccumulate(LatinSentences(text), "", maxLength);
    LatinSentenceBound(text, maxLength);
    if d == "" {
      LatinFallbackBound(text, maxLength);
      assert LatinDescription(text, maxLength) == LatinFallback(text, maxLength);
    } else {
      assert LatinDescription(text, maxLength) == d;
    }
  }

  lemma LatinFallbackBound(text: string, maxLength: nat)
    ensures |LatinFallback(text, maxLength)| <= maxLength + 3
    ensures text != "" ==> LatinFallback(text, maxLength) != ""
  {
    if |text| > 0 {
      var d := SliceTo(text, maxLength);
      if |d| < |text| {
        var lastSpace := LastIndexOf(d, ' ');
        assert |SliceTo(d, lastSpace)| <= |d|;
      }
    }
  }

  /** With a non-negative cap the whole extractor stays within the cap plus `...`. */
  lemma DescriptionOfBound(content: string, maxLength: Option<int>, locale: Option<string>, clean: string -> string)
    requires maxLength.GetOr(DefaultMaxLength) >= 0
    ensures |DescriptionOf(content, maxLength, locale, clean)| <= maxLength.GetOr(DefaultMaxLength) + 3
  {
    if content != "" && clean(content) != "" {
      DescriptionBound(clean(content), maxLength.GetOr(DefaultMaxLength));
    }
  }

  /** A supplied locale outside the list, like `zh-HK`, takes the Latin rules whatever the script of the text. */
  lemma RegionalChineseIsLatin(content: string, maxLength: Option<int>, clean: string -> string)
    requires content != "" && clean(content) != ""
    ensures DescriptionOf(content, maxLength, Some("zh-HK"), clean)
      == LatinDescription(clean(content), maxLength.GetOr(DefaultMaxLength))
  {
    IsCJKExamples();
  }
}
