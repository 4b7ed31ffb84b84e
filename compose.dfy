/**
 * The card-composition helpers that both popup scripts define identically
 * (Firefox/popup.js:30-62, popup.js:28-49, and the indicator at
 * Firefox/popup.js:94-102, popup.js:81-89): word limits, truncation, the
 * font-size step function, the word-count indicator, the displayed domain and
 * (Firefox only) the download file name.
 */
module Compose {
  import opened Wrappers
  import opened Text

  datatype Format = Square | Vertical
  datatype Mode = Dark | Image

  /** `WORD_LIMITS`. */
  function WordLimit(format: Format): (n: nat)
    ensures n == (if format == Vertical then 75 else 60)
  {
    match format
    case Square => 60
    case Vertical => 75
  }

  // -------------------------------------------------------------- truncation

  /** `truncateTextByWordLimit`. */
  function Truncate(text: string, maxWords: nat): (r: string)
    ensures CountWords(text) <= maxWords ==> r == text
  {
    var words := Words(text);
    if |words| <= maxWords then text else Join(words[..maxWords]) + "..."
  }

  /**
   * Over the limit, the first `maxWords` words survive in order and the
   * ellipsis sticks to the last of them.
   */
  lemma TruncateKeepsLeadingWords(text: string, maxWords: nat)
    requires maxWords >= 1
    requires CountWords(text) > maxWords
    ensures Words(Truncate(text, maxWords))
            == Words(text)[..maxWords - 1] + [Words(text)[maxWords - 1] + "..."]
  {
    var kept := Words(text)[..maxWords];
    WordsOfJoinWithEllipsis(kept);
    assert kept[..maxWords - 1] == Words(text)[..maxWords - 1];
  }

  /** The result has `min(W, maxWords)` words. */
  lemma TruncateWordCount(text: string, maxWords: nat)
    requires maxWords >= 1
    ensures CountWords(Truncate(text, maxWords))
            == if CountWords(text) <= maxWords then CountWords(text) else maxWords
  {
    if CountWords(text) > maxWords {
      TruncateKeepsLeadingWords(text, maxWords);
    }
  }

  /** Truncating an already truncated text with the same limit changes nothing. */
  lemma TruncateIdempotent(text: string, maxWords: nat)
    requires maxWords >= 1
    ensures Truncate(Truncate(text, maxWords), maxWords) == Truncate(text, maxWords)
  {
    TruncateWordCount(text, maxWords);
  }

  // --------------------------------------------------------------- font size

  /** `calculateQuoteTextSize(...).fontSize`; `/` by 15 is floor division here as in `Math.floor`. */
  function FontSize(wordCount: int, vertical: bool): (r: int)
    ensures r % 2 == 1
    ensures 1 <= wordCount <= 15 ==> r == (if vertical then 31 else 29)
  {
    var modeMultiplier := if vertical then 5 else 4;
    23 + (modeMultiplier - ((wordCount - 1) / 15 + 1)) * 2
  }

  /** `calculateQuoteTextSize(...).lineHeight`, already formatted by `toFixed(2)`. */
  function LineHeight(vertical: bool): (r: string)
    ensures r == if vertical then "1.55" else "1.50"
  {
    if vertical then "1.55" else "1.50"
  }

  /** Band `k` (words `15k+1 .. 15k+15`) is two pixels smaller than band `k-1`. */
  lemma FontSizeBand(wordCount: int, vertical: bool, k: nat)
    requires 15 * k + 1 <= wordCount <= 15 * k + 15
    ensures FontSize(wordCount, vertical) == 23 + 2 * ((if vertical then 5 else 4) - 1 - k)
  {
    assert (wordCount - 1) / 15 == k;
  }

  lemma FontSizeExamples()
    ensures FontSize(1, true) == 31 && FontSize(15, true) == 31
    ensures FontSize(16, true) == 29 && FontSize(30, true) == 29
    ensures FontSize(61, true) == 23 && FontSize(75, true) == 23
    ensures FontSize(1, false) == 29 && FontSize(15, false) == 29
    ensures FontSize(46, false) == 23 && FontSize(60, false) == 23
  {
    FontSizeBand(1, true, 0);
    FontSizeBand(15, true, 0);
    FontSizeBand(16, true, 1);
    FontSizeBand(30, true, 1);
    FontSizeBand(61, true, 4);
    FontSizeBand(75, true, 4);
    FontSizeBand(1, false, 0);
    FontSizeBand(15, false, 0);
    FontSizeBand(46, false, 3);
    FontSizeBand(60, false, 3);
  }

  /** More words never give a larger font. */
  lemma FontSizeNonIncreasing(w1: int, w2: int, vertical: bool)
    requires w1 <= w2
    ensures FontSize(w2, vertical) <= FontSize(w1, vertical)
  {
    assert (w1 - 1) / 15 <= (w2 - 1) / 15 by {
      var q1, q2 := (w1 - 1) / 15, (w2 - 1) / 15;
      assert 15 * q1 <= w1 - 1 < 15 * q1 + 15;
      assert 15 * q2 <= w2 - 1 < 15 * q2 + 15;
    }
  }

  /** Within the format's word limit the font stays between 23px and the band-one size. */
  lemma FontSizeWithinLimit(wordCount: int, format: Format)
    requires 1 <= wordCount <= WordLimit(format)
    ensures 23 <= FontSize(wordCount, format == Vertical)
    ensures FontSize(wordCount, format == Vertical) <= (if format == Vertical then 31 else 29)
  {
    var k := (wordCount - 1) / 15;
    assert 0 <= k <= (if format == Vertical then 4 else 3);
  }

  // --------------------------------------------------------------- layout

  /** What `renderQuoteCard` writes into the card for a non-empty trimmed quote. */
  datatype Layout = Layout(text: string, fontSize: int, lineHeight: string)

  function LayoutFor(quoteText: string, format: Format): (r: Layout)
    ensures CountWords(r.text) == if CountWords(quoteText) <= WordLimit(format) then CountWords(quoteText) else WordLimit(format)
    ensures CountWords(quoteText) <= WordLimit(format) ==> r.text == quoteText
    ensures r.lineHeight == if format == Vertical then "1.55" else "1.50"
  {
    TruncateWordCount(quoteText, WordLimit(format));
    var truncated := Truncate(quoteText, WordLimit(format));
    var vertical := format == Vertical;
    Layout(truncated, FontSize(CountWords(truncated), vertical), LineHeight(vertical))
  }

  /** A rendered card never exceeds the word limit and its font stays in range. */
  lemma LayoutWithinLimits(quoteText: string, format: Format)
    requires !AllSpace(quoteText)
    ensures 1 <= CountWords(LayoutFor(quoteText, format).text) <= WordLimit(format)
    ensures 23 <= LayoutFor(quoteText, format).fontSize <= (if format == Vertical then 31 else 29)
  {
    var truncated := Truncate(quoteText, WordLimit(format));
    TruncateWordCount(quoteText, WordLimit(format));
    FontSizeWithinLimit(CountWords(truncated), format);
  }

  // ------------------------------------------------------ word-count display

  datatype Indicator = Plain | Warning | Limit

  /** `updateWordLimitIndicator`: `wordCount > wordLimit * 0.8` is `5 * wordCount > 4 * wordLimit`. */
  function WordLimitIndicator(wordCount: nat, wordLimit: nat): (r: Indicator)
    ensures r == Limit <==> wordCount > wordLimit
    ensures r == Warning <==> wordCount <= wordLimit && wordCount as real > wordLimit as real * 0.8
  {
    if wordCount > wordLimit then Limit
    else if 5 * wordCount > 4 * wordLimit then Warning
    else Plain
  }

  lemma IndicatorClassifies(wordCount: nat, wordLimit: nat)
    ensures WordLimitIndicator(wordCount, wordLimit) == Limit <==> wordCount > wordLimit
    ensures WordLimitIndicator(wordCount, wordLimit) == Warning
            <==> 4 * wordLimit < 5 * wordCount && wordCount <= wordLimit
    ensures WordLimitIndicator(wordCount, wordLimit) == Plain <==> 5 * wordCount <= 4 * wordLimit
  {
  }

  lemma IndicatorThresholds()
    ensures WordLimitIndicator(48, 60) == Plain && WordLimitIndicator(49, 60) == Warning
    ensures WordLimitIndicator(60, 60) == Warning && WordLimitIndicator(61, 60) == Limit
    ensures WordLimitIndicator(60, 75) == Plain && WordLimitIndicator(61, 75) == Warning
    ensures WordLimitIndicator(75, 75) == Warning && WordLimitIndicator(76, 75) == Limit
  {
  }

  // ------------------------------------------------------------------ domain

  /** ASCII case folding, which is what a non-Unicode `/i` regular expression does to these letters. */
  function Lower(c: char): char {
    if 'A' <= c <= 'Z' then (c as int + 32) as char else c
  }

  /** `s` starts with `p` ignoring ASCII case (`p` is written in lower case). */
  predicate StartsWithCI(s: string, p: string) {
    |p| <= |s| && forall i :: 0 <= i < |p| ==> Lower(s[i]) == p[i]
  }

  function SchemeLength(url: string): (n: nat)
    ensures n <= |url|
  {
    if StartsWithCI(url, "https://") then 8
    else if StartsWithCI(url, "http://") then 7
    else 0
  }

  /** The `(www\.)?` step: drops a leading `www.` in any letter case. */
  function StripWww(s: string): (r: string)
    ensures |r| <= |s| && r == s[|s| - |r|..]
    ensures |s| - |r| == (if StartsWithCI(s, "www.") then 4 else 0)
  {
    if StartsWithCI(s, "www.") then s[4..] else s
  }

  /** `extractDomain`: `url.replace(/^(https?:\/\/)?(www\.)?/i, "")`. */
  function ExtractDomain(url: string): (r: string)
    ensures |r| <= |url| && r == url[|url| - |r|..]
    ensures |url| - |r| in {0, 4, 7, 8, 11, 12}
    ensures !StartsWithCI(url, "http://") && !StartsWithCI(url, "https://") && !StartsWithCI(url, "www.")
            ==> r == url
  {
    StripWww(url[SchemeLength(url)..])
  }

  lemma StartsWithOwnPrefix(p: string, rest: string)
    requires forall i :: 0 <= i < |p| ==> Lower(p[i]) == p[i]
    ensures StartsWithCI(p + rest, p)
  {
    assert forall i :: 0 <= i < |p| ==> (p + rest)[i] == p[i];
  }

  lemma StripWwwOfHost(www: bool, host: string)
    requires !StartsWithCI(host, "www.")
    ensures StripWww((if www then "www." else "") + host) == host
  {
    if www {
      StartsWithOwnPrefix("www.", host);
      assert ("www." + host)[4..] == host;
    } else {
      assert "" + host == host;
    }
  }

  /** `http://` or `https://` in any letter case. */
  predicate IsScheme(p: string) {
    (|p| == 7 && StartsWithCI(p, "http://")) || (|p| == 8 && StartsWithCI(p, "https://"))
  }

  /** An address made of an optional scheme, an optional `www.` and a host shows as the host. */
  lemma ExtractDomainOfAddress(scheme: string, www: bool, host: string)
    requires scheme == "" || IsScheme(scheme)
    requires !StartsWithCI(host, "www.")
    requires scheme == "" && !www ==> !StartsWithCI(host, "http://") && !StartsWithCI(host, "https://")
    ensures ExtractDomain(scheme + (if www then "www." else "") + host) == host
  {
    var rest := (if www then "www." else "") + host;
    var url := scheme + rest;
    assert scheme + (if www then "www." else "") + host == url;
    StripWwwOfHost(www, host);
    if www {
      assert Lower(rest[0]) == 'w';
    }
    SchemeLengthOf(scheme, rest);
    assert url[|scheme|..] == rest;
  }

  /** The scheme the pattern strips is exactly the one the address was written with. */
  lemma SchemeLengthOf(scheme: string, rest: string)
    requires IsScheme(scheme)
             || (scheme == "" && !StartsWithCI(rest, "http://") && !StartsWithCI(rest, "https://"))
    ensures SchemeLength(scheme + rest) == |scheme|
  {
    if scheme == "" {
      assert scheme + rest == rest;
    } else if |scheme| == 8 {
      StartsWithExtends(scheme, rest, "https://");
    } else {
      StartsWithExtends(scheme, rest, "http://");
      assert Lower((scheme + rest)[4]) == ':';
    }
  }

  /** A text that starts with `p` still does after anything is appended. */
  lemma StartsWithExtends(s: string, rest: string, p: string)
    requires StartsWithCI(s, p)
    ensures StartsWithCI(s + rest, p)
  {
    assert forall i :: 0 <= i < |p| ==> (s + rest)[i] == s[i];
  }

  // --------------------------------------------------------------- file name

  predicate IsForbidden(c: char) {
    c in "\\/?%*:|\"<>"
  }

  predicate IsDashOrSpace(c: char) {
    IsSpace(c) || c == '-'
  }

  predicate IsEdge(c: char) {
    IsSpace(c) || c == '.' || c == '-'
  }

  /** `.replace(/[\\/?%*:|"<>]/g, "-")`. */
  function ReplaceForbidden(s: string): (r: string)
    ensures |r| == |s|
    ensures NoForbidden(r)
    ensures forall i :: 0 <= i < |r| ==> r[i] == (if IsForbidden(s[i]) then '-' else s[i])
  {
    seq(|s|, i requires 0 <= i < |s| => if IsForbidden(s[i]) then '-' else s[i])
  }

  function DropDashOrSpace(s: string): (r: string)
    ensures |r| <= |s| && r == s[|s| - |r|..]
    ensures r == [] || !IsDashOrSpace(r[0])
    ensures s != [] && IsDashOrSpace(s[0]) ==> |r| < |s|
    ensures Solid(r) == Solid(s)
  {
    if s != [] && IsDashOrSpace(s[0]) then
      var r := DropDashOrSpace(s[1..]);
      SolidDropsSeparator(s);
      SuffixOfTail(s, |s| - 1 - |r|);
      r
    else s
  }

  /** A separator in front adds no solid character. */
  lemma SolidDropsSeparator(s: string)
    requires s != [] && IsDashOrSpace(s[0])
    ensures Solid(s) == Solid(s[1..])
  {
    assert Solid(s) == [] + Solid(s[1..]);
  }

  lemma SuffixOfTail(s: string, k: nat)
    requires k < |s|
    ensures s[1..][k..] == s[k + 1..]
  {
  }

  /** `.replace(/[\s-]+/g, "-")`: every run of whitespace and dashes becomes one dash. */
  function CollapseSeparators(s: string): (r: string)
    ensures r == [] <==> s == []
    ensures r != [] ==> (r[0] == '-' <==> IsDashOrSpace(s[0]))
    ensures Solid(r) == Solid(s)
    ensures NoForbidden(s) ==> Tidy(r)
    decreases |s|
  {
    if s == [] then []
    else if IsDashOrSpace(s[0]) then
      var rest := DropDashOrSpace(s);
      var t := CollapseSeparators(rest);
      NoForbiddenSuffix(s, |s| - |rest|);
      TidyCons('-', t);
      SolidCons('-', t);
      "-" + t
    else
      var t := CollapseSeparators(s[1..]);
      NoForbiddenSuffix(s, 1);
      TidyCons(s[0], t);
      SolidCons(s[0], t);
      [s[0]] + t
  }

  /** The characters of `s` that are neither whitespace nor `-`, in order. */
  function Solid(s: string): string {
    if s == [] then [] else (if IsDashOrSpace(s[0]) then [] else [s[0]]) + Solid(s[1..])
  }

  lemma SolidCons(c: char, t: string)
    ensures Solid([c] + t) == (if IsDashOrSpace(c) then [] else [c]) + Solid(t)
  {
    assert ([c] + t)[1..] == t;
  }

  /**
   * `s.split(/[\s-]+/)`: the pieces between the runs of separators, with an
   * empty piece before a leading run and after a trailing one.
   */
  function Pieces(s: string): (ps: seq<string>)
    ensures |ps| >= 1
    ensures forall i :: 0 < i < |ps| - 1 ==> ps[i] != []
    decreases |s|
  {
    if s == [] then [""]
    else if IsDashOrSpace(s[0]) then [""] + Pieces(DropDashOrSpace(s))
    else
      var ps := Pieces(s[1..]);
      [[s[0]] + ps[0]] + ps[1..]
  }

  /** `pieces.join("-")`. */
  function JoinDash(ps: seq<string>): string
    requires |ps| >= 1
  {
    if |ps| == 1 then ps[0] else ps[0] + "-" + JoinDash(ps[1..])
  }

  /** Collapsing the separators is splitting at every run of them and joining the pieces with one dash. */
  lemma {:induction false} CollapseIsSplitJoin(s: string)
    ensures CollapseSeparators(s) == JoinDash(Pieces(s))
    decreases |s|
  {
    if s == [] {
    } else if IsDashOrSpace(s[0]) {
      var rest := DropDashOrSpace(s);
      CollapseIsSplitJoin(rest);
      JoinDashEmptyFront(Pieces(rest));
    } else {
      CollapseIsSplitJoin(s[1..]);
      JoinDashCons(s[0], Pieces(s[1..]));
    }
  }

  /** An empty piece in front puts a dash in front of the joined text. */
  lemma JoinDashEmptyFront(ps: seq<string>)
    requires |ps| >= 1
    ensures JoinDash([""] + ps) == "-" + JoinDash(ps)
  {
    assert ([""] + ps)[1..] == ps;
    Assoc("", "-", JoinDash(ps));
  }

  /** Putting a character in front of the first piece puts it in front of the joined text. */
  lemma JoinDashCons(c: char, ps: seq<string>)
    requires |ps| >= 1
    ensures JoinDash([[c] + ps[0]] + ps[1..]) == [c] + JoinDash(ps)
  {
    var qs := [[c] + ps[0]] + ps[1..];
    if |ps| == 1 {
      assert qs == [[c] + ps[0]];
    } else {
      var j := JoinDash(ps[1..]);
      assert JoinDash(qs) == ([c] + ps[0]) + "-" + j by {
        assert qs[1..] == ps[1..];
      }
      Assoc([c], ps[0], "-");
      Assoc([c], ps[0] + "-", j);
    }
  }

  predicate NoForbidden(s: string) {
    forall i :: 0 <= i < |s| ==> !IsForbidden(s[i])
  }

  lemma NoForbiddenSuffix(s: string, k: nat)
    requires k <= |s|
    ensures NoForbidden(s) ==> NoForbidden(s[k..])
  {
    assert forall i :: 0 <= i < |s| - k ==> s[k..][i] == s[k + i];
  }

  /** Putting one more character in front keeps a text tidy unless it makes `--`. */
  lemma TidyCons(c: char, t: string)
    ensures Tidy(t) && !IsForbidden(c) && !IsSpace(c) && (c == '-' ==> t == [] || t[0] != '-')
            ==> Tidy([c] + t)
  {
    var x := [c] + t;
    assert forall i :: 1 <= i < |x| ==> x[i] == t[i - 1];
  }

  predicate AllEdge(s: string) {
    forall i :: 0 <= i < |s| ==> IsEdge(s[i])
  }

  /** How many edge characters lead `s`. */
  function LeadingEdge(s: string): (n: nat)
    ensures n <= |s|
    ensures forall i :: 0 <= i < n ==> IsEdge(s[i])
    ensures n < |s| ==> !IsEdge(s[n])
  {
    if s == [] || !IsEdge(s[0]) then 0 else 1 + LeadingEdge(s[1..])
  }

  /** How many edge characters end `s`. */
  function TrailingEdge(s: string): (n: nat)
    ensures n <= |s|
    ensures forall i :: |s| - n <= i < |s| ==> IsEdge(s[i])
    ensures n < |s| ==> !IsEdge(s[|s| - 1 - n])
  {
    if s == [] || !IsEdge(s[|s| - 1]) then 0 else 1 + TrailingEdge(s[..|s| - 1])
  }

  /** No forbidden character, no whitespace and no `--`. */
  predicate Tidy(s: string) {
    && (forall i :: 0 <= i < |s| ==> !IsForbidden(s[i]) && !IsSpace(s[i]))
    && (forall i :: 0 <= i < |s| - 1 ==> !(s[i] == '-' && s[i + 1] == '-'))
  }

  lemma TidySlice(s: string, lo: nat, hi: nat)
    requires lo <= hi <= |s|
    ensures Tidy(s) ==> Tidy(s[lo..hi])
  {
    var t := s[lo..hi];
    assert forall i :: 0 <= i < |t| ==> t[i] == s[lo + i];
  }

  /**
   * `.replace(/^[\s.-]+|[\s.-]+$/g, "")`: the leading and the trailing run of
   * whitespace, dots and dashes removed, and nothing else.
   */
  function StripEdges(s: string): (r: string)
    ensures |r| <= |s|
    ensures r == [] || (!IsEdge(r[0]) && !IsEdge(r[|r| - 1]))
    ensures LeadingEdge(s) + |r| <= |s| && r == s[LeadingEdge(s)..LeadingEdge(s) + |r|]
    ensures AllEdge(s[LeadingEdge(s) + |r|..])
    ensures Tidy(s) ==> Tidy(r)
  {
    var a := LeadingEdge(s);
    if a == |s| then []
    else
      var b := |s| - TrailingEdge(s);
      assert !IsEdge(s[a]) && a < b;
      TidySlice(s, a, b);
      s[a..b]
  }

  /** `(rawTitle || "").trim()` and the three replacements, then `.slice(0, 120)`. */
  function CleanTitle(rawTitle: Option<string>): (r: string)
    ensures |r| <= 120 && Tidy(r)
    ensures r != [] ==> r[0] != '.' && r[0] != '-'
    ensures rawTitle == None || AllSpace(rawTitle.value) ==> r == []
  {
    var replaced := ReplaceForbidden(Trim(rawTitle.GetOr("")));
    var collapsed := CollapseSeparators(replaced);
    var stripped := StripEdges(collapsed);
    BlankTitleLeavesNothing(rawTitle);
    if |stripped| <= 120 then stripped
    else TidyPrefix(stripped, 120); stripped[..120]
  }

  /**
   * The cleaned title is the longest prefix of at most 120 characters of the
   * title once it is trimmed, its forbidden characters replaced, its
   * separators collapsed and its edges stripped.
   */
  lemma CleanTitleIsCut(rawTitle: Option<string>)
    ensures var full := StripEdges(CollapseSeparators(ReplaceForbidden(Trim(rawTitle.GetOr("")))));
            var r := CleanTitle(rawTitle);
            |r| <= |full| && r == full[..|r|] && (|r| < |full| ==> |r| == 120)
  {
    var full := StripEdges(CollapseSeparators(ReplaceForbidden(Trim(rawTitle.GetOr("")))));
    CleanTitleUnfold(rawTitle);
    CutIsPrefix(full, 120);
  }

  lemma CleanTitleUnfold(rawTitle: Option<string>)
    ensures var full := StripEdges(CollapseSeparators(ReplaceForbidden(Trim(rawTitle.GetOr("")))));
            CleanTitle(rawTitle) == if |full| <= 120 then full else full[..120]
  {
  }

  /** Keeping at most `n` characters keeps the longest prefix of that size. */
  lemma CutIsPrefix(s: string, n: nat)
    ensures var r := if |s| <= n then s else s[..n];
            |r| <= |s| && r == s[..|r|] && (|r| < |s| ==> |r| == n)
  {
    assert s[..|s|] == s;
  }

  lemma BlankTitleLeavesNothing(rawTitle: Option<string>)
    ensures rawTitle == None || AllSpace(rawTitle.value) ==>
              StripEdges(CollapseSeparators(ReplaceForbidden(Trim(rawTitle.GetOr(""))))) == []
  {
  }

  /** A prefix of a tidy text is tidy and starts where the text starts. */
  lemma TidyPrefix(s: string, n: nat)
    requires 1 <= n <= |s| && Tidy(s)
    ensures Tidy(s[..n]) && s[..n][0] == s[0]
  {
    TidySlice(s, 0, n);
  }

  /** A file-name base the download may safely use. */
  predicate SafeFileBase(r: string) {
    1 <= |r| <= 120 && r[0] != '.' && r[0] != '-' && Tidy(r)
  }

  lemma FallbackNameSafe()
    ensures SafeFileBase("untitled-quote")
  {
  }

  /** `sanitizeFilenameBase`: the cleaned title, or `"untitled-quote"` when nothing is left. */
  function SanitizeFilenameBase(rawTitle: Option<string>): (r: string)
    ensures SafeFileBase(r)
    ensures rawTitle == None || AllSpace(rawTitle.value) ==> r == "untitled-quote"
    ensures CleanTitle(rawTitle) == [] ==> r == "untitled-quote"
    ensures CleanTitle(rawTitle) != [] ==> r == CleanTitle(rawTitle)
  {
    var cleaned := CleanTitle(rawTitle);
    if cleaned == [] then FallbackNameSafe(); "untitled-quote" else cleaned
  }

  /** A title that is already a safe name, and does not end in an edge character, is kept as it is. */
  lemma CleanNameKept(title: string)
    requires SafeFileBase(title) && !IsEdge(title[|title| - 1])
    ensures CleanTitle(Some(title)) == title
    ensures SanitizeFilenameBase(Some(title)) == title
  {
    StepsKeep(title);
    CleanTitleBelowCut(title);
  }

  /** Each cleaning step leaves a safe name that ends cleanly as it is. */
  lemma StepsKeep(title: string)
    requires SafeFileBase(title) && !IsEdge(title[|title| - 1])
    ensures StripEdges(CollapseSeparators(ReplaceForbidden(Trim(title)))) == title
  {
    assert !IsSpace(title[0]) && !IsSpace(title[|title| - 1]);
    TrimKeeps(title);
    ReplaceKeeps(title);
    CollapseTidy(title);
    StripEdgesKeeps(title);
  }

  /** A title whose cleaned form is within 120 characters is not cut. */
  lemma CleanTitleBelowCut(title: string)
    requires |StripEdges(CollapseSeparators(ReplaceForbidden(Trim(title))))| <= 120
    ensures CleanTitle(Some(title)) == StripEdges(CollapseSeparators(ReplaceForbidden(Trim(title))))
  {
    assert Some(title).GetOr("") == title;
  }

  /** A text with no whitespace at either end is not trimmed. */
  lemma TrimKeeps(s: string)
    requires s != [] && !IsSpace(s[0]) && !IsSpace(s[|s| - 1])
    ensures Trim(s) == s
  {
  }

  /** A text without forbidden characters is not changed by the replacement. */
  lemma ReplaceKeeps(s: string)
    requires NoForbidden(s)
    ensures ReplaceForbidden(s) == s
  {
  }

  /** Collapsing changes nothing in a tidy text: its separators are single dashes already. */
  lemma {:induction false} CollapseTidy(s: string)
    requires Tidy(s)
    ensures CollapseSeparators(s) == s
    decreases |s|
  {
    if s != [] {
      TidySlice(s, 1, |s|);
      CollapseTidy(s[1..]);
      if IsDashOrSpace(s[0]) {
        DropSingleDash(s);
      }
      assert s == [s[0]] + s[1..];
    }
  }

  /** In a tidy text a dash stands alone, so dropping the separator run drops just that dash. */
  lemma DropSingleDash(s: string)
    requires Tidy(s) && s != [] && IsDashOrSpace(s[0])
    ensures s[0] == '-' && DropDashOrSpace(s) == s[1..]
  {
    assert |s| > 1 ==> !IsDashOrSpace(s[1]);
    var t := s[1..];
    assert t == [] || !IsDashOrSpace(t[0]);
    assert DropDashOrSpace(t) == t;
  }

  /** A text with no edge character at either end is not stripped. */
  lemma StripEdgesKeeps(s: string)
    requires s != [] && !IsEdge(s[0]) && !IsEdge(s[|s| - 1])
    ensures StripEdges(s) == s
  {
  }

  /** A character that cleaning removes or turns into a separator. */
  predicate Vanishing(c: char) {
    IsForbidden(c) || IsEdge(c)
  }

  /**
   * A title made only of forbidden characters, whitespace, dots and dashes
   * (`"???"`, `" ... "`) has nothing left after cleaning, so the default name
   * is used.
   */
  lemma NothingLeftFallsBack(title: string)
    requires forall i :: 0 <= i < |title| ==> Vanishing(title[i])
    ensures CleanTitle(Some(title)) == []
    ensures SanitizeFilenameBase(Some(title)) == "untitled-quote"
  {
    NothingLeftStrips(title);
    CleanTitleBelowCut(title);
  }

  lemma NothingLeftStrips(title: string)
    requires forall i :: 0 <= i < |title| ==> Vanishing(title[i])
    ensures StripEdges(CollapseSeparators(ReplaceForbidden(Trim(title)))) == []
  {
    var trimmed := Trim(title);
    TrimVanishing(title);
    ReplaceVanishing(trimmed);
    var replaced := ReplaceForbidden(trimmed);
    CollapseKeepsAllEdge(replaced);
    StripAllEdge(CollapseSeparators(replaced));
  }

  /** Trimming a vanishing text leaves a vanishing text. */
  lemma TrimVanishing(title: string)
    requires forall i :: 0 <= i < |title| ==> Vanishing(title[i])
    ensures forall i :: 0 <= i < |Trim(title)| ==> Vanishing(Trim(title)[i])
  {
    var a := LeadingSpace(title);
    var n := |Trim(title)|;
    VanishingSlice(title, a, a + n);
  }

  lemma VanishingSlice(s: string, lo: nat, hi: nat)
    requires lo <= hi <= |s|
    requires forall i :: 0 <= i < |s| ==> Vanishing(s[i])
    ensures forall i :: 0 <= i < hi - lo ==> Vanishing(s[lo..hi][i])
  {
    assert forall i :: 0 <= i < hi - lo ==> s[lo..hi][i] == s[lo + i];
  }

  /** Replacing the forbidden characters of a vanishing text leaves only edge characters. */
  lemma ReplaceVanishing(t: string)
    requires forall i :: 0 <= i < |t| ==> Vanishing(t[i])
    ensures AllEdge(ReplaceForbidden(t))
  {
  }

  /** Collapsing separators in a text of edge characters leaves edge characters. */
  lemma {:induction false} CollapseKeepsAllEdge(s: string)
    requires AllEdge(s)
    ensures AllEdge(CollapseSeparators(s))
    decreases |s|
  {
    if s != [] {
      var rest := if IsDashOrSpace(s[0]) then DropDashOrSpace(s) else s[1..];
      AllEdgeSuffix(s, |s| - |rest|);
      CollapseKeepsAllEdge(rest);
      AllEdgeInFront(if IsDashOrSpace(s[0]) then '-' else s[0], CollapseSeparators(rest));
    }
  }

  lemma AllEdgeSuffix(s: string, k: nat)
    requires k <= |s| && AllEdge(s)
    ensures AllEdge(s[k..])
  {
    assert forall i :: 0 <= i < |s| - k ==> s[k..][i] == s[k + i];
  }

  lemma AllEdgeInFront(c: char, t: string)
    requires IsEdge(c) && AllEdge(t)
    ensures AllEdge([c] + t)
  {
    assert forall i :: 1 <= i < |t| + 1 ==> ([c] + t)[i] == t[i - 1];
  }

  /** Nothing is left of a text of edge characters once its edges are stripped. */
  lemma StripAllEdge(s: string)
    requires AllEdge(s)
    ensures StripEdges(s) == []
  {
  }
}
