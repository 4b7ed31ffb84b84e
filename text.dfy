/**
 * Text primitives shared by both popup scripts: the whitespace class of the
 * JavaScript regular expression `\s` and of `String.prototype.trim`, trimming,
 * and the word list that `text.split(/\s+/).filter((w) => w.length > 0)`
 * produces, i.e. the maximal runs of non-whitespace characters.
 */
module Text {

  /** WhiteSpace and LineTerminator code points of ECMAScript (the `\s` class). */
  predicate IsSpace(c: char) {
    var n := c as int;
    n == 0x09 || n == 0x0A || n == 0x0B || n == 0x0C || n == 0x0D || n == 0x20
    || n == 0xA0 || n == 0x1680 || (0x2000 <= n <= 0x200A)
    || n == 0x2028 || n == 0x2029 || n == 0x202F || n == 0x205F || n == 0x3000 || n == 0xFEFF
  }

  predicate NoSpace(w: string) {
    forall i :: 0 <= i < |w| ==> !IsSpace(w[i])
  }

  predicate AllSpace(s: string) {
    forall i :: 0 <= i < |s| ==> IsSpace(s[i])
  }

  /** A word as the split-and-filter idiom yields it: non-empty, without whitespace. */
  predicate IsWord(w: string) {
    w != [] && NoSpace(w)
  }

  // ---------------------------------------------------------------- trimming

  /** How many whitespace characters lead `s`. */
  function LeadingSpace(s: string): (n: nat)
    ensures n <= |s|
    ensures forall i :: 0 <= i < n ==> IsSpace(s[i])
    ensures n < |s| ==> !IsSpace(s[n])
  {
    if s == [] || !IsSpace(s[0]) then 0 else 1 + LeadingSpace(s[1..])
  }

  /** How many whitespace characters end `s`. */
  function TrailingSpace(s: string): (n: nat)
    ensures n <= |s|
    ensures forall i :: |s| - n <= i < |s| ==> IsSpace(s[i])
    ensures n < |s| ==> !IsSpace(s[|s| - 1 - n])
  {
    if s == [] || !IsSpace(s[|s| - 1]) then 0 else 1 + TrailingSpace(s[..|s| - 1])
  }

  /**
   * `String.prototype.trim`: the input with its leading and its trailing
   * whitespace removed, and nothing else.
   */
  function Trim(s: string): (r: string)
    ensures |r| <= |s|
    ensures r == [] || (!IsSpace(r[0]) && !IsSpace(r[|r| - 1]))
    ensures r == [] <==> AllSpace(s)
    ensures LeadingSpace(s) + |r| <= |s| && r == s[LeadingSpace(s)..LeadingSpace(s) + |r|]
    ensures AllSpace(s[LeadingSpace(s) + |r|..])
  {
    var a := LeadingSpace(s);
    if a == |s| then []
    else
      var b := |s| - TrailingSpace(s);
      assert !IsSpace(s[a]) && a < b;
      s[a..b]
  }

  // ------------------------------------------------------------------- words

  /** Length of the leading run of non-whitespace characters. */
  function RunLength(s: string): (n: nat)
    ensures n <= |s|
    ensures forall i :: 0 <= i < n ==> !IsSpace(s[i])
    ensures n < |s| ==> IsSpace(s[n])
  {
    if s == [] || IsSpace(s[0]) then 0 else 1 + RunLength(s[1..])
  }

  /** The words of `s`: its maximal runs of non-whitespace characters, in order. */
  function Words(s: string): (ws: seq<string>)
    ensures forall i :: 0 <= i < |ws| ==> IsWord(ws[i])
    decreases |s|
  {
    if s == [] then []
    else if IsSpace(s[0]) then Words(s[1..])
    else
      var n := RunLength(s);
      [s[..n]] + Words(s[n..])
  }

  /** `countWords` (Firefox/popup.js:32-33, popup.js:30-31). */
  function CountWords(s: string): (n: nat)
    ensures n == 0 <==> AllSpace(s)
  {
    WordsEmptyIffAllSpace(s);
    |Words(s)|
  }

  lemma {:induction false} WordsEmptyIffAllSpace(s: string)
    ensures Words(s) == [] <==> AllSpace(s)
    decreases |s|
  {
    if s != [] && IsSpace(s[0]) {
      WordsEmptyIffAllSpace(s[1..]);
      if AllSpace(s[1..]) {
        forall i | 0 <= i < |s| ensures IsSpace(s[i]) {
          if i > 0 { assert s[i] == s[1..][i - 1]; }
        }
      }
    }
  }

  /** The non-whitespace characters of `s`, in order. */
  function NonSpaceChars(s: string): string {
    if s == [] then [] else (if IsSpace(s[0]) then [] else [s[0]]) + NonSpaceChars(s[1..])
  }

  /** The words written one after the other, with nothing between them. */
  function Concat(ws: seq<string>): string {
    if ws == [] then [] else ws[0] + Concat(ws[1..])
  }

  /** The words, put back together in order, are exactly the non-whitespace characters: none lost, none added, none moved. */
  lemma {:induction false} WordsConcatenate(s: string)
    ensures Concat(Words(s)) == NonSpaceChars(s)
    decreases |s|
  {
    if s != [] && IsSpace(s[0]) {
      WordsConcatenate(s[1..]);
      assert NonSpaceChars(s) == [] + NonSpaceChars(s[1..]);
    } else if s != [] {
      var n := RunLength(s);
      WordsConcatenate(s[n..]);
      var ws := Words(s[n..]);
      assert ([s[..n]] + ws)[1..] == ws;
      NonSpaceCharsOfRun(s, n);
    }
  }

  /** A leading run without whitespace is kept whole. */
  lemma {:induction false} NonSpaceCharsOfRun(s: string, k: nat)
    requires k <= |s|
    requires forall i :: 0 <= i < k ==> !IsSpace(s[i])
    ensures NonSpaceChars(s) == s[..k] + NonSpaceChars(s[k..])
    decreases k
  {
    if k > 0 {
      NonSpaceCharsOfRun(s[1..], k - 1);
      assert s[1..][k - 1..] == s[k..];
      assert s[..k] == [s[0]] + s[1..][..k - 1];
      Assoc([s[0]], s[1..][..k - 1], NonSpaceChars(s[k..]));
    } else {
      assert s[..0] + NonSpaceChars(s[0..]) == NonSpaceChars(s[0..]);
      assert s[0..] == s;
    }
  }

  /** Concatenation is associative; stated so proofs can regroup without extensionality. */
  lemma Assoc(a: string, b: string, c: string)
    ensures a + b + c == a + (b + c)
  {
  }

  /** A non-empty trimmed text has at least one word. */
  lemma TrimmedHasWord(s: string)
    requires Trim(s) != []
    ensures CountWords(Trim(s)) >= 1
  {
  }

  // -------------------------------------------------- reference definition

  /**
   * Independent reading of "number of words": the number of positions that
   * hold a non-whitespace character preceded by whitespace or by the start of
   * the text. `afterSpace` says whether the character before `s` was whitespace.
   */
  function RunStarts(s: string, afterSpace: bool): nat
    decreases |s|
  {
    if s == [] then 0
    else (if afterSpace && !IsSpace(s[0]) then 1 else 0) + RunStarts(s[1..], IsSpace(s[0]))
  }

  lemma {:induction false} RunStartsInsideRun(s: string, n: nat)
    requires 1 <= n <= |s|
    requires forall i :: 0 <= i < n ==> !IsSpace(s[i])
    ensures RunStarts(s, false) == RunStarts(s[n..], false)
    decreases n
  {
    if n > 1 {
      RunStartsInsideRun(s[1..], n - 1);
      assert s[1..][n - 1..] == s[n..];
    }
  }

  /** `countWords` counts exactly the starts of non-whitespace runs. */
  lemma {:induction false} CountWordsIsRunStarts(s: string)
    ensures CountWords(s) == RunStarts(s, true)
    decreases |s|
  {
    if s == [] {
    } else if IsSpace(s[0]) {
      CountWordsIsRunStarts(s[1..]);
    } else {
      var n := RunLength(s);
      CountWordsIsRunStarts(s[n..]);
      assert RunStarts(s, true) == 1 + RunStarts(s[1..], false);
      if n > 1 {
        RunStartsInsideRun(s[1..], n - 1);
        assert s[1..][n - 1..] == s[n..];
      }
      assert RunStarts(s[1..], false) == RunStarts(s[n..], true) by {
        if n == 1 {
        } else if n < |s| {
          assert s[n..] == [s[n]] + s[n + 1..];
          assert IsSpace(s[n]);
        }
      }
    }
  }

  // -------------------------------------------------------------- joining

  /** `words.join(" ")`. */
  function Join(ws: seq<string>): string
    decreases |ws|
  {
    if |ws| == 0 then []
    else if |ws| == 1 then ws[0]
    else ws[0] + " " + Join(ws[1..])
  }

  lemma {:induction false} RunLengthOfWord(w: string, rest: string)
    requires NoSpace(w)
    requires rest == [] || IsSpace(rest[0])
    ensures RunLength(w + rest) == |w|
    decreases |w|
  {
    if w != [] {
      assert (w + rest)[1..] == w[1..] + rest;
      RunLengthOfWord(w[1..], rest);
    }
  }

  /** A word followed by whitespace (or nothing) is the first word of the text. */
  lemma WordsOfWordThen(w: string, rest: string)
    requires IsWord(w)
    requires rest == [] || IsSpace(rest[0])
    ensures Words(w + rest) == [w] + Words(rest)
  {
    RunLengthOfWord(w, rest);
    assert (w + rest)[..|w|] == w;
    assert (w + rest)[|w|..] == rest;
  }

  /**
   * Splitting the joined words with `"..."` appended gives back the words,
   * the ellipsis glued to the last one.
   */
  lemma {:induction false} WordsOfJoinWithEllipsis(ws: seq<string>)
    requires |ws| >= 1
    requires forall i :: 0 <= i < |ws| ==> IsWord(ws[i])
    ensures Words(Join(ws) + "...") == ws[..|ws| - 1] + [ws[|ws| - 1] + "..."]
    decreases |ws|
  {
    if |ws| == 1 {
      WordWithEllipsis(ws[0]);
      WordsOfWordThen(ws[0] + "...", []);
      assert ws[0] + "..." + [] == Join(ws) + "...";
      assert ws[..0] == [];
    } else {
      WordsOfJoinWithEllipsis(ws[1..]);
      JoinWithEllipsisStep(ws);
    }
  }

  /** The inductive step of WordsOfJoinWithEllipsis: peel off the first word. */
  lemma JoinWithEllipsisStep(ws: seq<string>)
    requires |ws| >= 2
    requires IsWord(ws[0])
    requires Words(Join(ws[1..]) + "...") == ws[1..][..|ws| - 2] + [ws[|ws| - 1] + "..."]
    ensures Words(Join(ws) + "...") == ws[..|ws| - 1] + [ws[|ws| - 1] + "..."]
  {
    var tail := Join(ws[1..]) + "...";
    JoinUnfold(ws);
    WordsOfWordSpaceThen(ws[0], tail);
    ConsSnoc(ws, ws[|ws| - 1] + "...");
  }

  lemma ConsSnoc<T>(ws: seq<T>, last: T)
    requires |ws| >= 2
    ensures [ws[0]] + (ws[1..][..|ws| - 2] + [last]) == ws[..|ws| - 1] + [last]
  {
    assert ws[..|ws| - 1] == [ws[0]] + ws[1..][..|ws| - 2];
  }

  lemma JoinUnfold(ws: seq<string>)
    requires |ws| >= 2
    ensures Join(ws) + "..." == ws[0] + ([' '] + (Join(ws[1..]) + "..."))
  {
  }

  /** A word, a space, then anything: the word comes first and the space is skipped. */
  lemma WordsOfWordSpaceThen(w: string, tail: string)
    requires IsWord(w)
    ensures Words(w + ([' '] + tail)) == [w] + Words(tail)
  {
    var spaced := [' '] + tail;
    assert IsSpace(spaced[0]) && spaced[1..] == tail;
    WordsOfWordThen(w, spaced);
  }

  lemma WordWithEllipsis(w: string)
    requires IsWord(w)
    ensures IsWord(w + "...")
  {
    var x := w + "...";
    forall i | 0 <= i < |x| ensures !IsSpace(x[i]) {
      if i < |w| { assert x[i] == w[i]; }
    }
  }
}
