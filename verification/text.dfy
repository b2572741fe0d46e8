/** Character-level helpers standing in for Python's `str` methods. */
module Text {

  /** `c.lower()` for the ASCII letters; every other character is left as is. */
  function LowerChar(c: char): char {
    if 'A' <= c <= 'Z' then (c as int + 32) as char else c
  }

  /** `s.lower()`, restricted to the ASCII fold of LowerChar. */
  function Lower(s: string): (r: string)
    ensures |r| == |s|
    ensures forall i :: 0 <= i < |s| ==> r[i] == LowerChar(s[i])
  {
    if s == [] then [] else [LowerChar(s[0])] + Lower(s[1..])
  }

  /** `sub` occurs in `s` starting at position `i`. */
  predicate OccursAt(s: string, sub: string, i: nat) {
    i + |sub| <= |s| && s[i..i + |sub|] == sub
  }

  /** `s.endswith(tail)`. */
  predicate EndsWith(s: string, tail: string) {
    |tail| <= |s| && s[|s| - |tail|..] == tail
  }

  /** `sub in s` for strings: `sub` occurs as a contiguous block of `s`. */
  predicate Contains(s: string, sub: string) {
    exists i: nat | i <= |s| - |sub| :: OccursAt(s, sub, i)
  }

  /** `sep.join(parts)`. */
  function Join(parts: seq<string>, sep: string): string {
    if |parts| == 0 then ""
    else if |parts| == 1 then parts[0]
    else parts[0] + sep + Join(parts[1..], sep)
  }

  lemma JoinSnoc(parts: seq<string>, last: string, sep: string)
    requires |parts| > 0
    ensures Join(parts + [last], sep) == Join(parts, sep) + sep + last
  {
    if |parts| == 1 {
      assert parts + [last] == [parts[0], last];
    } else {
      assert (parts + [last])[1..] == parts[1..] + [last];
      JoinSnoc(parts[1..], last, sep);
    }
  }

  /**
   * The characters `str.split()` treats as whitespace: the ASCII separators,
   * the information separators U+001C..U+001F, U+0085, U+00A0, U+1680, the
   * Unicode spaces U+2000..U+200A, the line and paragraph separators, U+202F,
   * U+205F and U+3000.
   */
  const Whitespace: set<char> := {
    ' ', '\t', '\n', '\r', '\U{B}', '\U{C}',
    '\U{1C}', '\U{1D}', '\U{1E}', '\U{1F}',
    '\U{85}', '\U{A0}', '\U{1680}',
    '\U{2000}', '\U{2001}', '\U{2002}', '\U{2003}', '\U{2004}', '\U{2005}',
    '\U{2006}', '\U{2007}', '\U{2008}', '\U{2009}', '\U{200A}',
    '\U{2028}', '\U{2029}', '\U{202F}', '\U{205F}', '\U{3000}'}

  /** `c.isspace()`. */
  predicate IsSpace(c: char) {
    c in Whitespace
  }

  /** Number of leading characters of `s` that are not whitespace. */
  function WordLength(s: string): (n: nat)
    ensures n <= |s|
    ensures forall i :: 0 <= i < n ==> !IsSpace(s[i])
    ensures n < |s| ==> IsSpace(s[n])
  {
    if s == [] || IsSpace(s[0]) then 0 else 1 + WordLength(s[1..])
  }

  /** The string is whitespace only (or empty). */
  predicate AllSpace(w: string) {
    forall i :: 0 <= i < |w| ==> IsSpace(w[i])
  }

  /** `s` with every whitespace character removed. */
  function NonSpace(s: string): string
    decreases |s|
  {
    if s == [] then [] else (if IsSpace(s[0]) then [] else [s[0]]) + NonSpace(s[1..])
  }

  /** The strings of `ws` run together. */
  function Concat(ws: seq<string>): string
    decreases |ws|
  {
    if ws == [] then [] else ws[0] + Concat(ws[1..])
  }

  /** A leading block without whitespace survives NonSpace whole. */
  lemma {:induction false} NonSpaceWord(s: string, n: nat)
    requires n <= |s|
    requires forall i :: 0 <= i < n ==> !IsSpace(s[i])
    ensures NonSpace(s) == s[..n] + NonSpace(s[n..])
    decreases n
  {
    if n > 0 {
      NonSpaceWord(s[1..], n - 1);
      assert s[1..][n - 1..] == s[n..];
      assert s[..n] == [s[0]] + s[1..][..n - 1];
    }
  }

  /**
   * `s.split()`: the maximal runs of non-whitespace characters, in order. No
   * non-whitespace character is lost or invented: run together, the words are
   * `s` without its whitespace.
   */
  function Split(s: string): (words: seq<string>)
    ensures forall w :: w in words ==> w != [] && forall i :: 0 <= i < |w| ==> !IsSpace(w[i])
    ensures Concat(words) == NonSpace(s)
    decreases |s|
  {
    if s == [] then []
    else if IsSpace(s[0]) then Split(s[1..])
    else
      var n := WordLength(s);
      var rest := Split(s[n..]);
      NonSpaceWord(s, n);
      assert ([s[..n]] + rest)[1..] == rest;
      [s[..n]] + rest
  }

  /**
   * The whitespace runs around the words of `Split(s)`: the run before the
   * first word, then the run after each word.
   */
  function Gaps(s: string): (gaps: seq<string>)
    ensures |gaps| == |Split(s)| + 1
    decreases |s|
  {
    if s == [] then [""]
    else if IsSpace(s[0]) then
      var g := Gaps(s[1..]);
      [[s[0]] + g[0]] + g[1..]
    else
      [""] + Gaps(s[WordLength(s)..])
  }

  /**
   * Every gap is whitespace, a leading space opens the first gap, and every
   * gap between two words is non-empty.
   */
  lemma {:induction false} GapsSeparate(s: string)
    ensures GapsShaped(s)
    decreases |s|
  {
    if s == [] {
    } else if IsSpace(s[0]) {
      GapsSeparate(s[1..]);
      LeadingSpaceGaps(s);
    } else {
      GapsSeparate(s[WordLength(s)..]);
      LeadingWordGaps(s);
    }
  }

  /** The shape GapsSeparate establishes. */
  predicate GapsShaped(s: string) {
    && (forall k :: 0 <= k < |Gaps(s)| ==> AllSpace(Gaps(s)[k]))
    && (s != [] && IsSpace(s[0]) ==> Gaps(s)[0] != [])
    && (forall k :: 0 < k < |Split(s)| ==> Gaps(s)[k] != [])
  }

  lemma LeadingSpaceGaps(s: string)
    requires s != [] && IsSpace(s[0]) && GapsShaped(s[1..])
    ensures GapsShaped(s)
  {
    var g := Gaps(s[1..]);
    assert Gaps(s) == [[s[0]] + g[0]] + g[1..] && Split(s) == Split(s[1..]);
    SpaceJoinsFirstGap(s[0], g, |Split(s)|);
  }

  lemma LeadingWordGaps(s: string)
    requires s != [] && !IsSpace(s[0]) && GapsShaped(s[WordLength(s)..])
    ensures GapsShaped(s)
  {
    var n := WordLength(s);
    var ws := Split(s[n..]);
    LeadingWordUnfolds(s);
    if ws != [] {
      assert s[n..] != [] && IsSpace(s[n..][0]);
    }
    EmptyGapBeforeWord(Gaps(s[n..]), |ws|);
  }

  lemma SpaceJoinsFirstGap(c: char, gaps: seq<string>, m: nat)
    requires IsSpace(c) && |gaps| == m + 1
    requires forall k :: 0 <= k < |gaps| ==> AllSpace(gaps[k])
    requires forall k :: 0 < k < m ==> gaps[k] != []
    ensures var r := [[c] + gaps[0]] + gaps[1..];
            && (forall k :: 0 <= k < |r| ==> AllSpace(r[k]))
            && r[0] != []
            && (forall k :: 0 < k < m ==> r[k] != [])
  {
    var r := [[c] + gaps[0]] + gaps[1..];
    assert forall k :: 0 < k < |r| ==> r[k] == gaps[k];
  }

  lemma EmptyGapBeforeWord(gaps: seq<string>, m: nat)
    requires |gaps| == m + 1
    requires forall k :: 0 <= k < |gaps| ==> AllSpace(gaps[k])
    requires m > 0 ==> gaps[0] != []
    requires forall k :: 0 < k < m ==> gaps[k] != []
    ensures var r := [""] + gaps;
            && (forall k :: 0 <= k < |r| ==> AllSpace(r[k]))
            && (forall k :: 0 < k < m + 1 ==> r[k] != [])
  {
    var r := [""] + gaps;
    assert forall k :: 0 < k < |r| ==> r[k] == gaps[k - 1];
  }

  /** Gaps and words taken alternately, starting and ending with a gap. */
  function Interleave(gaps: seq<string>, words: seq<string>): string
    requires |gaps| == |words| + 1
    decreases |words|
  {
    if words == [] then gaps[0] else gaps[0] + words[0] + Interleave(gaps[1..], words[1..])
  }

  /**
   * Maximality: `s` is its gaps and words taken alternately, where every gap is
   * whitespace and every gap between two words is non-empty, so no two words
   * of the split are adjacent in `s` and no word could be longer.
   */
  lemma {:induction false} SplitRebuilds(s: string)
    ensures Interleave(Gaps(s), Split(s)) == s
    decreases |s|
  {
    if s == [] {
    } else if IsSpace(s[0]) {
      SplitRebuilds(s[1..]);
      LeadingSpaceRebuilds(s);
    } else {
      SplitRebuilds(s[WordLength(s)..]);
      LeadingWordRebuilds(s);
    }
  }

  /** A leading word is the first word, after an empty first gap. */
  lemma LeadingWordRebuilds(s: string)
    requires s != [] && !IsSpace(s[0])
    requires Interleave(Gaps(s[WordLength(s)..]), Split(s[WordLength(s)..])) == s[WordLength(s)..]
    ensures Interleave(Gaps(s), Split(s)) == s
  {
    var n := WordLength(s);
    LeadingWordUnfolds(s);
    SplitAt(s, n);
    WordBeforeGaps(s[..n], s[n..], s, Gaps(s[n..]), Split(s[n..]), Gaps(s), Split(s));
  }

  lemma SplitAt(s: string, n: nat)
    requires n <= |s|
    ensures s[..n] + s[n..] == s
  {
  }

  lemma LeadingWordUnfolds(s: string)
    requires s != [] && !IsSpace(s[0])
    ensures Gaps(s) == [""] + Gaps(s[WordLength(s)..])
    ensures Split(s) == [s[..WordLength(s)]] + Split(s[WordLength(s)..])
  {
  }

  lemma WordBeforeGaps(w: string, rest: string, s: string, gaps: seq<string>, words: seq<string>, gaps': seq<string>, words': seq<string>)
    requires |gaps| == |words| + 1 && Interleave(gaps, words) == rest
    requires gaps' == [""] + gaps && words' == [w] + words && s == w + rest
    ensures Interleave(gaps', words') == s
  {
    assert gaps'[1..] == gaps;
    assert words'[1..] == words;
  }

  /** A leading space joins the first gap. */
  lemma LeadingSpaceRebuilds(s: string)
    requires s != [] && IsSpace(s[0])
    requires Interleave(Gaps(s[1..]), Split(s[1..])) == s[1..]
    ensures Interleave(Gaps(s), Split(s)) == s
  {
    var g, ws := Gaps(s[1..]), Split(s[1..]);
    assert Gaps(s) == [[s[0]] + g[0]] + g[1..] && Split(s) == ws by {
      assert IsSpace(s[0]);
    }
    PrependToFirstGap(s[0], g, ws);
    assert s == [s[0]] + s[1..];
  }

  lemma PrependToFirstGap(c: char, gaps: seq<string>, words: seq<string>)
    requires |gaps| == |words| + 1
    ensures Interleave([[c] + gaps[0]] + gaps[1..], words) == [c] + Interleave(gaps, words)
  {
    var g' := [[c] + gaps[0]] + gaps[1..];
    assert g'[0] == [c] + gaps[0] && g'[1..] == gaps[1..];
    if words != [] {
      var rest := Interleave(gaps[1..], words[1..]);
      calc {
        Interleave(g', words);
        g'[0] + words[0] + Interleave(g'[1..], words[1..]);
        ([c] + gaps[0]) + words[0] + rest;
        { ConsAssoc3(c, gaps[0], words[0], rest); }
        [c] + (gaps[0] + words[0] + rest);
        [c] + Interleave(gaps, words);
      }
    }
  }

  lemma ConsAssoc3(c: char, a: string, b: string, d: string)
    ensures ([c] + a) + b + d == [c] + (a + b + d)
  {
  }

  /** The set of whitespace-separated words, as `set(s.split())` builds it. */
  function WordSet(s: string): (ws: set<string>)
    ensures forall w :: w in ws <==> w in Split(s)
  {
    set w | w in Split(s)
  }

  /** A non-empty run of non-whitespace characters: what `str.split()` yields. */
  predicate IsWord(w: string) {
    w != [] && forall i :: 0 <= i < |w| ==> !IsSpace(w[i])
  }

  /** A word followed by nothing or by whitespace splits off as the first word. */
  lemma SplitLeadingWord(w: string, t: string)
    requires IsWord(w) && (t == [] || IsSpace(t[0]))
    ensures Split(w + t) == [w] + Split(t)
  {
    var s := w + t;
    assert s[..|w|] == w && s[|w|..] == t;
  }

  /**
   * Words joined by single spaces split back into the same words: `split`
   * undoes `" ".join` on words without whitespace.
   */
  lemma {:induction false} SplitJoin(words: seq<string>)
    requires forall i :: 0 <= i < |words| ==> IsWord(words[i])
    ensures Split(Join(words, " ")) == words
    decreases |words|
  {
    if |words| == 1 {
      SplitLeadingWord(words[0], "");
      assert words[0] + "" == words[0];
    } else if |words| > 1 {
      var rest := Join(words[1..], " ");
      assert Join(words, " ") == words[0] + (" " + rest);
      assert (" " + rest)[0] == ' ' && (" " + rest)[1..] == rest;
      SplitLeadingWord(words[0], " " + rest);
      SplitJoin(words[1..]);
      assert [words[0]] + words[1..] == words;
    }
  }

  lemma LowerConcat(a: string, b: string)
    ensures Lower(a + b) == Lower(a) + Lower(b)
  {
    assert forall i :: 0 <= i < |a + b| ==> Lower(a + b)[i] == (Lower(a) + Lower(b))[i];
  }

  /** Lowering is idempotent: a lowered string has no ASCII capital left. */
  lemma LowerIdempotent(s: string)
    ensures Lower(Lower(s)) == Lower(s)
  {
  }

  /** Joining strings that lowering leaves alone gives a string lowering leaves alone. */
  lemma {:induction false} LowerJoin(parts: seq<string>, sep: string)
    requires Lower(sep) == sep
    requires forall i :: 0 <= i < |parts| ==> Lower(parts[i]) == parts[i]
    ensures Lower(Join(parts, sep)) == Join(parts, sep)
    decreases |parts|
  {
    if |parts| > 1 {
      LowerJoin(parts[1..], sep);
      LowerConcat(parts[0], sep);
      LowerConcat(parts[0] + sep, Join(parts[1..], sep));
    }
  }
}