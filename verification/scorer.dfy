/**
 * The comment relevance heuristic. Scores are integer tenths (0..10) so that
 * the bonuses 0.3, 0.2 and 0.1 add up exactly.
 */
module Scorer {
  import opened Wrappers
  import opened Text
  import opened Models

  /** The fixed reaction keywords; each is worth one tenth. */
  const Keywords: seq<string> := ["好き", "かわいい", "かっこいい", "すごい", "面白い", "笑", "www", "草"]

  /** The cap, 1.0. */
  const MaxTenths: nat := 10

  /** 0.3 for a lowered text whose length lies in [10, 100]. */
  function LengthBonus(t: string): nat {
    if 10 <= |t| <= 100 then 3 else 0
  }

  /** 0.2 when an ASCII or a full-width question mark occurs. */
  function QuestionBonus(t: string): nat {
    if '?' in t || '？' in t then 2 else 0
  }

  /** The distinct keywords that occur in `t`. */
  function MatchedKeywords(t: string): set<string> {
    set k | k in Keywords && Contains(t, k)
  }

  /** The bonus sum before capping, for an already lowered text. */
  function UncappedTenths(t: string): (r: nat)
    ensures r <= 13
  {
    SetOfSeqBound(Keywords);
    assert MatchedKeywords(t) <= set k | k in Keywords;
    SubsetCardinality(MatchedKeywords(t), set k | k in Keywords);
    LengthBonus(t) + QuestionBonus(t) + |MatchedKeywords(t)|
  }

  /** The declarative score of a comment text: the capped bonus sum of its lowered form. */
  function ScoreTenths(text: string): (r: nat)
    ensures r <= MaxTenths
    ensures r == Min(UncappedTenths(Lower(text)), MaxTenths)
  {
    var u := UncappedTenths(Lower(text));
    if u <= MaxTenths then u else MaxTenths
  }


  lemma {:induction false} SetOfSeqBound<T>(s: seq<T>)
    ensures |set x | x in s| <= |s|
  {
    if s != [] {
      SetOfSeqBound(s[1..]);
      assert (set x | x in s) == (set x | x in s[1..]) + {s[0]};
    }
  }

  lemma KeywordsDistinct()
    ensures forall i, j :: 0 <= i < j < |Keywords| ==> Keywords[i] != Keywords[j]
  {
  }

  /** The distinct keywords among the first `n` that occur in `t`. */
  function MatchedPrefix(t: string, n: nat): set<string>
    requires n <= |Keywords|
  {
    set k | k in Keywords[..n] && Contains(t, k)
  }

  lemma MatchedPrefixAll(t: string)
    ensures MatchedPrefix(t, |Keywords|) == MatchedKeywords(t)
  {
    assert Keywords[..|Keywords|] == Keywords;
  }

  lemma MatchedPrefixStep(t: string, n: nat)
    requires n < |Keywords|
    ensures Keywords[n] !in MatchedPrefix(t, n)
    ensures Contains(t, Keywords[n]) ==> MatchedPrefix(t, n + 1) == MatchedPrefix(t, n) + {Keywords[n]}
    ensures !Contains(t, Keywords[n]) ==> MatchedPrefix(t, n + 1) == MatchedPrefix(t, n)
  {
    KeywordsDistinct();
    assert Keywords[..n + 1] == Keywords[..n] + [Keywords[n]];
  }

  /**
   * The scoring loop as the source writes it: the length bonus, the question
   * bonus, one tenth per keyword found, then the cap. It agrees with the
   * declarative score, which depends on the comment's text alone.
   */
  method ScoreComment(c: Comment) returns (score: nat)
    ensures score == ScoreTenths(c.text)
    ensures score <= MaxTenths
  {
    var text := Lower(c.text);
    score := 0;
    if 10 <= |text| && |text| <= 100 {
      score := score + 3;
    }
    if '?' in text || '？' in text {
      score := score + 2;
    }
    assert score == LengthBonus(text) + QuestionBonus(text);
    var i := 0;
    while i < |Keywords|
      invariant 0 <= i <= |Keywords|
      invariant score == LengthBonus(text) + QuestionBonus(text) + |MatchedPrefix(text, i)|
    {
      MatchedPrefixStep(text, i);
      if Contains(text, Keywords[i]) {
        score := score + 1;
      }
      i := i + 1;
    }
    MatchedPrefixAll(text);
    assert score == UncappedTenths(text);
    if score > MaxTenths {
      score := MaxTenths;
    }
  }

  /** A character of `sub` that never occurs in `s` rules out `sub in s`. */
  lemma AbsentChar(s: string, sub: string, j: nat)
    requires j < |sub|
    requires sub[j] !in s
    ensures !Contains(s, sub)
  {
    forall i: nat | i <= |s| - |sub|
      ensures !OccursAt(s, sub, i)
    {
      if i + |sub| <= |s| {
        assert s[i..i + |sub|][j] == s[i + j];
        assert s[i + j] in s;
      }
    }
  }

  /** Example: "かわいい？" is too short for the length bonus and scores exactly 0.3. */
  lemma KawaiiQuestionScoresThreeTenths()
    ensures ScoreTenths("かわいい？") == 3
  {
    var t := "かわいい？";
    assert Lower(t) == t;
    KawaiiOnlyKeyword();
    assert '？' == t[4];
  }

  /** Of the eight keywords, only "かわいい" occurs in "かわいい？". */
  lemma KawaiiOnlyKeyword()
    ensures MatchedKeywords("かわいい？") == {"かわいい"}
  {
    var t := "かわいい？";
    assert OccursAt(t, "かわいい", 0);
    NoOtherKeywordInKawaii();
  }

  lemma NoOtherKeywordInKawaii()
    ensures var t := "かわいい？";
            && !Contains(t, "好き") && !Contains(t, "かっこいい") && !Contains(t, "すごい") && !Contains(t, "面白い")
            && !Contains(t, "笑") && !Contains(t, "www") && !Contains(t, "草")
  {
    var t := "かわいい？";
    AbsentChar(t, "好き", 0);
    AbsentChar(t, "かっこいい", 1);
    AbsentChar(t, "すごい", 0);
    AbsentChar(t, "面白い", 0);
    AbsentChar(t, "笑", 0);
    AbsentChar(t, "www", 0);
    AbsentChar(t, "草", 0);
  }

  /** Keyword matching happens after lowering, so an upper-case "WWW" hits "www". */
  lemma UpperCaseLaughMatches(t: string)
    requires Contains(t, "WWW")
    ensures "www" in MatchedKeywords(Lower(t))
  {
    var i: nat :| i <= |t| - 3 && OccursAt(t, "WWW", i);
    var l := Lower(t);
    var w := t[i..i + 3];
    assert w == "WWW";
    assert w[0] == 'W' && w[1] == 'W' && w[2] == 'W';
    assert t[i] == w[0] && t[i + 1] == w[1] && t[i + 2] == w[2];
    assert l[i..i + 3] == "www";
    assert OccursAt(l, "www", i);
  }

  lemma NoKeywordHasSpace()
    ensures forall k :: k in Keywords ==> ' ' !in k
  {
  }

  lemma OccursLeft(a: string, b: string, k: string, i: nat)
    requires OccursAt(a, k, i)
    ensures OccursAt(a + " " + b, k, i)
  {
    assert (a + " " + b)[i..i + |k|] == a[i..i + |k|];
  }

  lemma OccursRight(a: string, b: string, k: string, i: nat)
    requires OccursAt(b, k, i)
    ensures OccursAt(a + " " + b, k, i + |a| + 1)
  {
    var j := i + |a| + 1;
    assert (a + " " + b)[j..j + |k|] == b[i..i + |k|];
  }

  /** An occurrence in `a + " " + b` lies within `a`, within `b`, or covers the space. */
  lemma OccursSplit(a: string, b: string, k: string, i: nat)
    requires OccursAt(a + " " + b, k, i)
    ensures || OccursAt(a, k, i)
            || (i > |a| && OccursAt(b, k, i - |a| - 1))
            || ' ' in k
  {
    var t := a + " " + b;
    if i + |k| <= |a| {
      assert t[i..i + |k|] == a[i..i + |k|];
    } else if i > |a| {
      assert t[i..i + |k|] == b[i - |a| - 1..i - |a| - 1 + |k|];
    } else {
      assert k[|a| - i] == t[|a|];
    }
  }

  lemma ContainsAcrossSpace(a: string, b: string, k: string)
    requires ' ' !in k
    ensures Contains(a + " " + b, k) <==> Contains(a, k) || Contains(b, k)
  {
    var t := a + " " + b;
    if Contains(t, k) {
      var i: nat :| i <= |t| - |k| && OccursAt(t, k, i);
      OccursSplit(a, b, k, i);
    }
    if Contains(a, k) {
      var i: nat :| i <= |a| - |k| && OccursAt(a, k, i);
      OccursLeft(a, b, k, i);
    }
    if Contains(b, k) {
      var i: nat :| i <= |b| - |k| && OccursAt(b, k, i);
      OccursRight(a, b, k, i);
    }
  }

  /**
   * Keywords contain no space, so none straddles a separating space: the
   * keywords of `a + " " + b` are those of `a` together with those of `b`.
   */
  lemma MatchedAcrossSpace(a: string, b: string)
    ensures MatchedKeywords(a + " " + b) == MatchedKeywords(a) + MatchedKeywords(b)
  {
    NoKeywordHasSpace();
    forall k | k in Keywords
      ensures Contains(a + " " + b, k) <==> Contains(a, k) || Contains(b, k)
    {
      ContainsAcrossSpace(a, b, k);
    }
  }

  /** Each keyword adds 0.1 at most once: repeating the text adds no keyword bonus. */
  lemma RepeatedKeywordsCountOnce(text: string)
    ensures MatchedKeywords(Lower(text + " " + text)) == MatchedKeywords(Lower(text))
  {
    LowerConcat(text + " ", text);
    LowerConcat(text, " ");
    assert Lower(" ") == " ";
    MatchedAcrossSpace(Lower(text), Lower(text));
  }
}
