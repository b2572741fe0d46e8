/**
 * The lexical memory searcher: Jaccard similarity over lower-cased word sets,
 * a stable sort by descending score, and top-k truncation.
 */
module MemorySearch {
  import opened Wrappers
  import opened Text
  import opened Models

  /** One stored entry of the "triples" list. */
  datatype StoredTriple = StoredTriple(triple: string, text: string, timestamp: string)

  datatype MemorySearcher = MemorySearcher(triples: seq<StoredTriple>)

  /** The word set `set(s.lower().split())`. */
  function WordsOf(s: string): (ws: set<string>)
    ensures forall w :: w in ws ==> IsWord(w)
  {
    WordSet(Lower(s))
  }

  /** Case does not matter: a text and its lowered form have the same words. */
  lemma WordsOfCaseInsensitive(s: string)
    ensures WordsOf(Lower(s)) == WordsOf(s)
  {
    LowerIdempotent(s);
  }

  /** A text of lower-case words separated by single spaces has exactly those words. */
  lemma WordsOfJoin(words: seq<string>)
    requires forall i :: 0 <= i < |words| ==> IsWord(words[i]) && Lower(words[i]) == words[i]
    ensures WordsOf(Join(words, " ")) == set w | w in words
  {
    assert Lower(" ") == " ";
    LowerJoin(words, " ");
    SplitJoin(words);
  }


  /**
   * Jaccard similarity |Q ∩ T| / |Q ∪ T| of the two word sets, and 0 when both
   * are empty. The result is a proper fraction in [0, 1].
   */
  function Similarity(query: string, text: string): (r: Ratio)
    ensures r.InUnitInterval()
    ensures r.num == |WordsOf(query) * WordsOf(text)|
    ensures |WordsOf(query) + WordsOf(text)| > 0 ==> r.den == |WordsOf(query) + WordsOf(text)|
  {
    var q := WordsOf(query);
    var t := WordsOf(text);
    SubsetCardinality(q * t, q + t);
    if |q + t| > 0 then Ratio(|q * t|, |q + t|)
    else
      assert q * t == {};
      Ratio(0, 1)
  }

  /** Similarity does not depend on which side is the query. */
  lemma SimilaritySymmetric(a: string, b: string)
    ensures Similarity(a, b) == Similarity(b, a)
  {
    assert WordsOf(a) * WordsOf(b) == WordsOf(b) * WordsOf(a);
    assert WordsOf(a) + WordsOf(b) == WordsOf(b) + WordsOf(a);
  }

  /** A text with at least one word is fully similar to itself. */
  lemma SelfSimilarityIsOne(s: string)
    requires WordsOf(s) != {}
    ensures Similarity(s, s).num == Similarity(s, s).den
  {
    assert WordsOf(s) * WordsOf(s) == WordsOf(s);
    assert WordsOf(s) + WordsOf(s) == WordsOf(s);
  }

  /** Texts sharing no word have similarity 0. */
  lemma DisjointSimilarityIsZero(a: string, b: string)
    requires WordsOf(a) !! WordsOf(b)
    ensures Similarity(a, b).num == 0
  {
    assert WordsOf(a) * WordsOf(b) == {};
  }

  // ---- ordering of scores ----

  lemma MulMono(x: int, y: int, z: nat)
    requires x >= y
    ensures x * z >= y * z
  {
  }

  lemma MulCancel(x: int, y: int, z: nat)
    requires z > 0 && x * z >= y * z
    ensures x >= y
  {
    if x < y {
      MulMono(y, x + 1, z);
    }
  }

  /** Comparison by cross-multiplication is transitive on fractions with positive denominators. */
  lemma AtLeastTransitive(a: Ratio, b: Ratio, c: Ratio)
    requires a.Valid() && b.Valid() && c.Valid()
    requires AtLeast(a, b) && AtLeast(b, c)
    ensures AtLeast(a, c)
  {
    MulMono(a.num * b.den, b.num * a.den, c.den);
    MulMono(b.num * c.den, c.num * b.den, a.den);
    assert a.num * b.den * c.den == (a.num * c.den) * b.den;
    assert b.num * a.den * c.den == (b.num * c.den) * a.den;
    assert c.num * b.den * a.den == (c.num * a.den) * b.den;
    MulCancel(a.num * c.den, c.num * a.den, b.den);
  }

  /** A scored item tagged with its position in storage. */
  datatype Scored = Scored(index: nat, item: MemoryItem)

  function ScoreOf(x: Scored): Ratio {
    x.item.score
  }

  /**
   * Inserts `x` after every element scoring at least as high, so that later
   * storage entries follow earlier ones of equal score (the sort is stable).
   */
  function Insert(x: Scored, s: seq<Scored>): (r: seq<Scored>)
    ensures multiset(r) == multiset(s) + multiset{x}
    ensures |r| == |s| + 1
  {
    if s == [] then [x]
    else if AtLeast(ScoreOf(s[0]), ScoreOf(x)) then
      assert s == [s[0]] + s[1..];
      [s[0]] + Insert(x, s[1..])
    else [x] + s
  }

  /** `sorted(xs, key=score, reverse=True)`: a stable sort by descending score. */
  function SortDescending(xs: seq<Scored>): (r: seq<Scored>)
    ensures multiset(r) == multiset(xs)
    ensures |r| == |xs|
  {
    if xs == [] then []
    else
      assert xs == xs[..|xs| - 1] + [xs[|xs| - 1]];
      Insert(xs[|xs| - 1], SortDescending(xs[..|xs| - 1]))
  }

  predicate SortedDescending(s: seq<Scored>) {
    forall i, j :: 0 <= i < j < |s| ==> AtLeast(ScoreOf(s[i]), ScoreOf(s[j]))
  }

  /** Among equal scores, storage order is kept. */
  predicate TiesInStorageOrder(s: seq<Scored>) {
    forall i, j :: 0 <= i < j < |s| && AtLeast(ScoreOf(s[j]), ScoreOf(s[i])) ==> s[i].index < s[j].index
  }

  predicate AllValid(s: seq<Scored>) {
    forall i :: 0 <= i < |s| ==> ScoreOf(s[i]).Valid()
  }

  lemma InMultiset(x: Scored, s: seq<Scored>)
    requires x in multiset(s)
    ensures exists k :: 0 <= k < |s| && s[k] == x
  {
    assert x in s;
  }

  /** A head that dominates a sorted tail, and precedes its ties in storage, keeps the sequence sorted. */
  lemma ConsSorted(h: Scored, t: seq<Scored>)
    requires SortedDescending(t) && TiesInStorageOrder(t) && AllValid(t)
    requires ScoreOf(h).Valid()
    requires forall j :: 0 <= j < |t| ==> AtLeast(ScoreOf(h), ScoreOf(t[j]))
    requires forall j :: 0 <= j < |t| && AtLeast(ScoreOf(t[j]), ScoreOf(h)) ==> h.index < t[j].index
    ensures SortedDescending([h] + t) && TiesInStorageOrder([h] + t) && AllValid([h] + t)
  {
    var r := [h] + t;
    forall i, j | 0 <= i < j < |r|
      ensures AtLeast(ScoreOf(r[i]), ScoreOf(r[j]))
      ensures AtLeast(ScoreOf(r[j]), ScoreOf(r[i])) ==> r[i].index < r[j].index
    {
      assert r[j] == t[j - 1];
      if i > 0 {
        assert r[i] == t[i - 1];
      }
    }
    forall i | 0 <= i < |r|
      ensures ScoreOf(r[i]).Valid()
    {
      if i > 0 {
        assert r[i] == t[i - 1];
      }
    }
  }

  lemma {:induction false} InsertSorted(x: Scored, s: seq<Scored>)
    requires SortedDescending(s) && TiesInStorageOrder(s) && AllValid(s)
    requires ScoreOf(x).Valid()
    requires forall k :: 0 <= k < |s| ==> s[k].index < x.index
    ensures SortedDescending(Insert(x, s)) && TiesInStorageOrder(Insert(x, s)) && AllValid(Insert(x, s))
  {
    if s == [] {
    } else if AtLeast(ScoreOf(s[0]), ScoreOf(x)) {
      var rest := Insert(x, s[1..]);
      InsertSorted(x, s[1..]);
      forall j | 0 <= j < |rest|
        ensures AtLeast(ScoreOf(s[0]), ScoreOf(rest[j]))
        ensures AtLeast(ScoreOf(rest[j]), ScoreOf(s[0])) ==> s[0].index < rest[j].index
      {
        assert rest[j] in multiset(rest);
        if rest[j] != x {
          InMultiset(rest[j], s[1..]);
          var k :| 0 <= k < |s[1..]| && s[1..][k] == rest[j];
          assert s[k + 1] == rest[j];
        }
      }
      ConsSorted(s[0], rest);
      assert Insert(x, s) == [s[0]] + rest;
    } else {
      forall j | 0 <= j < |s|
        ensures AtLeast(ScoreOf(x), ScoreOf(s[j]))
        ensures !AtLeast(ScoreOf(s[j]), ScoreOf(x))
      {
        assert AtLeast(ScoreOf(s[0]), ScoreOf(s[j]));
        if AtLeast(ScoreOf(s[j]), ScoreOf(x)) {
          AtLeastTransitive(ScoreOf(s[0]), ScoreOf(s[j]), ScoreOf(x));
        }
      }
      ConsSorted(x, s);
      assert Insert(x, s) == [x] + s;
    }
  }

  /** Tagged items whose tags are their positions, with well-formed scores. */
  predicate PositionTagged(xs: seq<Scored>) {
    forall k :: 0 <= k < |xs| ==> xs[k].index == k && ScoreOf(xs[k]).Valid()
  }

  /**
   * The sort yields a permutation of its input in non-increasing score order,
   * with ties in storage order.
   */
  lemma {:induction false} SortDescendingCorrect(xs: seq<Scored>)
    requires PositionTagged(xs)
    ensures SortedDescending(SortDescending(xs))
    ensures TiesInStorageOrder(SortDescending(xs))
    ensures AllValid(SortDescending(xs))
  {
    if xs != [] {
      var n := |xs| - 1;
      var prefix := xs[..n];
      var sorted := SortDescending(prefix);
      SortDescendingCorrect(prefix);
      forall k | 0 <= k < |sorted|
        ensures sorted[k].index < xs[n].index
      {
        assert sorted[k] in multiset(prefix);
        InMultiset(sorted[k], prefix);
      }
      InsertSorted(xs[n], sorted);
    }
  }

  /** The hit `search_memory` builds for one stored entry. */
  function ItemFor(query: string, t: StoredTriple): MemoryItem {
    MemoryItem(t.triple, t.text, Similarity(query, t.text))
  }

  /** Every stored entry scored against the query, tagged with its storage position. */
  function ScoredEntries(m: MemorySearcher, query: string): (r: seq<Scored>)
    ensures PositionTagged(r) && |r| == |m.triples|
    ensures forall k :: 0 <= k < |r| ==> r[k].item == ItemFor(query, m.triples[k])
  {
    seq(|m.triples|, k requires 0 <= k < |m.triples| => Scored(k, ItemFor(query, m.triples[k])))
  }

  /** Python's `s[:k]`: a negative `k` drops that many elements from the end. */
  function SliceTo<T>(s: seq<T>, k: int): (r: seq<T>)
    ensures |r| <= |s| && r == s[..|r|]
    ensures k >= 0 ==> |r| == Min(k, |s|)
    ensures k < 0 ==> |r| == Max(0, |s| + k)
  {
    if k >= 0 then (if k >= |s| then s else s[..k])
    else if |s| + k <= 0 then []
    else s[..|s| + k]
  }

  /** The ranked hits before truncation. */
  function Ranked(m: MemorySearcher, query: string): seq<Scored> {
    SortDescending(ScoredEntries(m, query))
  }

  /** `search_memory(query, top_k)`. */
  function SearchMemory(m: MemorySearcher, query: string, topK: int): (r: seq<MemoryItem>)
    ensures topK >= 0 ==> |r| == Min(topK, |m.triples|)
    ensures topK < 0 ==> |r| == Max(0, |m.triples| + topK)
    ensures forall i :: 0 <= i < |r| ==> r[i] == Ranked(m, query)[i].item
  {
    var hits := SliceTo(Ranked(m, query), topK);
    seq(|hits|, i requires 0 <= i < |hits| => hits[i].item)
  }

  /**
   * The results come in non-increasing score order; results of equal score
   * keep storage order; each result is the hit of one stored entry, and no
   * entry appears twice.
   */
  lemma SearchMemoryCorrect(m: MemorySearcher, query: string, topK: int)
    ensures var r := SearchMemory(m, query, topK);
            var ranked := Ranked(m, query);
            && (forall i, j :: 0 <= i < j < |r| ==> AtLeast(r[i].score, r[j].score))
            && (forall i, j :: 0 <= i < j < |r| && AtLeast(r[j].score, r[i].score) ==>
                  ranked[i].index < ranked[j].index)
            && (forall i :: 0 <= i < |r| ==>
                  ranked[i].index < |m.triples| && r[i] == ItemFor(query, m.triples[ranked[i].index]))
            && (forall i, j :: 0 <= i < j < |r| ==> ranked[i].index != ranked[j].index)
  {
    RankedCorrect(m, query);
  }

  /** The ranking before truncation: sorted, ties in storage order, one hit per stored entry. */
  lemma RankedCorrect(m: MemorySearcher, query: string)
    ensures var ranked := Ranked(m, query);
            && |ranked| == |m.triples|
            && SortedDescending(ranked) && TiesInStorageOrder(ranked)
            && (forall i :: 0 <= i < |ranked| ==>
                  ranked[i].index < |m.triples| && ranked[i].item == ItemFor(query, m.triples[ranked[i].index]))
            && (forall i, j :: 0 <= i < j < |ranked| ==> ranked[i].index != ranked[j].index)
  {
    var xs := ScoredEntries(m, query);
    var ranked := Ranked(m, query);
    SortDescendingCorrect(xs);
    forall i | 0 <= i < |ranked|
      ensures ranked[i].index < |m.triples| && ranked[i].item == ItemFor(query, m.triples[ranked[i].index])
    {
      assert ranked[i] in multiset(xs);
      InMultiset(ranked[i], xs);
    }
    DistinctIndices(xs, ranked);
  }

  lemma DistinctIndices(xs: seq<Scored>, ys: seq<Scored>)
    requires PositionTagged(xs)
    requires multiset(ys) == multiset(xs)
    ensures forall i, j :: 0 <= i < j < |ys| ==> ys[i].index != ys[j].index
  {
    forall i, j | 0 <= i < j < |ys|
      ensures ys[i].index != ys[j].index
    {
      assert ys[i] in multiset(xs);
      assert ys[j] in multiset(xs);
      InMultiset(ys[i], xs);
      InMultiset(ys[j], xs);
      EqualPairCountsTwice(ys, i, j);
      MultiplicityAtMostOne(xs, ys[i]);
    }
  }

  /** Two equal positions make the element occur at least twice. */
  lemma EqualPairCountsTwice<T>(ys: seq<T>, i: nat, j: nat)
    requires i < j < |ys|
    ensures ys[i] == ys[j] ==> multiset(ys)[ys[i]] >= 2
  {
    assert ys == ys[..j] + [ys[j]] + ys[j + 1..];
    assert ys[..j][i] == ys[i];
  }

  lemma {:induction false} MultiplicityAtMostOne(xs: seq<Scored>, x: Scored)
    requires PositionTagged(xs)
    ensures multiset(xs)[x] <= 1
  {
    if xs != [] {
      var n := |xs| - 1;
      assert xs == xs[..n] + [xs[n]];
      assert PositionTagged(xs[..n]);
      MultiplicityAtMostOne(xs[..n], x);
      if x == xs[n] {
        forall k | 0 <= k < n ensures xs[..n][k] != x {
        }
        assert x !in xs[..n];
      }
    }
  }

  /** Every returned hit scores at least as high as every stored entry left out. */
  lemma TopKAreBest(m: MemorySearcher, query: string, topK: int, i: nat, j: nat)
    requires i < j < |m.triples|
    requires topK >= 0 ==> i < topK <= j
    requires topK < 0 ==> i < |m.triples| + topK <= j
    ensures i < |SearchMemory(m, query, topK)| <= j
    ensures AtLeast(SearchMemory(m, query, topK)[i].score, Ranked(m, query)[j].item.score)
  {
    SortDescendingCorrect(ScoredEntries(m, query));
  }

  /** `add_memory` appends one entry at the end and leaves the earlier ones alone. */
  function AddMemory(m: MemorySearcher, triple: string, text: string, now: string): (r: MemorySearcher)
    ensures |r.triples| == |m.triples| + 1
    ensures r.triples[..|m.triples|] == m.triples
    ensures r.triples[|m.triples|] == StoredTriple(triple, text, now)
  {
    MemorySearcher(m.triples + [StoredTriple(triple, text, now)])
  }

  /** `clear_memories` empties the triple list. */
  function ClearMemories(m: MemorySearcher): (r: MemorySearcher)
    ensures r.triples == []
  {
    MemorySearcher([])
  }

  /** After clearing, every search comes back empty. */
  lemma SearchAfterClear(m: MemorySearcher, query: string, topK: int)
    ensures SearchMemory(ClearMemories(m), query, topK) == []
  {
  }
}
