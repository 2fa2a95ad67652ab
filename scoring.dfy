/** The scoring loop `prod.comparison_list` of backend/bert/API/tf_in_use.py.
    Each article is scored by TF-IDF similarity to the query (scaled by 1.25) and by
    sentiment agreement with the query; articles whose scaled similarity is zero or whose
    token list is empty are dropped, and every kept article yields one row (URL, Match).
    The foreign scorers are parameters: `compute_similarity` and `get_sent` are opaque. */
module Scoring {
  import opened Common

  type Tokens = seq<string>

  /** One entry of `articles`: its first element is the token list that is scored. */
  type Article = seq<Tokens>

  /** The foreign scorers. `similarity` is `compute_similarity(query, b)` read at `b[0]`;
      `textSentiment` and `tokenSentiment` are `get_sent` (the BERT positive-class
      probability) applied to the query string and to an article's token list. */
  datatype Scorers = Scorers(
    similarity: (string, Tokens) -> real,
    textSentiment: string -> real,
    tokenSentiment: Tokens -> real)

  /** The empirical factor applied to the raw similarity. */
  const SimilarityWeight: real := 1.25

  function Abs(x: real): (r: real)
    ensures r >= 0.0 && (r == x || r == -x)
  {
    if x < 0.0 then -x else x
  }

  /** Sentiment agreement `1 - abs(articleSent - querySent)`. */
  function Agreement(articleSent: real, querySent: real): (r: real)
    ensures r <= 1.0
    ensures r == 1.0 <==> articleSent == querySent
    ensures 0.0 <= articleSent <= 1.0 && 0.0 <= querySent <= 1.0 ==> 0.0 <= r
  {
    1.0 - Abs(articleSent - querySent)
  }

  lemma AgreementSymmetric(a: real, b: real)
    ensures Agreement(a, b) == Agreement(b, a)
  {
  }

  /** `compute_similarity(self.query, articles[i]) * 1.25`; reading `b[0]` needs a
      non-empty article. */
  function ScaledSimilarity(m: Scorers, query: string, article: Article): real
    requires article != []
  {
    m.similarity(query, article[0]) * SimilarityWeight
  }

  /** The guard `temp != 0 and articles[i][0] != []`. */
  predicate Keeps(m: Scorers, query: string, article: Article)
    requires article != []
  {
    ScaledSimilarity(m, query, article) != 0.0 && article[0] != []
  }

  /** The `Match` reported for a kept article. */
  function MatchScore(m: Scorers, query: string, article: Article): real
    requires article != []
  {
    ScaledSimilarity(m, query, article) * Agreement(m.tokenSentiment(article[0]), m.textSentiment(query))
  }

  predicate NonEmptyBelow(articles: seq<Article>, n: nat)
    requires n <= |articles|
  {
    forall t :: 0 <= t < n ==> articles[t] != []
  }

  /** The indices below `n` that the guard keeps, in increasing order. */
  function KeptIndices(m: Scorers, query: string, articles: seq<Article>, n: nat): (ks: seq<nat>)
    requires n <= |articles| && NonEmptyBelow(articles, n)
    ensures |ks| <= n
    ensures forall k :: 0 <= k < |ks| ==> ks[k] < n
    decreases n
  {
    if n == 0 then []
    else KeptIndices(m, query, articles, n - 1) + (if Keeps(m, query, articles[n - 1]) then [n - 1] else [])
  }

  /** Every index `KeptIndices` lists belongs to an article the guard keeps. */
  lemma {:induction false} KeptIndicesAreKept(m: Scorers, query: string, articles: seq<Article>, n: nat)
    requires n <= |articles| && NonEmptyBelow(articles, n)
    ensures forall k :: 0 <= k < |KeptIndices(m, query, articles, n)| ==>
      Keeps(m, query, articles[KeptIndices(m, query, articles, n)[k]])
    decreases n
  {
    if n > 0 {
      KeptIndicesAreKept(m, query, articles, n - 1);
      var prev := KeptIndices(m, query, articles, n - 1);
      var ks := KeptIndices(m, query, articles, n);
      assert ks == prev + (if Keeps(m, query, articles[n - 1]) then [n - 1] else []);
      forall k | 0 <= k < |ks| ensures Keeps(m, query, articles[ks[k]]) {
        if k < |prev| {
          assert ks[k] == prev[k];
        } else {
          assert ks[k] == n - 1;
        }
      }
    }
  }

  /** `KeptIndices` lists the kept articles in increasing order, without repetition. */
  lemma {:induction false} KeptIndicesIncreasing(m: Scorers, query: string, articles: seq<Article>, n: nat)
    requires n <= |articles| && NonEmptyBelow(articles, n)
    ensures forall k, l :: 0 <= k < l < |KeptIndices(m, query, articles, n)| ==>
      KeptIndices(m, query, articles, n)[k] < KeptIndices(m, query, articles, n)[l]
    decreases n
  {
    if n > 0 {
      KeptIndicesIncreasing(m, query, articles, n - 1);
      var prev := KeptIndices(m, query, articles, n - 1);
      var ks := KeptIndices(m, query, articles, n);
      assert ks == prev + (if Keeps(m, query, articles[n - 1]) then [n - 1] else []);
      forall k, l | 0 <= k < l < |ks| ensures ks[k] < ks[l] {
        assert k < |prev| && ks[k] == prev[k] && prev[k] < n - 1;
        if l < |prev| {
          assert ks[l] == prev[l];
        } else {
          assert ks[l] == n - 1;
        }
      }
    }
  }

  /** Every article below `n` that the guard keeps is listed by `KeptIndices`. */
  lemma {:induction false} KeptIndicesComplete(m: Scorers, query: string, articles: seq<Article>, n: nat)
    requires n <= |articles| && NonEmptyBelow(articles, n)
    ensures forall t :: 0 <= t < n && Keeps(m, query, articles[t]) ==> t in KeptIndices(m, query, articles, n)
    decreases n
  {
    if n > 0 {
      KeptIndicesComplete(m, query, articles, n - 1);
      var prev := KeptIndices(m, query, articles, n - 1);
      var ks := KeptIndices(m, query, articles, n);
      assert ks == prev + (if Keeps(m, query, articles[n - 1]) then [n - 1] else []);
      forall t | 0 <= t < n && Keeps(m, query, articles[t]) ensures t in ks {
        if t < n - 1 {
          assert t in prev;
        } else {
          assert ks[|ks| - 1] == t;
        }
      }
    }
  }

  lemma {:induction false} KeptIndicesGrow(m: Scorers, query: string, articles: seq<Article>, n: nat, n': nat)
    requires n <= n' <= |articles| && NonEmptyBelow(articles, n')
    ensures |KeptIndices(m, query, articles, n)| <= |KeptIndices(m, query, articles, n')|
    decreases n' - n
  {
    if n < n' {
      KeptIndicesGrow(m, query, articles, n, n' - 1);
    }
  }

  /** The IndexError raised by `b[0]` on an empty article, and the one raised by
      `links[j]` when there are fewer links than kept articles. */
  datatype ScoreError = EmptyArticle(index: nat) | NoLinkFor(index: nat, kept: nat)

  /** The returned DataFrame: columns `URL` and `Match`. */
  datatype Frame = Frame(url: seq<string>, matchScore: seq<real>)

  /** The single dict of `res_dic`. */
  datatype ScoreTable = ScoreTable(url: seq<string>, similarity: seq<real>, sentiment: seq<real>)

  /** Python's `<` on two lists of floats: lexicographic, a proper prefix is smaller. */
  predicate LexLess(a: seq<real>, b: seq<real>)
    decreases |a|
  {
    if a == [] then b != []
    else if b == [] then false
    else a[0] < b[0] || (a[0] == b[0] && LexLess(a[1..], b[1..]))
  }

  lemma {:induction false} LexLessIrreflexive(a: seq<real>)
    ensures !LexLess(a, a)
    decreases |a|
  {
    if a != [] {
      LexLessIrreflexive(a[1..]);
    }
  }

  lemma {:induction false} LexLessTransitive(a: seq<real>, b: seq<real>, c: seq<real>)
    requires LexLess(a, b) && LexLess(b, c)
    ensures LexLess(a, c)
    decreases |a|
  {
    if a != [] && a[0] == b[0] && b[0] == c[0] {
      LexLessTransitive(a[1..], b[1..], c[1..]);
    }
  }

  lemma LexLessAsymmetric(a: seq<real>, b: seq<real>)
    requires LexLess(a, b)
    ensures !LexLess(b, a)
  {
    if LexLess(b, a) {
      LexLessTransitive(a, b, a);
      LexLessIrreflexive(a);
    }
  }

  /** Each row's similarity list is not below the next row's. Since `LexLess` is a strict
      order, this is the same as every earlier row being not below every later one. */
  predicate SortedDesc(r: seq<ScoreTable>)
  {
    forall i :: 0 <= i < |r| - 1 ==> !LexLess(r[i].similarity, r[i + 1].similarity)
  }

  /** Inserts `x` after every row whose key is not smaller, as a stable sort does for
      a row that comes later in the input. */
  function InsertDesc(x: ScoreTable, r: seq<ScoreTable>): (ins: seq<ScoreTable>)
    ensures |ins| == |r| + 1
    ensures ins[0] == x || (r != [] && ins[0] == r[0])
  {
    if r == [] then [x]
    else if LexLess(r[0].similarity, x.similarity) then [x] + r
    else [r[0]] + InsertDesc(x, r[1..])
  }

  lemma {:induction false} InsertDescPermutes(x: ScoreTable, r: seq<ScoreTable>)
    ensures multiset(InsertDesc(x, r)) == multiset(r) + multiset{x}
    decreases |r|
  {
    if r != [] {
      assert r == [r[0]] + r[1..];
      if !LexLess(r[0].similarity, x.similarity) {
        InsertDescPermutes(x, r[1..]);
      }
    }
  }

  lemma {:induction false} InsertDescSorted(x: ScoreTable, r: seq<ScoreTable>)
    requires SortedDesc(r)
    ensures SortedDesc(InsertDesc(x, r))
    decreases |r|
  {
    if r == [] {
    } else if LexLess(r[0].similarity, x.similarity) {
      LexLessAsymmetric(r[0].similarity, x.similarity);
      var ins := InsertDesc(x, r);
      forall i | 0 <= i < |ins| - 1 ensures !LexLess(ins[i].similarity, ins[i + 1].similarity) {
        if i > 0 {
          assert ins[i] == r[i - 1] && ins[i + 1] == r[i];
        }
      }
    } else {
      var rest := InsertDesc(x, r[1..]);
      InsertDescSorted(x, r[1..]);
      var ins := InsertDesc(x, r);
      assert ins == [r[0]] + rest;
      forall i | 0 <= i < |ins| - 1 ensures !LexLess(ins[i].similarity, ins[i + 1].similarity) {
        if i > 0 {
          assert ins[i] == rest[i - 1] && ins[i + 1] == rest[i];
        } else if rest[0] != x {
          assert rest[0] == r[1];
        }
      }
    }
  }

  /** `sorted(rows, key=itemgetter('Similarity Match'), reverse=True)`: a stable sort,
      descending by the similarity list. */
  function SortBySimilarityDesc(rows: seq<ScoreTable>): seq<ScoreTable>
    decreases |rows|
  {
    if rows == [] then []
    else InsertDesc(rows[|rows| - 1], SortBySimilarityDesc(rows[..|rows| - 1]))
  }

  /** The sort returns a permutation of its input, ordered by descending similarity list. */
  lemma {:induction false} SortBySimilarityDescCorrect(rows: seq<ScoreTable>)
    ensures multiset(SortBySimilarityDesc(rows)) == multiset(rows)
    ensures SortedDesc(SortBySimilarityDesc(rows))
    decreases |rows|
  {
    if rows != [] {
      var prefix := rows[..|rows| - 1];
      SortBySimilarityDescCorrect(prefix);
      InsertDescPermutes(rows[|rows| - 1], SortBySimilarityDesc(prefix));
      InsertDescSorted(rows[|rows| - 1], SortBySimilarityDesc(prefix));
      assert rows == prefix + [rows[|rows| - 1]];
    }
  }

  /** The sort in `comparison_list` ranges over a list holding one dict, so it hands that
      dict back: kept articles are never reordered by similarity. */
  lemma SortOfOneTable(t: ScoreTable)
    ensures SortBySimilarityDesc([t]) == [t]
  {
    assert [t][..0] == [];
  }

  /** The loop of `prod.comparison_list`: the three parallel lists `sim`, `sent_list` and
      `valid_urls`, one entry per kept article, or the IndexError that stops the loop. */
  method ScoreArticles(m: Scorers, query: string, querySent: real, articles: seq<Article>, links: seq<string>)
    returns (res: Result<ScoreTable, ScoreError>)
    ensures res.Ok? <==>
      NonEmptyBelow(articles, |articles|) && |KeptIndices(m, query, articles, |articles|)| <= |links|
    ensures res.Ok? ==>
      var ks := KeptIndices(m, query, articles, |articles|);
      && |res.value.similarity| == |ks| && |res.value.sentiment| == |ks|
      && res.value.url == links[..|ks|]
      && (forall k :: 0 <= k < |ks| ==> res.value.similarity[k] == ScaledSimilarity(m, query, articles[ks[k]]))
      && forall k :: 0 <= k < |ks| ==>
           res.value.sentiment[k] == Agreement(m.tokenSentiment(articles[ks[k]][0]), querySent)
    ensures res.Err? && res.error.EmptyArticle? ==>
      var e := res.error.index;
      && e < |articles| && articles[e] == [] && NonEmptyBelow(articles, e)
      && |KeptIndices(m, query, articles, e)| <= |links|
    ensures res.Err? && res.error.NoLinkFor? ==>
      var i := res.error.index;
      && i < |articles| && NonEmptyBelow(articles, i + 1) && Keeps(m, query, articles[i])
      && res.error.kept == |KeptIndices(m, query, articles, i)| == |links|
  {
    var sentList: seq<real> := [];
    var validUrls: seq<string> := [];
    var sim: seq<real> := [];
    var j := 0;
    ghost var ks: seq<nat> := [];
    for i := 0 to |articles|
      invariant NonEmptyBelow(articles, i)
      invariant ks == KeptIndices(m, query, articles, i)
      invariant j == |ks| <= |links|
      invariant |sim| == j && |sentList| == j && validUrls == links[..j]
      invariant forall k :: 0 <= k < j ==> sim[k] == ScaledSimilarity(m, query, articles[ks[k]])
      invariant forall k :: 0 <= k < j ==>
        sentList[k] == Agreement(m.tokenSentiment(articles[ks[k]][0]), querySent)
    {
      if articles[i] == [] {
        assert !NonEmptyBelow(articles, |articles|);
        return Err(EmptyArticle(i));
      }
      var temp := m.similarity(query, articles[i][0]) * SimilarityWeight;
      if temp != 0.0 && articles[i][0] != [] {
        sim := sim + [temp];
        var sentSimilarity := 1.0 - Abs(m.tokenSentiment(articles[i][0]) - querySent);
        sentList := sentList + [sentSimilarity];
        if j >= |links| {
          if NonEmptyBelow(articles, |articles|) {
            assert |KeptIndices(m, query, articles, i + 1)| == j + 1;
            KeptIndicesGrow(m, query, articles, i + 1, |articles|);
          }
          return Err(NoLinkFor(i, j));
        }
        validUrls := validUrls + [links[j]];
        j := j + 1;
        ks := ks + [i];
      }
    }
    res := Ok(ScoreTable(validUrls, sim, sentList));
  }

  /** `prod.comparison_list` after `text(...)` has produced `articles` and `links`: the
      frame lists, for the kept articles in input order, their link and their Match. */
  method ComparisonList(m: Scorers, query: string, articles: seq<Article>, links: seq<string>)
    returns (res: Result<Frame, ScoreError>)
    ensures res.Ok? <==>
      NonEmptyBelow(articles, |articles|) && |KeptIndices(m, query, articles, |articles|)| <= |links|
    ensures res.Ok? ==>
      var ks := KeptIndices(m, query, articles, |articles|);
      && |res.value.url| == |ks| && |res.value.matchScore| == |ks|
      && res.value.url == links[..|ks|]
      && forall k :: 0 <= k < |ks| ==> res.value.matchScore[k] == MatchScore(m, query, articles[ks[k]])
    ensures res.Err? ==> (res.error.EmptyArticle? || res.error.NoLinkFor?) && res.error.index < |articles|
    ensures res.Err? && res.error.EmptyArticle? ==> articles[res.error.index] == []
  {
    var querySent := m.textSentiment(query);
    var scored := ScoreArticles(m, query, querySent, articles, links);
    if scored.Err? {
      return Err(scored.error);
    }
    var table := scored.value;
    SortOfOneTable(table);
    var dicSorted := SortBySimilarityDesc([table])[0];
    assert dicSorted == table;
    var matchScore := seq(|table.similarity|, k requires 0 <= k < |table.similarity| =>
      dicSorted.similarity[k] * dicSorted.sentiment[k]);
    res := Ok(Frame(dicSorted.url, matchScore));
  }

  /** With raw similarity and both sentiments in [0, 1], a Match lies in [0, 1.25]. */
  lemma MatchWithinBounds(m: Scorers, query: string, article: Article)
    requires article != []
    requires 0.0 <= m.similarity(query, article[0]) <= 1.0
    requires 0.0 <= m.tokenSentiment(article[0]) <= 1.0 && 0.0 <= m.textSentiment(query) <= 1.0
    ensures 0.0 <= MatchScore(m, query, article) <= SimilarityWeight
  {
    var s := ScaledSimilarity(m, query, article);
    var a := Agreement(m.tokenSentiment(article[0]), m.textSentiment(query));
    assert 0.0 <= s <= SimilarityWeight;
    assert 0.0 <= a <= 1.0;
    assert s * a <= s by {
      assert s * (1.0 - a) >= 0.0;
    }
    assert s * a >= 0.0;
  }
}
