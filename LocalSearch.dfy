/**
 * `search_local_corpora`: rank the documents by TF-IDF cosine similarity to
 * the query, take the five most similar, rescore each by how many query
 * terms it shares and how close its file name is to the query, and keep the
 * first strictly best. The answer is the winner truncated to 1000
 * characters, returned with its composite score (not its cosine similarity)
 * and its file name.
 */
module LocalSearch {
  import opened Wrappers
  import opened Collaborators
  import opened Normalizer
  import opened Corpus
  import opened Truncation

  /** What `search_local_corpora` returns: `(result, best_score, best_doc_name)`. */
  datatype Candidate = Candidate(text: Option<string>, score: real, name: string)

  /** `(None, 0, "")`. */
  const NoCandidate := Candidate(None, 0.0, "")

  /** How many of the most similar documents are rescored. */
  const TopCount: nat := 5

  /** The length the winning document is cut to. */
  const MaxAnswer: nat := 1000

  function Min(a: nat, b: nat): nat
  {
    if a <= b then a else b
  }

  function Reverse<T>(s: seq<T>): (r: seq<T>)
    ensures |r| == |s|
    ensures forall i :: 0 <= i < |s| ==> r[i] == s[|s| - 1 - i]
  {
    if s == [] then [] else Reverse(s[1..]) + [s[0]]
  }

  /**
   * `similarities.argsort()[0][-5:][::-1]`: the last (at most five) entries
   * of the order, last first.
   */
  function TopIndices(order: seq<nat>): (r: seq<nat>)
    ensures |r| == Min(TopCount, |order|)
    ensures forall i :: 0 <= i < |r| ==> r[i] == order[|order| - 1 - i]
  {
    Reverse(order[|order| - Min(TopCount, |order|)..])
  }

  lemma TopIndicesAt(order: seq<nat>, p: nat)
    requires |order| - Min(TopCount, |order|) <= p < |order|
    ensures |order| - 1 - p < |TopIndices(order)| && TopIndices(order)[|order| - 1 - p] == order[p]
  {
  }

  /**
   * The indices `TopIndices` picks are distinct indices of documents, at most
   * five, most similar first, and no document left out is more similar than
   * one picked.
   */
  lemma TopIndicesAreTop(sims: seq<real>, order: seq<nat>)
    requires IsArgsort(sims, order)
    ensures |TopIndices(order)| == Min(TopCount, |sims|)
    ensures forall i :: 0 <= i < |TopIndices(order)| ==> TopIndices(order)[i] < |sims|
    ensures forall i, j :: 0 <= i < j < |TopIndices(order)| ==> TopIndices(order)[i] != TopIndices(order)[j]
    ensures forall i, j :: 0 <= i < j < |TopIndices(order)| ==> sims[TopIndices(order)[i]] >= sims[TopIndices(order)[j]]
    ensures forall k, i :: 0 <= k < |sims| && k !in TopIndices(order) && 0 <= i < |TopIndices(order)| ==>
              sims[k] <= sims[TopIndices(order)[i]]
  {
    var n := |order|;
    var m := Min(TopCount, n);
    var top := TopIndices(order);
    assert forall i :: 0 <= i < m ==> top[i] == order[n - 1 - i];
    forall k, i | 0 <= k < |sims| && k !in top && 0 <= i < m
      ensures sims[k] <= sims[top[i]]
    {
      assert k in order;
      var p :| 0 <= p < n && order[p] == k;
      if p >= n - m {
        TopIndicesAt(order, p);
        assert false;
      }
      assert p < n - 1 - i;
    }
  }

  /**
   * Line 119: `len(query_terms.intersection(doc_terms))`, no more than the
   * query has terms, and 0 exactly when the two share none.
   */
  function MatchCount(queryTerms: set<string>, docTerms: set<string>): (r: nat)
    ensures r <= |queryTerms|
    ensures r == 0 <==> queryTerms !! docTerms
  {
    var common := queryTerms * docTerms;
    SubsetSize(common, queryTerms);
    assert forall t :: t in queryTerms && t in docTerms ==> t in common;
    |common|
  }

  /** A subset is no larger than its superset. */
  lemma {:induction false} SubsetSize(a: set<string>, b: set<string>)
    requires a <= b
    ensures |a| <= |b|
  {
    if a != {} {
      var x :| x in a;
      SubsetSize(a - {x}, b - {x});
    }
  }

  /**
   * Line 122: `similarity * (match_count + 1) * (name_similarity + 1)`. Both
   * bonus factors are at least 1, so the score has the sign of the
   * similarity and never lowers a non-negative one.
   */
  function CompositeScore(env: Env, query: string, entry: Entry, similarity: real): (r: real)
    ensures r > 0.0 <==> similarity > 0.0
    ensures similarity >= 0.0 ==> r >= similarity
  {
    Composite(similarity, MatchCount(Terms(env, query, false), Terms(env, entry.content, false)), NameSimilarity(env, query, entry.name))
  }

  /** The line-122 product on its three inputs. */
  function Composite(similarity: real, matchCount: nat, nameSimilarity: real): (r: real)
    requires nameSimilarity >= 0.0
    ensures r > 0.0 <==> similarity > 0.0
    ensures similarity >= 0.0 ==> r >= similarity
  {
    ScaledSign(similarity, matchCount as real + 1.0, nameSimilarity + 1.0,
               similarity * (matchCount as real + 1.0) * (nameSimilarity + 1.0));
    similarity * (matchCount as real + 1.0) * (nameSimilarity + 1.0)
  }

  /** One unfolding of `Composite`. */
  lemma CompositeValue(similarity: real, matchCount: nat, nameSimilarity: real)
    requires nameSimilarity >= 0.0
    ensures Composite(similarity, matchCount, nameSimilarity) == similarity * (matchCount as real + 1.0) * (nameSimilarity + 1.0)
  {
  }

  lemma ProductNonNegative(u: real, v: real)
    requires u >= 0.0 && v >= 0.0
    ensures u * v >= 0.0
  {
  }

  /** Multiplying by two factors of at least 1 keeps the sign, and does not lower a non-negative value. */
  lemma ScaledSign(x: real, a: real, b: real, product: real)
    requires a >= 1.0 && b >= 1.0 && product == x * a * b
    ensures product > 0.0 <==> x > 0.0
    ensures x >= 0.0 ==> product >= x
  {
    ProductNonNegative(a - 1.0, b);
    assert a * b - b == (a - 1.0) * b;
    var ab := a * b;
    assert x * a * b == x * ab;
    if x >= 0.0 {
      ProductNonNegative(x, ab - 1.0);
      assert x * ab - x == x * (ab - 1.0);
    } else {
      ProductNonNegative(-x, ab);
      assert -(x * ab) == (-x) * ab;
    }
  }

  /**
   * The composite scores of the documents at `top`, in that order; each is
   * positive exactly when that document's similarity is.
   */
  function Scores(env: Env, query: string, docs: seq<Entry>, sims: seq<real>, top: seq<nat>): (r: seq<real>)
    requires forall i :: 0 <= i < |top| ==> top[i] < |docs| && top[i] < |sims|
    ensures |r| == |top|
    ensures forall i :: 0 <= i < |r| ==> r[i] == CompositeScore(env, query, docs[top[i]], sims[top[i]])
    ensures forall i :: 0 <= i < |r| ==> (r[i] > 0.0 <==> sims[top[i]] > 0.0)
  {
    seq(|top|, i requires 0 <= i < |top| => CompositeScore(env, query, docs[top[i]], sims[top[i]]))
  }

  /**
   * Where the `if score > best_score` loop, started from `best_score = 0`,
   * ends up: the first position holding the largest score, provided that
   * score is positive.
   */
  function Winner(scores: seq<real>): (w: Option<nat>)
    ensures w.Some? ==> w.value < |scores| && scores[w.value] > 0.0
    ensures w.Some? ==> forall j :: 0 <= j < w.value ==> scores[j] < scores[w.value]
    ensures w.Some? ==> forall j :: w.value < j < |scores| ==> scores[j] <= scores[w.value]
    ensures w.None? <==> forall j :: 0 <= j < |scores| ==> scores[j] <= 0.0
  {
    if scores == [] then None
    else
      var w := Winner(scores[..|scores| - 1]);
      var best := if w.Some? then scores[w.value] else 0.0;
      if scores[|scores| - 1] > best then Some(|scores| - 1) else w
  }

  /** One more step of the loop: a later score wins only by beating the best so far. */
  lemma WinnerStep(scores: seq<real>, i: nat)
    requires i < |scores|
    ensures Winner(scores[..i + 1]) == if scores[i] > BestScore(scores[..i]) then Some(i) else Winner(scores[..i])
  {
    assert scores[..i + 1][..i] == scores[..i];
  }

  /** The score the loop holds as `best_score` after considering `scores`. */
  function BestScore(scores: seq<real>): real
  {
    match Winner(scores)
    case None => 0.0
    case Some(k) => scores[k]
  }

  /**
   * Lines 60-61: the documents' texts the TF-IDF model is fitted on, one per
   * document, preprocessed with `remove_stops=True`, so that a well-tokenized
   * document contributes no stop word.
   */
  function FitTexts(env: Env, docs: seq<Entry>): (r: seq<string>)
    ensures |r| == |docs|
    ensures forall i :: 0 <= i < |r| && WellTokenized(env, docs[i].content, true) ==> FreeOfStopwords(env, r[i])
  {
    seq(|docs|, i requires 0 <= i < |docs| => Preprocess(env, docs[i].content, true))
  }

  /**
   * Lines 98-100: the cosine similarity of the query, preprocessed with its
   * stop words kept, to each document.
   */
  function Similarities(env: Env, query: string, docs: seq<Entry>): (r: seq<real>)
    requires ValidEnv(env)
    ensures |r| == |docs|
  {
    env.similarities(FitTexts(env, docs), Preprocess(env, query, false))
  }

  /** Line 102: the indices of the (at most five) most similar documents, most similar first. */
  function Top(env: Env, query: string, docs: seq<Entry>): (top: seq<nat>)
    requires ValidEnv(env)
    ensures |top| == Min(TopCount, |docs|)
    ensures forall i :: 0 <= i < |top| ==> top[i] < |docs|
  {
    TopIndicesAreTop(Similarities(env, query, docs), env.argsort(Similarities(env, query, docs)));
    TopIndices(env.argsort(Similarities(env, query, docs)))
  }

  /**
   * The composite scores of the top documents, in the order they are
   * considered; each is positive exactly when that document's similarity is.
   */
  function TopScores(env: Env, query: string, docs: seq<Entry>): (r: seq<real>)
    requires ValidEnv(env)
    ensures |r| == |Top(env, query, docs)|
    ensures forall i :: 0 <= i < |r| ==> (r[i] > 0.0 <==> Similarities(env, query, docs)[Top(env, query, docs)[i]] > 0.0)
  {
    Scores(env, query, docs, Similarities(env, query, docs), Top(env, query, docs))
  }

  /** `search_local_corpora(query, documents, vectorizer, X)`, with the vectorizer fitted on `FitTexts(env, docs)`. */
  function Search(env: Env, query: string, docs: seq<Entry>): (c: Candidate)
    requires ValidEnv(env)
    ensures c.text.None? ==> c == NoCandidate
    ensures c.text.Some? ==> c.score > 0.0 && |c.text.value| <= MaxAnswer
  {
    var top := Top(env, query, docs);
    match Winner(TopScores(env, query, docs))
    case None => NoCandidate
    case Some(k) =>
      var best := docs[top[k]];
      if best.content == "" then NoCandidate
      else
        Candidate(Some(Truncate(best.content, MaxAnswer)), TopScores(env, query, docs)[k], best.name)
  }

  /** Lines 114-122: the composite score of one document. */
  method ScoreDocument(env: Env, query: string, entry: Entry, similarity: real) returns (score: real)
    ensures score == CompositeScore(env, query, entry, similarity)
    ensures score > 0.0 <==> similarity > 0.0
  {
    var queryTerms := Terms(env, query, false);
    var docTerms := Terms(env, entry.content, false);
    var matchCount := MatchCount(queryTerms, docTerms);
    var nameSimilarity := NameSimilarity(env, query, entry.name);
    score := similarity * (matchCount as real + 1.0) * (nameSimilarity + 1.0);
    CompositeValue(similarity, matchCount, nameSimilarity);
  }

  /**
   * Lines 109-129: rescore the documents at `topIndices` in turn and keep the
   * first whose score beats the best so far, starting from 0.
   */
  method PickBest(env: Env, query: string, docs: seq<Entry>, similarities: seq<real>, topIndices: seq<nat>)
    returns (bestDoc: Option<string>, bestScore: real, bestDocName: string)
    requires forall i :: 0 <= i < |topIndices| ==> topIndices[i] < |docs| && topIndices[i] < |similarities|
    ensures bestScore == BestScore(Scores(env, query, docs, similarities, topIndices))
    ensures Winner(Scores(env, query, docs, similarities, topIndices)).None? ==> bestDoc == None && bestDocName == ""
    ensures Winner(Scores(env, query, docs, similarities, topIndices)).Some? ==>
              var k := Winner(Scores(env, query, docs, similarities, topIndices)).value;
              bestDoc == Some(docs[topIndices[k]].content) && bestDocName == docs[topIndices[k]].name
  {
    ghost var scores := Scores(env, query, docs, similarities, topIndices);
    ghost var best: Option<nat> := None;
    bestDoc, bestScore, bestDocName := None, 0.0, "";
    for i := 0 to |topIndices|
      invariant best == Winner(scores[..i])
      invariant best.None? ==> bestDoc == None && bestScore == 0.0 && bestDocName == ""
      invariant best.Some? ==>
                  && best.value < i && bestScore == scores[best.value]
                  && bestDoc == Some(docs[topIndices[best.value]].content)
                  && bestDocName == docs[topIndices[best.value]].name
    {
      WinnerStep(scores, i);
      var idx := topIndices[i];
      var doc := docs[idx].content;
      var docName := docs[idx].name;
      var score := ScoreDocument(env, query, docs[idx], similarities[idx]);
      if score > bestScore {
        bestScore := score;
        bestDoc := Some(doc);
        bestDocName := docName;
        best := Some(i);
      }
    }
    assert scores[..|topIndices|] == scores;
  }

  /**
   * `search_local_corpora(query, documents, vectorizer, X)`, with the
   * similarities and their order from the collaborators.
   */
  method SearchLocalCorpora(env: Env, query: string, docs: seq<Entry>) returns (c: Candidate)
    requires ValidEnv(env)
    ensures c == Search(env, query, docs)
  {
    var processedQuery := Preprocess(env, query, false);
    var similarities := env.similarities(FitTexts(env, docs), processedQuery);
    var topIndices := TopIndices(env.argsort(similarities));
    assert topIndices == Top(env, query, docs);
    var bestDoc, bestScore, bestDocName := PickBest(env, query, docs, similarities, topIndices);
    if bestDoc.Some? && bestDoc.value != "" {
      var result := TruncateText(bestDoc.value, MaxAnswer);
      c := Candidate(Some(result), bestScore, bestDocName);
    } else {
      c := NoCandidate;
    }
  }

  // ---------------------------------------------------------------------------

  /**
   * An answer comes from one of the five most similar documents, whose
   * composite score is positive, strictly larger than those considered
   * before it and at least those considered after it; the answer is that
   * document's text truncated, with that score and that file name.
   */
  lemma SearchPicksFirstBest(env: Env, query: string, docs: seq<Entry>)
    requires ValidEnv(env)
    requires Search(env, query, docs).text.Some?
    ensures exists k ::
              && 0 <= k < |Top(env, query, docs)|
              && Search(env, query, docs) ==
                   Candidate(Some(Truncate(docs[Top(env, query, docs)[k]].content, MaxAnswer)),
                             TopScores(env, query, docs)[k], docs[Top(env, query, docs)[k]].name)
              && TopScores(env, query, docs)[k] > 0.0
              && (forall j :: 0 <= j < k ==> TopScores(env, query, docs)[j] < TopScores(env, query, docs)[k])
              && (forall j :: k < j < |Top(env, query, docs)| ==> TopScores(env, query, docs)[j] <= TopScores(env, query, docs)[k])
  {
    var k := Winner(TopScores(env, query, docs)).value;
    assert 0 <= k < |Top(env, query, docs)|;
  }

  /**
   * There is no answer exactly when none of the top documents is at all
   * similar to the query, or the winning document is empty (`if best_doc`).
   */
  lemma SearchNoAnswer(env: Env, query: string, docs: seq<Entry>)
    requires ValidEnv(env)
    ensures Search(env, query, docs).text.None? <==>
              || (forall j :: 0 <= j < |Top(env, query, docs)| ==>
                    Similarities(env, query, docs)[Top(env, query, docs)[j]] <= 0.0)
              || (Winner(TopScores(env, query, docs)).Some? &&
                  docs[Top(env, query, docs)[Winner(TopScores(env, query, docs)).value]].content == "")
  {
    var scores := TopScores(env, query, docs);
  }

  /** With no documents there is no answer. */
  lemma SearchEmptyCorpus(env: Env, query: string)
    requires ValidEnv(env)
    ensures Search(env, query, []) == NoCandidate
  {
    assert |Top(env, query, [])| == 0;
  }
}
