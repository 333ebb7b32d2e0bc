/**
 * `is_result_relevant`: the gate that decides whether the local answer is
 * good enough. A missing or short result is rejected outright; otherwise the
 * share of query terms found in the result must exceed 0.3, together with
 * either a retrieval score above 0.2 or a document-name similarity above 0.8.
 */
module Relevance {
  import opened Wrappers
  import opened Text
  import opened Collaborators
  import opened Normalizer

  /** A result shorter than this, once stripped, is rejected. */
  const MinLength: nat := 50

  /** The stop-word-free terms of the query. */
  function QueryTerms(env: Env, query: string): set<string>
  {
    Terms(env, query, true)
  }

  /** The query terms that also occur in the result. */
  function CommonTerms(env: Env, query: string, result: string): set<string>
  {
    QueryTerms(env, query) * Terms(env, result, true)
  }

  /** `a / b > 0.3` holds exactly when `10 a > 3 b`. */
  lemma RatioAboveThreshold(a: nat, b: nat)
    requires b > 0
    ensures (a as real) / (b as real) > 0.3 <==> 10 * a > 3 * b
  {
    var x, y := a as real, b as real;
    var q := x / y;
    assert q * y == x;
    if q > 0.3 {
      MulPositive(q - 0.3, y);
      assert (q - 0.3) * y == x - 0.3 * y;
    } else {
      MulNonNegative(0.3 - q, y);
      assert (0.3 - q) * y == 0.3 * y - x;
    }
  }

  lemma MulPositive(x: real, y: real)
    requires x > 0.0 && y > 0.0
    ensures x * y > 0.0
  {
  }

  lemma MulNonNegative(x: real, y: real)
    requires x >= 0.0 && y >= 0.0
    ensures x * y >= 0.0
  {
  }

  /** `p / 100 > 0.8` holds exactly when `p > 80`. */
  lemma PercentAboveThreshold(p: int)
    ensures (p as real) / 100.0 > 0.8 <==> p > 80
  {
  }

  /**
   * `is_result_relevant(query, result, relevance_score, doc_name)`. The ratio
   * on line 91 divides by the number of query terms without a guard, so an
   * empty set of query terms raises `ZeroDivisionError`.
   */
  function IsResultRelevant(env: Env, query: string, result: Option<string>, score: real, docName: string): (r: Result<bool, PyError>)
    ensures result.None? || |Strip(result.value)| < MinLength ==> r == Ok(false)
    ensures r.Err? <==> result.Some? && |Strip(result.value)| >= MinLength && QueryTerms(env, query) == {}
    ensures r.Err? ==> r.error == ZeroDivisionError
    ensures r.Ok? && result.Some? && |Strip(result.value)| >= MinLength ==>
              (r.value <==> 10 * |CommonTerms(env, query, result.value)| > 3 * |QueryTerms(env, query)|
                            && (score > 0.2 || env.partialRatio(env.lower(query), env.lower(docName)) > 80))
  {
    if result.None? || |Strip(result.value)| < MinLength then Ok(false)
    else
      var queryTerms := Terms(env, query, true);
      var resultTerms := Terms(env, result.value, true);
      if |queryTerms| == 0 then Err(ZeroDivisionError)
      else
        var termMatch := (|queryTerms * resultTerms| as real) / (|queryTerms| as real);
        var nameSimilarity := NameSimilarity(env, query, docName);
        RatioAboveThreshold(|queryTerms * resultTerms|, |queryTerms|);
        PercentAboveThreshold(env.partialRatio(env.lower(query), env.lower(docName)));
        Ok((score > 0.2 && termMatch > 0.3) || (nameSimilarity > 0.8 && termMatch > 0.3))
  }

  /** A result the gate accepts stays accepted under any higher score. */
  lemma RelevanceMonotoneInScore(env: Env, query: string, result: Option<string>, score: real, better: real, docName: string)
    requires score <= better
    requires IsResultRelevant(env, query, result, score, docName) == Ok(true)
    ensures IsResultRelevant(env, query, result, better, docName) == Ok(true)
  {
  }

  /** The gate needs more than 30% of the query terms in the result, whatever the scores. */
  lemma AcceptedNeedsTermOverlap(env: Env, query: string, result: Option<string>, score: real, docName: string)
    requires IsResultRelevant(env, query, result, score, docName) == Ok(true)
    ensures result.Some? && |Strip(result.value)| >= MinLength
    ensures 10 * |CommonTerms(env, query, result.value)| > 3 * |QueryTerms(env, query)| > 0
  {
  }

  /**
   * Lines 84-95 as evidently intended: a query with no terms left after
   * preprocessing (an empty query, or one made only of stop words) is not
   * relevant, instead of raising.
   */
  function IsResultRelevantIntended(env: Env, query: string, result: Option<string>, score: real, docName: string): (r: bool)
    ensures QueryTerms(env, query) == {} ==> !r
    ensures IsResultRelevant(env, query, result, score, docName).Ok? ==> r == IsResultRelevant(env, query, result, score, docName).value
  {
    if result.None? || |Strip(result.value)| < MinLength then false
    else
      var queryTerms := Terms(env, query, true);
      var resultTerms := Terms(env, result.value, true);
      if |queryTerms| == 0 then false
      else
        var termMatch := (|queryTerms * resultTerms| as real) / (|queryTerms| as real);
        var nameSimilarity := NameSimilarity(env, query, docName);
        (score > 0.2 && termMatch > 0.3) || (nameSimilarity > 0.8 && termMatch > 0.3)
  }
}
