/**
 * The code the retriever calls but does not own: the inltk tokenizer, the
 * stop-word list, `str.lower`, fuzzywuzzy, scikit-learn's TF-IDF, numpy's
 * `argsort`, Google search and the page fetch. Each is a field of one
 * record, so every operation of the model is a function of it.
 */
module Collaborators {
  import opened Wrappers

  /** One element of what inltk's `tokenize` returns: a string, or a list of strings. */
  datatype Token = Word(text: string) | Group(items: seq<string>)

  /** `fuzz.partial_ratio`: an integer score from 0 to 100. */
  type Percent = x: int | 0 <= x <= 100

  datatype Env = Env(
    removeForeign: string -> string,                 // remove_foreign_languages(text, 'mr')
    tokenize: string -> seq<Token>,                  // tokenize(text, 'mr')
    stopwords: set<string>,                          // marathi_stopwords
    lower: string -> string,                         // str.lower()
    partialRatio: (string, string) -> Percent,       // fuzz.partial_ratio
    canFit: seq<string> -> bool,                     // TfidfVectorizer().fit(texts) does not raise
    similarities: (seq<string>, string) -> seq<real>, // cosine_similarity(transform([query]), X)[0], X fitted on the texts
    argsort: seq<real> -> seq<nat>,                  // numpy argsort; the order of ties is unspecified
    search: string -> seq<string>,                   // result URLs of googlesearch.search
    fetchParagraphs: string -> Option<seq<string>>)  // text of each <p> of the page, None when the fetch raises

  /** `o` lists every index of `s` once, in ascending order of value. */
  predicate IsArgsort(s: seq<real>, o: seq<nat>)
  {
    && |o| == |s|
    && (forall i :: 0 <= i < |o| ==> o[i] < |s|)
    && (forall i, j :: 0 <= i < j < |o| ==> o[i] != o[j])
    && (forall k :: 0 <= k < |s| ==> k in o)
    && (forall i, j :: 0 <= i < j < |o| ==> s[o[i]] <= s[o[j]])
  }

  /**
   * What the retriever relies on: `argsort` sorts, there is one similarity per
   * fitted text, and fitting on no text fails (scikit-learn raises on an empty
   * vocabulary).
   */
  ghost predicate ValidEnv(env: Env)
  {
    && (forall s :: IsArgsort(s, env.argsort(s)))
    && (forall texts, query :: |env.similarities(texts, query)| == |texts|)
    && !env.canFit([])
  }
}
