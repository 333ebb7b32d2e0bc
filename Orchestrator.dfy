/**
 * `get_response(query)`: reload the corpus, refit the TF-IDF model, search
 * the corpus, and answer from it when the relevance gate accepts; otherwise
 * ask the web, save what it gives under a name derived from the query, and
 * return it. The module's globals `documents`, `vectorizer` and `X` and the
 * corpus directory are the fields of one object.
 */
module Orchestrator {
  import opened Wrappers
  import opened Collaborators
  import opened Normalizer
  import opened Corpus
  import opened LocalSearch
  import opened Relevance
  import opened WebFallback

  /** Line 72: the answer that, as written, is taken to mean "the web found nothing". */
  const Apology: string := "माफ करा मला या विषयाबद्दल माहिती नाही"

  /** What the web step returns, and the corpus directory it leaves behind. */
  datatype Outcome = Outcome(response: Result<string, PyError>, files: seq<Entry>)

  /**
   * Lines 72-82 as written. Any web result other than the line-72 text is
   * saved: `open(path, 'w')` creates or empties the file before
   * `f.write(web_result)` runs, and `f.write(None)` raises `TypeError`.
   */
  function SaveWebResult(query: string, web: Option<string>, files: seq<Entry>): (o: Outcome)
    ensures web == Some(Apology) ==> o == Outcome(Ok(Apology + "."), files)
    ensures web != Some(Apology) ==> Lookup(o.files, FileName(query)) == Some(if web.Some? then web.value else "")
    ensures web != Some(Apology) ==> forall n :: n != FileName(query) ==> Lookup(o.files, n) == Lookup(files, n)
    ensures web.Some? && web.value != Apology ==> o.response == Ok(web.value)
    ensures o.response.Err? <==> web.None?
    ensures o.response.Err? ==> o.response.error == TypeError
  {
    if web != Some(Apology) then
      var content := if web.Some? then web.value else "";
      var saved := Put(files, FileName(query), content);
      forall n | n != FileName(query) ensures Lookup(saved, n) == Lookup(files, n) {
        PutKeepsOthers(files, FileName(query), content, n);
      }
      Outcome(if web.None? then Err(TypeError) else Ok(web.value), saved)
    else
      Outcome(Ok(Apology + "."), files)
  }

  /**
   * The line-72 check does not catch a failed lookup: with no search result
   * an empty file is saved and `TypeError` escapes; with a page that cannot
   * be fetched the line-142 apology is saved and later loaded as a document.
   */
  lemma FailedLookupIsSaved(env: Env, query: string, files: seq<Entry>)
    ensures env.search(query + SiteFilter) == [] ==>
              SaveWebResult(query, ChatbotQuery(env, query), files) == Outcome(Err(TypeError), Put(files, FileName(query), ""))
    ensures env.search(query + SiteFilter) != [] && env.fetchParagraphs(env.search(query + SiteFilter)[0]).None? ==>
              && SaveWebResult(query, ChatbotQuery(env, query), files).response == Ok(Fallback)
              && Entry(FileName(query), Fallback) in TxtEntries(SaveWebResult(query, ChatbotQuery(env, query), files).files)
  {
    assert Fallback != Apology by { assert Fallback[|Fallback| - 1] != Apology[|Apology| - 1]; }
    if env.search(query + SiteFilter) != [] && env.fetchParagraphs(env.search(query + SiteFilter)[0]).None? {
      SavedAnswerIsLoaded(files, query, Fallback);
    }
  }

  /** Lines 72-82 as evidently intended: a failed lookup is answered with the apology and nothing is saved. */
  function SaveWebResultIntended(query: string, web: Option<string>, files: seq<Entry>): (o: Outcome)
    ensures o.response.Ok?
    ensures web.None? || web == Some(Fallback) || web == Some(Apology) ==> o == Outcome(Ok(Apology + "."), files)
    ensures web.Some? && web.value != Fallback && web.value != Apology ==>
              o.response == Ok(web.value) && Lookup(o.files, FileName(query)) == Some(web.value)
  {
    if web.None? || web == Some(Fallback) || web == Some(Apology) then Outcome(Ok(Apology + "."), files)
    else Outcome(Ok(web.value), Put(files, FileName(query), web.value))
  }

  /** With the intended step, only a fetched article is ever saved, and no exception escapes. */
  lemma IntendedSavesOnlyArticles(env: Env, query: string, files: seq<Entry>)
    ensures SaveWebResultIntended(query, ChatbotQuery(env, query), files).response.Ok?
    ensures SaveWebResultIntended(query, ChatbotQuery(env, query), files).files == files ||
            (&& env.search(query + SiteFilter) != []
             && env.fetchParagraphs(env.search(query + SiteFilter)[0]).Some?
             && SaveWebResultIntended(query, ChatbotQuery(env, query), files).files ==
                  Put(files, FileName(query), Article(env.fetchParagraphs(env.search(query + SiteFilter)[0]).value)))
  {
  }

  /**
   * The relevance verdict on the local search result (lines 63-65). An
   * accepted local result is a real answer: present, at least 50 characters
   * once stripped, at most 1000.
   */
  function Gate(env: Env, query: string, docs: seq<Entry>): (r: Result<bool, PyError>)
    requires ValidEnv(env)
    ensures r == Ok(true) ==> Search(env, query, docs).text.Some?
    ensures r == Ok(true) ==> MinLength <= |Search(env, query, docs).text.value| <= MaxAnswer
  {
    var c := Search(env, query, docs);
    var verdict := IsResultRelevant(env, query, c.text, c.score, c.name);
    if verdict == Ok(true) then
      AcceptedNeedsTermOverlap(env, query, c.text, c.score, c.name);
      assert |Text.Strip(c.text.value)| <= |c.text.value|;
      verdict
    else verdict
  }

  class Assistant {
    /** The corpus directory, in listing order. */
    var files: seq<Entry>
    /** The global `documents`. */
    var documents: seq<Entry>
    /** The global `vectorizer`: the texts it was fitted on, or None when the last fit raised. */
    var vectorizer: Option<seq<string>>
    /** The global `X`: the texts its rows were computed from. */
    var matrix: seq<string>
    /** The queries sent to the web search so far. */
    ghost var webQueries: seq<string>

    ghost predicate Valid()
      reads this
    {
      UniqueNames(files)
    }

    constructor (directory: seq<Entry>)
      requires UniqueNames(directory)
      ensures Valid()
      ensures files == directory && documents == [] && vectorizer == None && matrix == [] && webQueries == []
    {
      files := directory;
      documents := [];
      vectorizer := None;
      matrix := [];
      webQueries := [];
    }

    /** Lines 57-61: reload the documents and refit the model; false when fitting raises. */
    method Reload(env: Env) returns (fitted: bool)
      requires ValidEnv(env) && Valid()
      modifies this`documents, this`vectorizer, this`matrix
      ensures documents == TxtEntries(files)
      ensures fitted <==> env.canFit(FitTexts(env, documents))
      ensures fitted ==> vectorizer == Some(FitTexts(env, documents)) && matrix == FitTexts(env, documents)
      ensures !fitted ==> vectorizer == None && matrix == old(matrix)
      ensures documents == [] ==> !fitted
    {
      var docs := LoadDocuments(files);
      documents := docs;
      var texts := seq(|docs|, i requires 0 <= i < |docs| => Preprocess(env, docs[i].content, true));
      assert texts == FitTexts(env, docs);
      if !env.canFit(texts) {
        vectorizer := None;
        return false;
      }
      vectorizer := Some(texts);
      matrix := texts;
      return true;
    }

    /** Lines 69-82: ask the web and save its answer, as written. */
    method AnswerFromWeb(env: Env, query: string) returns (r: Result<string, PyError>)
      requires Valid()
      modifies this`files, this`webQueries
      ensures Valid()
      ensures webQueries == old(webQueries) + [query]
      ensures Outcome(r, files) == SaveWebResult(query, ChatbotQuery(env, query), old(files))
    {
      var webResult := ChatbotQuery(env, query);
      webQueries := webQueries + [query];
      if webResult != Some(Apology) {
        var fileName := FileName(query);
        var written := if webResult.Some? then webResult.value else "";
        PutKeepsUnique(files, fileName, written);
        files := Put(files, fileName, written);
        if webResult.None? {
          return Err(TypeError);
        }
        return Ok(webResult.value);
      } else {
        return Ok(Apology + ".");
      }
    }

    /** `get_response(query)`. */
    method GetResponse(env: Env, query: string) returns (r: Result<string, PyError>)
      requires ValidEnv(env) && Valid()
      modifies this
      ensures Valid()
      ensures documents == TxtEntries(old(files))
      // Line 60: fitting on texts without vocabulary raises; `vectorizer` is already the new, unfitted one.
      ensures !env.canFit(FitTexts(env, documents)) ==>
                && r == Err(ValueError) && vectorizer == None && matrix == old(matrix)
                && files == old(files) && webQueries == old(webQueries)
      ensures documents == [] ==> r == Err(ValueError)
      ensures env.canFit(FitTexts(env, documents)) ==>
                vectorizer == Some(FitTexts(env, documents)) && matrix == FitTexts(env, documents)
      // Lines 63-67: the gate raises, or accepts the local answer; either way nothing is fetched or saved.
      ensures env.canFit(FitTexts(env, documents)) && Gate(env, query, documents).Err? ==>
                r == Err(ZeroDivisionError) && files == old(files) && webQueries == old(webQueries)
      ensures env.canFit(FitTexts(env, documents)) && Gate(env, query, documents) == Ok(true) ==>
                && r == Ok(Search(env, query, documents).text.value)
                && files == old(files) && webQueries == old(webQueries)
      // Lines 69-82: the web is asked once and its result saved as written.
      ensures env.canFit(FitTexts(env, documents)) && Gate(env, query, documents) == Ok(false) ==>
                && webQueries == old(webQueries) + [query]
                && Outcome(r, files) == SaveWebResult(query, ChatbotQuery(env, query), old(files))
    {
      var fitted := Reload(env);
      if !fitted {
        return Err(ValueError);
      }
      var local := SearchLocalCorpora(env, query, documents);
      var relevant := IsResultRelevant(env, query, local.text, local.score, local.name);
      if relevant.Err? {
        return Err(ZeroDivisionError);
      }
      if relevant.value {
        return Ok(local.text.value);
      }
      r := AnswerFromWeb(env, query);
    }
  }
}
