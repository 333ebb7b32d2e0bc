/**
 * `chatbot_query`: look the query up on the Marathi Wikipedia. No search
 * result gives `None`; a page that cannot be fetched or parsed gives a fixed
 * apology; otherwise the page's paragraphs are concatenated, stripped of
 * citation markers and truncated to 1000 characters.
 */
module WebFallback {
  import opened Wrappers
  import opened Text
  import opened Collaborators
  import opened Truncation
  import opened Citations

  /** Line 142: what `chatbot_query` returns when the fetch raises. */
  const Fallback: string := "माफ करा, मला या प्रश्नाचे उत्तर सापडले नाही."

  /** Line 144: appended to the query to restrict the search to the Marathi Wikipedia. */
  const SiteFilter: string := " site:mr.wikipedia.org"

  /** The length the article is cut to. */
  const MaxArticle: nat := 1000

  /**
   * Lines 154-162: the answer built from a fetched page, whose paragraphs are
   * run together (`article_text += paragraph.get_text()`), cleaned and
   * truncated. It fits in 1000 characters and is never the fallback apology,
   * so a caller can tell the two outcomes apart.
   */
  function Article(paragraphs: seq<string>): (r: string)
    ensures |r| <= MaxArticle
    ensures r != Fallback
  {
    TruncateIsNotFallback(CleanWikiText(Concat(paragraphs)), MaxArticle);
    Truncate(CleanWikiText(Concat(paragraphs)), MaxArticle)
  }

  /** `chatbot_query(query)`. */
  function ChatbotQuery(env: Env, query: string): (r: Option<string>)
    ensures r.None? <==> env.search(query + SiteFilter) == []
    ensures r.Some? ==> |r.value| <= MaxArticle
    ensures r.Some? ==> (r.value == Fallback <==> env.fetchParagraphs(env.search(query + SiteFilter)[0]).None?)
  {
    var results := env.search(query + SiteFilter);
    if results == [] then None
    else match env.fetchParagraphs(results[0])
      case None => Some(Fallback)
      case Some(paragraphs) => Some(Article(paragraphs))
  }

  /** A joined run of sentences holds no full stop, since the split removed every one. */
  lemma {:induction false} JoinHasNoFullStop(k: seq<string>)
    requires forall j :: 0 <= j < |k| ==> NoSentenceEnd(k[j])
    ensures forall i :: 0 <= i < |Join([Danda], k)| ==> Join([Danda], k)[i] != '.'
  {
    if |k| > 1 {
      JoinHasNoFullStop(k[1..]);
      var j := Join([Danda], k);
      assert j == k[0] + [Danda] + Join([Danda], k[1..]);
      forall i | 0 <= i < |j| ensures j[i] != '.' {
        if i < |k[0]| {
          assert j[i] == k[0][i];
        } else if i > |k[0]| {
          assert j[i] == Join([Danda], k[1..])[i - |k[0]| - 1];
        }
      }
    }
  }

  /** A truncated text never ends in a full stop, so it is never the fallback apology. */
  lemma TruncateIsNotFallback(text: string, maxChars: int)
    ensures Truncate(text, maxChars) != Fallback
  {
    KeptShape(SplitSentences(text), 0, maxChars);
    JoinHasNoFullStop(Kept(SplitSentences(text), 0, maxChars));
    assert Fallback[|Fallback| - 1] == '.';
  }
}
