# Marathi question-answering retriever, modelled in Dafny

The retriever is one Python module, `marai/actions/tfidf/retriever.py`. It answers
a Marathi question from a folder of `.txt` documents, or from the Marathi
Wikipedia when the local answer is not good enough. `get_response(query)` works in
these steps:

1. It reloads the corpus folder into the `documents` dictionary.
2. It refits a TF-IDF model on the preprocessed documents.
3. It ranks the documents by cosine similarity to the query.
4. It rescores the five most similar. The composite score adds weight for shared
   terms and for a document name close to the query.
5. It truncates the winner to whole sentences within 1000 characters.
6. A relevance gate then decides. An accepted local answer is returned. Otherwise
   Wikipedia is searched, the first page's paragraphs are stripped of citation
   markers and truncated, and the text is saved into the corpus folder as
   `<query with spaces as underscores>.txt`.

The model is split into modules:

- `Wrappers` holds Option, Result and the Python exceptions that escape.
- `Text` holds `strip`, `split()`, `join`, string concatenation and the sentence split `re.split(r'[।॥।|!?\.]')`.
- `Truncation` models `truncate_text`.
- `Citations` models `clean_wiki_text`.
- `Collaborators` holds the external libraries, as fields of one `Env` record.
- `Normalizer` models `preprocess` and the term sets built from it.
- `Relevance` models `is_result_relevant`.
- `Corpus` models `load_documents`, the dictionary and directory as ordered entry
  sequences, and the saved file name.
- `LocalSearch` models `search_local_corpora`.
- `WebFallback` models `chatbot_query`.
- `Orchestrator` models `get_response`. The class `Assistant` holds the module
  globals `documents`, `vectorizer` and `X` and the corpus directory, and its
  methods update them.

Strings are sequences of code points, so `|s|` is Python's `len(s)`. The loops
of `truncate_text`, `load_documents` and `search_local_corpora` are methods with
invariants: `TruncateText`, `LoadDocuments` and `PickBest`. Each is proved equal
to a function (`Truncate`, `TxtEntries`, `Winner`/`Search`), and the properties
are proved about that function. `get_response` has no loop; it updates the
module globals, so it is the method `GetResponse` of the `Assistant` class, with
its steps `Reload` and `AnswerFromWeb`. Its contract ties the new state to
`TxtEntries`, `FitTexts` and `SaveWebResult`.

Two details of the code shape the model:

- Line 91 divides by the number of query terms without a guard. So a query with
  no terms raises `ZeroDivisionError` once the result has 50 or more stripped
  characters. `IsResultRelevant` returns that error.
- Line 133 returns the composite `best_score`, not the cosine similarity, and the
  gate at line 95 compares that score against 0.2.

## Model

| member | source | states |
|---|---|---|
| Text.Strip | marai/actions/tfidf/retriever.py:42 | stripping never lengthens a piece |
| Text.StripIsStripped | marai/actions/tfidf/retriever.py:42 | the stripped sentence has no white space at either end |
| Text.StripEmpty | marai/actions/tfidf/retriever.py:42-44 | a piece is skipped (strips to nothing) exactly when all its characters are white space |
| Text.StripStripped | marai/actions/tfidf/retriever.py:42 | stripping an already stripped sentence changes nothing |
| Text.Join | marai/actions/tfidf/retriever.py:35 | the join is empty exactly when every part is empty and no separator falls between two parts |
| Text.Concat | marai/actions/tfidf/retriever.py:154-156 | running the paragraphs (or a list's items) together gives the empty text exactly when every one of them is empty |
| Text.SplitSentences | marai/actions/tfidf/retriever.py:38 | the split always gives at least one piece, and no piece holds a separator |
| Text.SplitSentencesCount | marai/actions/tfidf/retriever.py:38 | the split gives exactly one piece more than the text has separators |
| Text.SplitJoinRoundTrip | marai/actions/tfidf/retriever.py:38-50 | joining separator-free sentences with one separator and splitting again gives the sentences back |
| Text.SplitWords | marai/actions/tfidf/retriever.py:88 | `split()` yields non-empty words without white space |
| Text.SplitWordsJoinRoundTrip | marai/actions/tfidf/retriever.py:35 | splitting the space-joined tokens gives the tokens back when they are non-empty and space-free |
| Truncation.TruncateText | marai/actions/tfidf/retriever.py:37-51 | the loop returns `Truncate(text, maxChars)`: the danda-join of the scanned sentences |
| Truncation.KeptStep | marai/actions/tfidf/retriever.py:41-48 | one iteration: an empty piece is skipped, a fitting one is kept and counted as len+1, a misfit ends the scan |
| Truncation.KeptIsPrefix | marai/actions/tfidf/retriever.py:41-47 | the kept sentences are an in-order prefix of the non-empty stripped pieces; nothing is reordered or cut |
| Truncation.KeptFits | marai/actions/tfidf/retriever.py:45-48 | each kept sentence satisfies count-before-it + its length <= max_chars, the count being the sum of len+1 of the earlier ones |
| Truncation.KeptStopsAtMisfit | marai/actions/tfidf/retriever.py:45-46 | the scan stops only at a sentence that would exceed the limit |
| Truncation.KeptShape | marai/actions/tfidf/retriever.py:42-47 | every kept sentence is non-empty, stripped and free of separators |
| Truncation.KeptIdempotent | marai/actions/tfidf/retriever.py:41-48 | scanning the kept sentences again keeps all of them |
| Truncation.JoinLength | marai/actions/tfidf/retriever.py:48-50 | the joined result is one character shorter than the final count, so the count tracks the output length |
| Truncation.KeptWithinBudget | marai/actions/tfidf/retriever.py:45-48 | when something is kept, the final count minus the one trailing separator stays within max_chars |
| Truncation.Truncate | marai/actions/tfidf/retriever.py:37-51 | the output never exceeds max_chars characters (empty when max_chars is negative) |
| Truncation.TruncateKeepsFittingPrefix | marai/actions/tfidf/retriever.py:38-50 | the output joins the longest fitting prefix of the sentences; the first misfit and all after it are dropped |
| Truncation.TruncateEmpty | marai/actions/tfidf/retriever.py:37-51 | the output is "" exactly when there is no non-empty sentence or the first one exceeds max_chars |
| Truncation.TruncateIdempotent | marai/actions/tfidf/retriever.py:37-51 | truncating a truncated text changes nothing |
| Truncation.TruncateShortSentence | marai/actions/tfidf/retriever.py:37-51 | one stripped sentence within the limit comes back unchanged |
| Citations.CitationLength | marai/actions/tfidf/retriever.py:138 | a positive length means the text starts with `[`, one or more digits, `]` of that length |
| Citations.CitationPrefixUnique | marai/actions/tfidf/retriever.py:138 | any citation marker at the start is exactly the one found (the digit run cannot stop early) |
| Citations.CleanWikiText | marai/actions/tfidf/retriever.py:137-139 | the substitution only deletes characters: the output is a subsequence of the input and no longer |
| Citations.CleanWithoutCitation | marai/actions/tfidf/retriever.py:137-139 | text without a citation marker comes back unchanged |
| Citations.CleanWithCitation | marai/actions/tfidf/retriever.py:137-139 | text with a citation marker comes back strictly shorter |
| Citations.CleanUnchanged | marai/actions/tfidf/retriever.py:137-139 | the output equals the input if and only if the input has no citation marker |
| Citations.CleanLeadingCitation | marai/actions/tfidf/retriever.py:138 | a marker at the front is deleted and the scan resumes after it |
| Citations.CleanDropsCitation | marai/actions/tfidf/retriever.py:138 | for citation-free text p, a marker c and any rest, the output is p followed by the output for rest (leftmost, non-overlapping) |
| Citations.CleanIsSinglePass | marai/actions/tfidf/retriever.py:138 | one pass: `[1[2]]` becomes `[1]`, which still holds a marker |
| Normalizer.Texts | marai/actions/tfidf/retriever.py:32 | without a list among the tokens, the token strings are kept one for one |
| Normalizer.Flatten | marai/actions/tfidf/retriever.py:32 | flattening never loses, adds or moves a character: the pieces run together are the tokens' text; without a list the token count is kept |
| Normalizer.RemoveStopwords | marai/actions/tfidf/retriever.py:34 | a token survives exactly when it is not a stop word, every occurrence of a surviving token is kept (same multiplicity), and the survivors keep their order |
| Normalizer.NameSimilarity | marai/actions/tfidf/retriever.py:92 | the partial ratio divided by 100 lies in [0, 1] |
| Normalizer.FlattenWords | marai/actions/tfidf/retriever.py:32 | a list of strings passes through flattening unchanged |
| Normalizer.FlattenMixed | marai/actions/tfidf/retriever.py:32 | once a list is present, a string next to it is split into its characters |
| Normalizer.FlattenGroups | marai/actions/tfidf/retriever.py:32 | a list of lists is flattened one level, keeping every item in order |
| Normalizer.Preprocess | marai/actions/tfidf/retriever.py:29-35 | with non-empty space-free tokens, splitting the result gives the tokens back in order; with remove_stops no word of it is a stop word |
| Normalizer.Terms | marai/actions/tfidf/retriever.py:88-89 | every term is a non-empty word without white space |
| Relevance.RatioAboveThreshold | marai/actions/tfidf/retriever.py:91-95 | the term-match ratio exceeds 0.3 exactly when 10 x common > 3 x query terms |
| Relevance.PercentAboveThreshold | marai/actions/tfidf/retriever.py:92-95 | the name similarity exceeds 0.8 exactly when the partial ratio exceeds 80 |
| Relevance.IsResultRelevant | marai/actions/tfidf/retriever.py:84-95 | a missing or under-50-character result is rejected; otherwise ZeroDivisionError exactly when the query has no terms, else accepted iff overlap > 30% and (score > 0.2 or name ratio > 80) |
| Relevance.RelevanceMonotoneInScore | marai/actions/tfidf/retriever.py:95 | an accepted result stays accepted under any higher score |
| Relevance.AcceptedNeedsTermOverlap | marai/actions/tfidf/retriever.py:85-95 | acceptance needs a result of at least 50 stripped characters and more than 30% of a non-empty query-term set |
| Relevance.IsResultRelevantIntended | marai/actions/tfidf/retriever.py:84-95 | corrected gate: a query without terms is rejected; elsewhere it agrees with the code |
| Corpus.Lookup | marai/actions/tfidf/retriever.py:26 | a key is absent exactly when no entry has it; a found value is stored under that key |
| Corpus.Put | marai/actions/tfidf/retriever.py:26 | after storing, the key maps to the new value; a new key is appended at the end |
| Corpus.PutKeepsOthers | marai/actions/tfidf/retriever.py:26 | storing one key leaves every other key's value unchanged |
| Corpus.PutKeepsUnique | marai/actions/tfidf/retriever.py:26 | storing keeps keys unique |
| Corpus.PutNames | marai/actions/tfidf/retriever.py:26 | after storing, every key was present before or is the stored one |
| Corpus.TxtEntries | marai/actions/tfidf/retriever.py:23-26 | exactly the files whose names end in `.txt`, in listing order |
| Corpus.LoadDocuments | marai/actions/tfidf/retriever.py:21-27 | the loop yields the `.txt` files of the directory, in listing order, with unique keys |
| Corpus.FileName | marai/actions/tfidf/retriever.py:74 | the name is the query with each space replaced by `_`, plus `.txt` |
| Corpus.FileNameCollision | marai/actions/tfidf/retriever.py:74 | `a b` and `a_b` are saved under the same file |
| Corpus.FileNameHasNoSpace | marai/actions/tfidf/retriever.py:74 | a saved file name contains no space |
| Corpus.SavedAnswerIsLoaded | marai/actions/tfidf/retriever.py:74-78 | a saved answer is among the documents the next reload reads |
| LocalSearch.TopIndices | marai/actions/tfidf/retriever.py:102 | min(5, n) indices: the i-th is the i-th from the end of the ascending order |
| LocalSearch.TopIndicesAreTop | marai/actions/tfidf/retriever.py:102 | the top indices are min(5, n) distinct documents, most similar first, none left out more similar |
| LocalSearch.MatchCount | marai/actions/tfidf/retriever.py:117-119 | the shared-term count is at most the number of query terms, and 0 exactly when query and document share no term |
| LocalSearch.CompositeScore | marai/actions/tfidf/retriever.py:121-122 | the composite score is positive exactly when the cosine similarity is, and never below a non-negative similarity |
| LocalSearch.Scores | marai/actions/tfidf/retriever.py:113-122 | each top document's composite score is positive exactly when its cosine similarity is |
| LocalSearch.Winner | marai/actions/tfidf/retriever.py:109-129 | the winner is the first position holding the largest score, and that score is positive; none exactly when no score is positive |
| LocalSearch.WinnerStep | marai/actions/tfidf/retriever.py:126-129 | a later document wins only by strictly beating the best so far |
| LocalSearch.FitTexts | marai/actions/tfidf/retriever.py:60-61 | one text per document, preprocessed with remove_stops, so a well-tokenized document contributes no stop word to the fit |
| LocalSearch.Similarities | marai/actions/tfidf/retriever.py:98-100 | one similarity per document |
| LocalSearch.Top | marai/actions/tfidf/retriever.py:102 | at most five indices, each a document |
| LocalSearch.TopScores | marai/actions/tfidf/retriever.py:113-122 | one score per top document, positive exactly when that document's cosine similarity is |
| LocalSearch.Search | marai/actions/tfidf/retriever.py:97-135 | no answer is `(None, 0, "")`; an answer has a positive score and at most 1000 characters |
| LocalSearch.ScoreDocument | marai/actions/tfidf/retriever.py:114-122 | the loop body computes the composite score, positive exactly when the similarity is |
| LocalSearch.PickBest | marai/actions/tfidf/retriever.py:109-129 | the loop ends holding the winner's text, name and score, or the initial None, "" and 0 |
| LocalSearch.SearchLocalCorpora | marai/actions/tfidf/retriever.py:97-135 | the method returns `Search(env, query, docs)` |
| LocalSearch.SearchPicksFirstBest | marai/actions/tfidf/retriever.py:109-133 | an answer is a top document truncated, with its composite score: positive, strictly above all earlier, at least all later |
| LocalSearch.SearchNoAnswer | marai/actions/tfidf/retriever.py:126-135 | no answer exactly when no top document has positive similarity, or the winning document is empty |
| LocalSearch.SearchEmptyCorpus | marai/actions/tfidf/retriever.py:97-135 | an empty corpus gives no answer |
| WebFallback.ChatbotQuery | marai/actions/tfidf/retriever.py:141-165 | None exactly when the search finds nothing; the fallback exactly when the fetch raises; every text is at most 1000 characters |
| WebFallback.JoinHasNoFullStop | marai/actions/tfidf/retriever.py:50 | a danda-join of split sentences holds no full stop |
| WebFallback.TruncateIsNotFallback | marai/actions/tfidf/retriever.py:160 | a truncated text never equals the fallback apology, which ends in a full stop |
| WebFallback.Article | marai/actions/tfidf/retriever.py:154-162 | a fetched article has at most 1000 characters and is never the fallback apology |
| Orchestrator.SaveWebResult | marai/actions/tfidf/retriever.py:72-82 | any web result but the line-72 text is written under the query's file name (None as an empty file) and nothing else changes; a saved text is also the response (line 80); TypeError exactly for None; the line-72 text is answered with a full stop and nothing is saved |
| Orchestrator.FailedLookupIsSaved | marai/actions/tfidf/retriever.py:72-78 | no search result saves an empty file and raises TypeError; a failed fetch saves the fallback apology as a document |
| Orchestrator.SaveWebResultIntended | marai/actions/tfidf/retriever.py:72-82 | corrected step: failures are answered with the apology and save nothing; an article is saved and returned |
| Orchestrator.IntendedSavesOnlyArticles | marai/actions/tfidf/retriever.py:72-82 | with the corrected step, nothing raises and only a fetched article is ever saved |
| Orchestrator.Gate | marai/actions/tfidf/retriever.py:63-67 | an accepted local answer exists and has 50 to 1000 characters |
| Orchestrator.Assistant.constructor | marai/actions/tfidf/retriever.py:19 | the assistant starts over a corpus directory with unique file names |
| Orchestrator.Assistant.Reload | marai/actions/tfidf/retriever.py:57-61 | documents become the `.txt` files; the model is refitted, or left unfitted when fitting raises (always for no documents) |
| Orchestrator.Assistant.AnswerFromWeb | marai/actions/tfidf/retriever.py:69-82 | the web is asked once and the directory and answer are those of `SaveWebResult` |
| Orchestrator.Assistant.GetResponse | marai/actions/tfidf/retriever.py:53-82 | ValueError when fitting fails; ZeroDivisionError when the gate raises; an accepted local answer with no fetch and no write; otherwise the web step as written |

## Left out

- TF-IDF fitting, transforming and cosine similarity (scikit-learn, floating point) are the collaborators `canFit` and `similarities`. The only assumptions are one similarity per document and that fitting on no text fails.
- numpy `argsort` is the collaborator `argsort`, assumed to return a permutation sorted by value. The tie order of numpy's default sort is unspecified, so ties are not fixed.
- `fuzz.partial_ratio` is an abstract integer from 0 to 100, and the inltk `tokenize` and `remove_foreign_languages` calls are abstract functions. So are `str.lower` (Unicode case mapping) and the stop-word list.
- Disk I/O is not modelled. The directory is an in-memory sequence of files in listing order, and a newly written file is taken to list last. Paths are not interpreted, so a query containing `/` is not modelled as writing into another folder.
- Module import is not modelled: `setup('mr')`, the first load and the first fit at lines 16 and 167-171. `get_response` reloads and refits before use, so that initial state never reaches an answer. A failing fit at import time is left out.
- Google search, the HTTP fetch and BeautifulSoup are collaborators. `search` gives the result URLs and `fetchParagraphs` gives the paragraph texts, or None when anything inside the `try` raises. A failure of `search` itself, outside the `try`, is not modelled.
- All `print` logging is left out.
- Citations.IsDigit: `\d` matches every Unicode decimal digit, but the model counts only ASCII and Devanagari digits, so a marker written in another script's digits is not removed.
- Relevance.IsResultRelevant: scores and ratios are exact reals, not binary floating point. The thresholds 0.2, 0.3 and 0.8 are compared exactly.
- LocalSearch.CompositeScore: the line-122 product is an exact real, not a floating-point product, so rounding is not modelled.
- LocalSearch.Winner: the line-126 `score > best_score` test compares exact reals; on a near-tie, floating-point rounding could pick another document than the model does.

## Findings

| source | as written | input that shows it | evidently intended | confidence | as-written member | corrected member |
|---|---|---|---|---|---|---|
| marai/actions/tfidf/retriever.py:72 | a web lookup counts as failed only when it returns the line-72 apology, which `chatbot_query` never produces for a failure | a query with no search result, or whose first page cannot be fetched: an empty `<query>.txt` is created and `TypeError` escapes, or the line-142 apology is saved as a corpus document | treat None and the line-142 fallback as failures: answer with the apology and save nothing | high; not executed | Orchestrator.FailedLookupIsSaved | Orchestrator.IntendedSavesOnlyArticles |
| marai/actions/tfidf/retriever.py:91 | the term-match ratio divides by the number of query terms without a guard | a query made only of stop words, against a local answer of 50 or more characters, raises `ZeroDivisionError` | a query without terms is simply not relevant | high; not executed | Relevance.IsResultRelevant | Relevance.IsResultRelevantIntended |

`GetResponse` models the code as written and so uses `SaveWebResult` and
`IsResultRelevant`. The corrected members sit beside them with their properties
proved.
