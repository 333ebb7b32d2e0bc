/** Optional values, results, and the Python exceptions the retriever lets escape. */
module Wrappers {

  /** Python's `None` or a value. */
  datatype Option<+T> = None | Some(value: T)

  /** A value, or the exception that the Python code raises instead of returning one. */
  datatype Result<+T, +E> = Ok(value: T) | Err(error: E)

  /** The exceptions that reach the caller of the retriever. */
  datatype PyError =
    | ZeroDivisionError   // relevance ratio over an empty set of query terms
    | ValueError          // TF-IDF fitted on a corpus with an empty vocabulary
    | TypeError           // `f.write(None)` when the web search found nothing
}
