/**
 * SearchResult: the documents a search found, the query it answered and
 * the weighted terms of the query that ran.
 */
module SearchResults {
  import SearchQueries
  import ResultDocs

  datatype SearchResult = SearchResult(
    query: SearchQueries.SearchQuery,
    resultDocs: seq<ResultDocs.SearchResultDoc>,
    searchTerms: map<string, real>)
  {
    /** isEmpty: no document was found. */
    predicate IsEmpty()
    {
      resultDocs == []
    }

    /** isFull: as many documents as the query's result limit. */
    predicate IsFull()
      reads query
    {
      |resultDocs| == query.maxResults
    }
  }

  /**
   * A result is full only for a limited query and only with exactly the
   * limit: never for an unlimited query, never with more documents than
   * the limit, and empty and full only at a limit of 0.
   */
  lemma FullOnlyAtTheLimit(r: SearchResult)
    ensures r.IsFull() ==> r.query.IsLimited()
    ensures |r.resultDocs| > r.query.maxResults ==> !r.IsFull()
    ensures r.IsEmpty() && r.IsFull() <==> r.IsEmpty() && r.query.maxResults == 0
  {
  }
}
