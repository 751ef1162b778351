/**
 * SearchQuery: what the user asked for (the search string, the number of
 * results wanted, the exact and fuzzy modes), whether the search has been
 * canceled, the project that was active, and the filter. The searcher
 * flips the mode flags of the very query it was given as it retries.
 */
module SearchQueries {
  import opened Strings
  import opened Fields
  import opened Filters

  /** maxResults of a query that wants every result. */
  const UnlimitedResults: int := -1

  /** The fields of a SearchQuery, as a value. */
  datatype QueryState = QueryState(
    searchString: Option<string>,
    maxResults: int,
    exact: bool,
    fuzzy: bool,
    canceled: bool,
    currentProject: Option<string>,
    filter: Option<FilterMap>)

  /** The values of a filter entry, as the set the filter map holds. */
  function ValueSet(values: seq<string>): set<string>
  {
    set v | v in values
  }

  /** Map.equals on filters: the same fields, each with the same set of values. */
  predicate SameFilter(a: FilterMap, b: FilterMap)
  {
    a.Keys == b.Keys && forall f :: f in a ==> ValueSet(a[f]) == ValueSet(b[f])
  }

  /**
   * equals on two distinct, non-null queries: the mode flags, the result
   * limit, the search string and the filter (null only equal to null);
   * canceled and the current project are not compared. `None` is the
   * NullPointerException thrown when this query's search string is null
   * and the fields compared before it agree.
   */
  function Equal(a: QueryState, b: QueryState): (r: Option<bool>)
    ensures r.None? <==> a.fuzzy == b.fuzzy && a.exact == b.exact && a.maxResults == b.maxResults && a.searchString.None?
  {
    if a.fuzzy != b.fuzzy || a.exact != b.exact || a.maxResults != b.maxResults then Some(false)
    else if a.searchString.None? then None
    else if a.searchString != b.searchString then Some(false)
    else if a.filter.Some? && b.filter.Some? then Some(SameFilter(a.filter.value, b.filter.value))
    else Some(a.filter.None? && b.filter.None?)
  }

  /** The state the copy constructor makes: search string, limit and modes copied, the rest at their defaults. */
  function CopyState(s: QueryState): QueryState
  {
    QueryState(s.searchString, s.maxResults, s.exact, s.fuzzy, false, None, None)
  }

  class SearchQuery {
    var searchString: Option<string>
    /** The maximum number of results, or UnlimitedResults. */
    var maxResults: int
    var exact: bool
    var fuzzy: bool
    var canceled: bool
    var currentProject: Option<string>
    var filter: Option<FilterMap>

    /** The query's fields, as a value. */
    function State(): QueryState
      reads this
    {
      QueryState(searchString, maxResults, exact, fuzzy, canceled, currentProject, filter)
    }

    /** A new query: exact, not fuzzy, not canceled, no project and no filter. */
    constructor (searchString: Option<string>, maxResults: int)
      ensures State() == QueryState(searchString, maxResults, true, false, false, None, None)
    {
      this.searchString := searchString;
      this.maxResults := maxResults;
      exact := true;
      fuzzy := false;
      canceled := false;
      currentProject := None;
      filter := None;
    }

    /** The copy constructor. */
    constructor Copy(other: SearchQuery)
      ensures State() == CopyState(other.State())
    {
      searchString := other.searchString;
      maxResults := other.maxResults;
      fuzzy := other.fuzzy;
      exact := other.exact;
      canceled := false;
      currentProject := None;
      filter := None;
    }

    /** isLimited: a result limit is set. */
    predicate IsLimited()
      reads this
    {
      maxResults != UnlimitedResults
    }

    /** equals: the same object, or a non-null query with equal compared fields. */
    function Equals(other: SearchQuery?): (r: Option<bool>)
      reads this, other
      ensures other == this ==> r == Some(true)
      ensures other == null ==> r == Some(false)
      ensures other != null && other != this ==> r == Equal(State(), other.State())
    {
      if other == this then Some(true)
      else if other == null then Some(false)
      else Equal(State(), other.State())
    }

    method SetMaxResults(maxResults: int)
      modifies this
      ensures State() == old(State()).(maxResults := maxResults)
    {
      this.maxResults := maxResults;
    }

    method SetExact(exact: bool)
      modifies this
      ensures State() == old(State()).(exact := exact)
    {
      this.exact := exact;
    }

    method SetFuzzy(fuzzy: bool)
      modifies this
      ensures State() == old(State()).(fuzzy := fuzzy)
    {
      this.fuzzy := fuzzy;
    }

    method SetCanceled(canceled: bool)
      modifies this
      ensures State() == old(State()).(canceled := canceled)
    {
      this.canceled := canceled;
    }

    method SetSearchString(searchString: Option<string>)
      modifies this
      ensures State() == old(State()).(searchString := searchString)
    {
      this.searchString := searchString;
    }

    method SetCurrentProject(currentProject: Option<string>)
      modifies this
      ensures State() == old(State()).(currentProject := currentProject)
    {
      this.currentProject := currentProject;
    }

    /** setFilter keeps the caller's map itself, not a copy. */
    method SetFilter(filter: Option<FilterMap>)
      modifies this
      ensures State() == old(State()).(filter := filter)
    {
      this.filter := filter;
    }
  }

  // ---------------------------------------------------------------- properties

  /** equals does not look at whether a query was canceled or which project was active. */
  lemma EqualIgnoresCanceledAndProject(a: QueryState, b: QueryState, canceled: bool, project: Option<string>)
    ensures Equal(a.(canceled := canceled, currentProject := project), b) == Equal(a, b)
    ensures Equal(b, a.(canceled := canceled, currentProject := project)) == Equal(b, a)
  {
  }

  /** A query with a search string equals itself; one without cannot be compared. */
  lemma EqualReflexive(a: QueryState)
    ensures a.searchString.Some? ==> Equal(a, a) == Some(true)
    ensures a.searchString.None? ==> Equal(a, a) == None
  {
  }

  /** Between queries that both have a search string, equals is symmetric. */
  lemma EqualSymmetric(a: QueryState, b: QueryState)
    requires a.searchString.Some? && b.searchString.Some?
    ensures Equal(a, b) == Equal(b, a)
  {
    if a.filter.Some? && b.filter.Some? && a.searchString == b.searchString {
      var x, y := a.filter.value, b.filter.value;
      assert SameFilter(x, y) == SameFilter(y, x) by {
        if SameFilter(x, y) {
          forall f | f in y ensures ValueSet(y[f]) == ValueSet(x[f]) {
            assert f in x;
          }
        }
        if SameFilter(y, x) {
          forall f | f in x ensures ValueSet(x[f]) == ValueSet(y[f]) {
            assert f in y;
          }
        }
      }
    }
  }

  /** equals is transitive. */
  lemma EqualTransitive(a: QueryState, b: QueryState, c: QueryState)
    requires Equal(a, b) == Some(true) && Equal(b, c) == Some(true)
    ensures Equal(a, c) == Some(true)
  {
    if a.filter.Some? {
      var x, y, z := a.filter.value, b.filter.value, c.filter.value;
      forall f | f in x ensures ValueSet(x[f]) == ValueSet(z[f]) {
        assert f in y;
      }
    }
  }

  /**
   * A copy equals its source exactly when the source has no filter: the
   * copy constructor does not copy the filter, and a null filter only
   * equals a null one.
   */
  lemma CopyEqualsSource(s: QueryState)
    requires s.searchString.Some?
    ensures Equal(CopyState(s), s) == Some(s.filter.None?)
    ensures Equal(s, CopyState(s)) == Some(s.filter.None?)
  {
  }
}
