/**
 * The Lucene query clause tree the rewriting stages work on. Every node kind
 * carries a boost; the boolean node also carries its minimum number of
 * SHOULD clauses that must match. Filters are opaque, named by an id.
 */
module Queries {
  import opened Fields

  datatype Occur = Must | Should | MustNot

  datatype Query =
    | TermQuery(term: Term, boost: real)
    | PrefixQuery(prefix: Term, boost: real)
    | WildcardQuery(pattern: Term, boost: real)
    | FuzzyQuery(fuzzy: Term, boost: real)
    | PhraseQuery(terms: seq<Term>, slop: int, boost: real)
    | BooleanQuery(clauses: seq<Clause>, boost: real, minShouldMatch: int)
    | FilteredQuery(inner: Query, filterId: nat, boost: real)
    | NumericRangeQuery(field: string, lower: int, upper: int, boost: real)

  datatype Clause = Clause(query: Query, occur: Occur)

  /** The boost every freshly built Lucene query starts with. */
  const DefaultBoost: real := 1.0

  /** Query.setBoost on a node value. */
  function WithBoost(q: Query, b: real): Query
  {
    q.(boost := b)
  }

  /** A new BooleanQuery holding the given clauses, at the default boost. */
  function NewBoolean(clauses: seq<Clause>): Query
  {
    BooleanQuery(clauses, DefaultBoost, 0)
  }

  /** A SHOULD clause for every query, in order. */
  function ShouldClauses(qs: seq<Query>): (cs: seq<Clause>)
    ensures |cs| == |qs|
    ensures forall i :: 0 <= i < |qs| ==> cs[i] == Clause(qs[i], Should)
  {
    if qs == [] then [] else [Clause(qs[0], Should)] + ShouldClauses(qs[1..])
  }

  /** The OR of the given queries: a new BooleanQuery of SHOULD clauses. */
  function AnyOf(qs: seq<Query>): Query
  {
    NewBoolean(ShouldClauses(qs))
  }

  /** The node kinds that carry a single term and that visitors get with its field. */
  predicate IsTermLike(q: Query)
  {
    q.TermQuery? || q.PrefixQuery? || q.WildcardQuery?
  }

  /** The term of a term, prefix or wildcard node. */
  function TermOf(q: Query): Term
    requires IsTermLike(q)
  {
    match q
    case TermQuery(t, _) => t
    case PrefixQuery(t, _) => t
    case WildcardQuery(t, _) => t
  }

  /** A new node of the same kind as `q` for the term `t`, at the default boost. */
  function SameKind(q: Query, t: Term): (r: Query)
    requires IsTermLike(q)
    ensures IsTermLike(r) && TermOf(r) == t && r.boost == DefaultBoost
    ensures r.TermQuery? == q.TermQuery? && r.PrefixQuery? == q.PrefixQuery?
  {
    match q
    case TermQuery(_, _) => TermQuery(t, DefaultBoost)
    case PrefixQuery(_, _) => PrefixQuery(t, DefaultBoost)
    case WildcardQuery(_, _) => WildcardQuery(t, DefaultBoost)
  }
}
