/**
 * LastTermQueryPrefixer: while the user is typing, the last term of the
 * query is also searched as a prefix. The visitor finds the last term with a
 * clause counter: each boolean adds its clause count, each clause visit
 * takes one off, so the counter is 0 exactly when the term being visited is
 * the last clause of every enclosing boolean.
 */
module LastTermPrefixing {
  import opened Fields
  import opened Queries

  /** visit(TermQuery, field) with the current counter. */
  function VisitTerm(q: Query, clauseCount: int, minTermLength: int): Query
    requires q.TermQuery?
  {
    if clauseCount == 0 && |q.term.text| >= minTermLength then
      BooleanQuery([Clause(q, Should), Clause(PrefixQuery(q.term, q.boost / 4.0), Should)], q.boost, 0)
    else q
  }

  /** visit(BooleanQuery): the counter after the boolean is offered. */
  function VisitBool(q: Query, clauseCount: int): int
    requires q.BooleanQuery?
  {
    clauseCount + |q.clauses|
  }

  /** visit(BooleanClause): the counter after the clause, and whether to descend into it. */
  function VisitClause(c: Clause, clauseCount: int): (int, bool)
  {
    (clauseCount - 1, c.occur != MustNot)
  }
}
