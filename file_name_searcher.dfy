/**
 * FileNameSearcher: when the whole query is one CONTENTS term, the file
 * name is searched as well, at twice the weight.
 */
module FileNames {
  import opened Strings
  import opened Fields
  import opened Queries

  /**
   * visit(TermQuery, field). `original` is the root remembered by `init`;
   * the source compares node identity, and a term node can only be the
   * root itself when the root is that term.
   */
  function Visit(q: Query, field: Option<Field>, original: Option<Query>): Query
    requires q.TermQuery?
  {
    if field == Some(CONTENTS) && original == Some(q) then
      AnyOf([TermQuery(CreateTerm(NAME, q.term.text), q.boost * 2.0), q])
    else q
  }

  /**
   * Only the root term, and only in CONTENTS, is expanded: to the OR of the
   * NAME term with the same text at twice the boost and the term itself.
   */
  lemma RootContentsTermExpanded(q: Query, field: Option<Field>, original: Option<Query>)
    requires q.TermQuery?
    ensures field != Some(CONTENTS) || original != Some(q) ==> Visit(q, field, original) == q
    ensures field == Some(CONTENTS) && original == Some(q) ==>
      var r := Visit(q, field, original);
      r.BooleanQuery? && |r.clauses| == 2 && r.clauses[1] == Clause(q, Should)
      && r.clauses[0].occur == Should && r.clauses[0].query.TermQuery?
      && GetByName(r.clauses[0].query.term.field) == Some(NAME)
      && r.clauses[0].query.term.text == q.term.text && r.clauses[0].query.boost == 2.0 * q.boost
  {
  }
}
