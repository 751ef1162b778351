/**
 * CurrentProjectSetter: "." in a PROJ or CONTENTS term stands for the
 * project of the active editor.
 */
module CurrentProject {
  import opened Strings
  import opened Fields
  import opened Queries

  /** The text that names the current project. */
  const CurrentProjectChar: string := "."

  /** visit(TermQuery, field), with the project set before the visit. */
  function Visit(q: Query, field: Option<Field>, currentProject: string): Query
    requires q.TermQuery?
  {
    if q.term.text == CurrentProjectChar && (field == Some(PROJ) || field == Some(CONTENTS)) then
      TermQuery(CreateTerm(PROJ, currentProject), DefaultBoost)
    else q
  }

  /**
   * A "." term in PROJ or CONTENTS becomes the PROJ term of the current
   * project; every other term, "." in another field included, is kept.
   */
  lemma DotIsCurrentProject(q: Query, field: Option<Field>, currentProject: string)
    requires q.TermQuery?
    ensures var r := Visit(q, field, currentProject);
      if q.term.text == "." && field in {Some(PROJ), Some(CONTENTS)} then
        r.TermQuery? && GetByName(r.term.field) == Some(PROJ) && r.term.text == currentProject
      else r == q
  {
  }
}
