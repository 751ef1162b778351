/**
 * FolderSearcher: a DIR query is answered from the FILE path field, as a
 * prefix of an absolute path or as a wildcard that finds the folder at any
 * depth.
 */
module Folders {
  import opened Strings
  import opened Fields
  import opened Queries

  /** visit(TermQuery / PrefixQuery / WildcardQuery, field). */
  function Visit(q: Query, field: Option<Field>): Query
    requires IsTermLike(q)
  {
    if field != Some(DIR) then q
    else
      var text := TermOf(q).text;
      var absolute := StartsWith(text, "/");
      match q
      case TermQuery(_, _) =>
        if absolute then PrefixQuery(CreateTerm(FILE, text), DefaultBoost)
        else WildcardQuery(CreateTerm(FILE, "/*/" + text + "/*"), DefaultBoost)
      case PrefixQuery(_, _) =>
        if absolute then PrefixQuery(CreateTerm(FILE, text), DefaultBoost)
        else WildcardQuery(CreateTerm(FILE, "/*/" + text + "*/*"), DefaultBoost)
      case WildcardQuery(_, _) =>
        if absolute then WildcardQuery(CreateTerm(FILE, text), DefaultBoost)
        else WildcardQuery(CreateTerm(FILE, "/*/" + text), DefaultBoost)
  }

  /**
   * A DIR node becomes a FILE node; an absolute folder keeps its text (a
   * prefix for a term or prefix, a wildcard for a wildcard), and a relative
   * one becomes a wildcard that matches the folder at any depth.
   */
  lemma DirBecomesFile(q: Query, field: Option<Field>)
    requires IsTermLike(q)
    ensures field != Some(DIR) ==> Visit(q, field) == q
    ensures field == Some(DIR) ==>
      var r := Visit(q, field);
      var t := TermOf(q).text;
      IsTermLike(r) && GetByName(TermOf(r).field) == Some(FILE)
      && (StartsWith(t, "/") ==> TermOf(r).text == t && (r.PrefixQuery? <==> !q.WildcardQuery?))
      && (!StartsWith(t, "/") ==>
            r.WildcardQuery? && StartsWith(TermOf(r).text, "/*/")
            && TermOf(r).text == "/*/" + t + (if q.TermQuery? then "/*" else if q.PrefixQuery? then "*/*" else ""))
  {
  }
}
