/**
 * WorkingSetExpander: a WS term names an Eclipse working set and becomes an
 * OR over the projects it holds. The lookup of a working set's projects is
 * outside the model and is passed in.
 */
module WorkingSets {
  import opened Strings
  import opened Fields
  import opened Queries

  /** One PROJ term for every project name, in order. */
  function ProjectTerms(projects: seq<string>): (r: seq<Query>)
    ensures |r| == |projects|
    ensures forall k :: 0 <= k < |projects| ==> r[k] == TermQuery(CreateTerm(PROJ, projects[k]), DefaultBoost)
  {
    seq(|projects|, k requires 0 <= k < |projects| => TermQuery(CreateTerm(PROJ, projects[k]), DefaultBoost))
  }

  /** visit(TermQuery, field), given the projects of the term's working set. */
  function Visit(q: Query, field: Option<Field>, projects: seq<string>): Query
    requires q.TermQuery?
  {
    if field != Some(WS) || |projects| == 0 then q
    else AnyOf(ProjectTerms(NonEmpty(projects)))
  }

  /** The loop of visit(TermQuery, field) that adds one SHOULD clause per non-empty project. */
  method Expand(q: Query, field: Option<Field>, projects: seq<string>) returns (r: Query)
    requires q.TermQuery?
    ensures r == Visit(q, field, projects)
  {
    if field != Some(WS) || |projects| == 0 {
      return q;
    }
    var clauses: seq<Clause> := [];
    ghost var kept: seq<string> := [];
    var i := 0;
    while i < |projects|
      invariant 0 <= i <= |projects|
      invariant kept == NonEmpty(projects[..i])
      invariant clauses == ShouldClauses(ProjectTerms(kept))
    {
      NonEmptyAppend(projects[..i], projects[i]);
      assert projects[..i + 1] == projects[..i] + [projects[i]];
      if projects[i] != "" {
        AppendProject(kept, projects[i]);
        clauses := clauses + [Clause(TermQuery(CreateTerm(PROJ, projects[i]), DefaultBoost), Should)];
        kept := kept + [projects[i]];
      }
      i := i + 1;
    }
    assert projects[..i] == projects;
    r := NewBoolean(clauses);
  }

  lemma AppendProject(projects: seq<string>, p: string)
    ensures ShouldClauses(ProjectTerms(projects + [p]))
         == ShouldClauses(ProjectTerms(projects)) + [Clause(TermQuery(CreateTerm(PROJ, p), DefaultBoost), Should)]
  {
    assert ProjectTerms(projects + [p]) == ProjectTerms(projects) + [TermQuery(CreateTerm(PROJ, p), DefaultBoost)];
  }

  /**
   * A WS term with projects becomes an OR with one PROJ term for each
   * project name that is not empty, in lookup order; without projects, or
   * in another field, the term is kept.
   */
  lemma WorkingSetToProjects(q: Query, field: Option<Field>, projects: seq<string>)
    requires q.TermQuery?
    ensures field != Some(WS) || projects == [] ==> Visit(q, field, projects) == q
    ensures field == Some(WS) && projects != [] ==>
      var r := Visit(q, field, projects);
      r.BooleanQuery? && |r.clauses| == |NonEmpty(projects)|
      && (forall k :: 0 <= k < |r.clauses| ==>
            r.clauses[k].occur == Should && r.clauses[k].query.TermQuery?
            && GetByName(r.clauses[k].query.term.field) == Some(PROJ))
      && (forall p :: p in projects && p != "" <==> ProjectClause(p) in r.clauses)
  {
    if field == Some(WS) && projects != [] {
      var kept := NonEmpty(projects);
      var cs := ShouldClauses(ProjectTerms(kept));
      assert Visit(q, field, projects).clauses == cs;
      ProjectClauses(kept);
    }
  }

  /** The SHOULD clause of a project's PROJ term. */
  function ProjectClause(p: string): Clause
  {
    Clause(TermQuery(CreateTerm(PROJ, p), DefaultBoost), Should)
  }

  /** The clauses for a list of project names hold exactly the clauses of those names. */
  lemma ProjectClauses(kept: seq<string>)
    ensures forall p :: p in kept <==> ProjectClause(p) in ShouldClauses(ProjectTerms(kept))
  {
    var cs := ShouldClauses(ProjectTerms(kept));
    assert forall k :: 0 <= k < |kept| ==> cs[k] == ProjectClause(kept[k]);
    forall p ensures p in kept <==> ProjectClause(p) in cs {
      if ProjectClause(p) in cs {
        var k :| 0 <= k < |cs| && cs[k] == ProjectClause(p);
        assert kept[k] == p;
      }
    }
  }
}
