/**
 * QueryFuzzifier: every CONTENTS term is widened to "term* OR *term* OR
 * term~", and a CONTENTS phrase to an OR of fuzzy terms; prohibited clauses
 * are left alone.
 */
module Fuzzifier {
  import opened Strings
  import opened Fields
  import opened Queries

  /** visit(TermQuery, field). */
  function VisitTerm(q: Query, field: Option<Field>): Query
    requires q.TermQuery?
  {
    if field != Some(CONTENTS) then q
    else
      var b := q.boost;
      BooleanQuery([
        Clause(PrefixQuery(q.term, b), Should),
        Clause(WildcardQuery(CreateTerm(CONTENTS, "*" + q.term.text + "*"), b * 0.75), Should),
        Clause(FuzzyQuery(q.term, b * 0.5), Should)], b, 0)
  }

  predicate AllContents(ts: seq<Term>)
  {
    forall i :: 0 <= i < |ts| ==> GetByName(ts[i].field) == Some(CONTENTS)
  }

  /** One fuzzy query per term, at the default boost. */
  function FuzzyTerms(ts: seq<Term>): (r: seq<Query>)
    ensures |r| == |ts| && forall i :: 0 <= i < |ts| ==> r[i] == FuzzyQuery(ts[i], DefaultBoost)
  {
    seq(|ts|, i requires 0 <= i < |ts| => FuzzyQuery(ts[i], DefaultBoost))
  }

  /**
   * visit(PhraseQuery): the OR of fuzzy queries for the phrase's terms, at
   * the default boost (the phrase's boost is not carried over), or the phrase
   * itself when a term is not CONTENTS.
   */
  function VisitPhrase(q: Query): Query
    requires q.PhraseQuery?
  {
    if AllContents(q.terms) then AnyOf(FuzzyTerms(q.terms)) else q
  }

  /** The loop of visit(PhraseQuery) that adds one fuzzy clause per term. */
  method FuzzifyPhrase(q: Query) returns (r: Query)
    requires q.PhraseQuery?
    ensures r == VisitPhrase(q)
  {
    var clauses: seq<Clause> := [];
    var i := 0;
    while i < |q.terms|
      invariant 0 <= i <= |q.terms|
      invariant AllContents(q.terms[..i])
      invariant |clauses| == i
      invariant forall k :: 0 <= k < i ==> clauses[k] == Clause(FuzzyQuery(q.terms[k], DefaultBoost), Should)
    {
      if GetByName(q.terms[i].field) != Some(CONTENTS) {
        return q;
      }
      assert q.terms[..i + 1] == q.terms[..i] + [q.terms[i]];
      clauses := clauses + [Clause(FuzzyQuery(q.terms[i], DefaultBoost), Should)];
      i := i + 1;
    }
    assert q.terms[..i] == q.terms;
    assert clauses == ShouldClauses(FuzzyTerms(q.terms));
    r := NewBoolean(clauses);
  }

  /** visit(BooleanClause): prohibited clauses are not descended. */
  function VisitClause(c: Clause): bool
  {
    c.occur != MustNot
  }

  /**
   * A CONTENTS term becomes a boolean of three SHOULD alternatives carrying
   * the term's boost: the prefix at the same boost, the "*text*" wildcard at
   * three quarters and the fuzzy term at half of it; other terms stay.
   */
  lemma TermWidened(q: Query, field: Option<Field>)
    requires q.TermQuery?
    ensures field != Some(CONTENTS) ==> VisitTerm(q, field) == q
    ensures field == Some(CONTENTS) ==>
      var r := VisitTerm(q, field);
      r.BooleanQuery? && r.boost == q.boost && |r.clauses| == 3
      && (forall i :: 0 <= i < 3 ==> r.clauses[i].occur == Should)
      && r.clauses[0].query == PrefixQuery(q.term, q.boost)
      && r.clauses[1].query.WildcardQuery?
      && r.clauses[1].query.pattern.text == "*" + q.term.text + "*"
      && r.clauses[1].query.boost == q.boost * 3.0 / 4.0
      && r.clauses[2].query == FuzzyQuery(q.term, q.boost / 2.0)
  {
  }

  /**
   * A phrase of CONTENTS terms becomes an OR of one fuzzy query per term,
   * in order; a phrase with a term of another field is kept.
   */
  lemma PhraseFuzzified(q: Query)
    requires q.PhraseQuery?
    ensures (exists i :: 0 <= i < |q.terms| && GetByName(q.terms[i].field) != Some(CONTENTS)) ==> VisitPhrase(q) == q
    ensures AllContents(q.terms) ==>
      var r := VisitPhrase(q);
      r.BooleanQuery? && r.minShouldMatch == 0 && |r.clauses| == |q.terms|
      && forall i :: 0 <= i < |q.terms| ==> r.clauses[i] == Clause(FuzzyQuery(q.terms[i], DefaultBoost), Should)
  {
  }
}
