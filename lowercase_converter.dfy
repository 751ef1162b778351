/**
 * LowercaseConverter: the text of CONTENTS terms, prefixes, wildcards and
 * phrases is lower-cased, because the index stores contents in lower case.
 */
module Lowercasing {
  import opened Strings
  import opened Fields
  import opened Queries

  /** The CONTENTS term for the lower-cased text. */
  function LowerTerm(t: Term): Term
  {
    CreateTerm(CONTENTS, Lower(t.text))
  }

  /**
   * visit(TermQuery / PrefixQuery / WildcardQuery, field): a CONTENTS node
   * is rebuilt, same kind, at the default boost, for the lower-cased text.
   */
  function VisitTermLike(q: Query, field: Option<Field>): Query
    requires IsTermLike(q)
  {
    if field == Some(CONTENTS) then SameKind(q, LowerTerm(TermOf(q))) else q
  }

  predicate AllContents(ts: seq<Term>)
  {
    forall i :: 0 <= i < |ts| ==> GetByName(ts[i].field) == Some(CONTENTS)
  }

  function LowerTerms(ts: seq<Term>): (r: seq<Term>)
    ensures |r| == |ts| && forall i :: 0 <= i < |ts| ==> r[i] == LowerTerm(ts[i])
  {
    seq(|ts|, i requires 0 <= i < |ts| => LowerTerm(ts[i]))
  }

  /**
   * visit(PhraseQuery): the phrase of the lower-cased terms with the same
   * slop and boost, or the phrase itself when a term is not CONTENTS.
   */
  function VisitPhrase(q: Query): Query
    requires q.PhraseQuery?
  {
    if AllContents(q.terms) then PhraseQuery(LowerTerms(q.terms), q.slop, q.boost) else q
  }

  /** The loop of visit(PhraseQuery) that adds the lower-cased terms one by one. */
  method LowerPhrase(q: Query) returns (r: Query)
    requires q.PhraseQuery?
    ensures r == VisitPhrase(q)
  {
    var terms: seq<Term> := [];
    var i := 0;
    while i < |q.terms|
      invariant 0 <= i <= |q.terms|
      invariant AllContents(q.terms[..i])
      invariant terms == LowerTerms(q.terms[..i])
    {
      if GetByName(q.terms[i].field) != Some(CONTENTS) {
        return q;
      }
      assert q.terms[..i + 1] == q.terms[..i] + [q.terms[i]];
      terms := terms + [LowerTerm(q.terms[i])];
      i := i + 1;
    }
    assert q.terms[..i] == q.terms;
    r := PhraseQuery(terms, q.slop, q.boost);
  }

  /**
   * A lower-cased phrase keeps the number and order of its terms, its slop
   * and its boost; each term is the CONTENTS term of the lower-cased text.
   */
  lemma PhraseKeepsOrderSlopAndBoost(q: Query)
    requires q.PhraseQuery? && AllContents(q.terms)
    ensures var r := VisitPhrase(q);
      r.PhraseQuery? && r.slop == q.slop && r.boost == q.boost && |r.terms| == |q.terms|
      && forall i :: 0 <= i < |q.terms| ==>
           r.terms[i].field == "contents" && r.terms[i].text == Lower(q.terms[i].text)
  {
  }

  /** A CONTENTS term, prefix or wildcard keeps its kind and its text in lower case. */
  lemma TermLikeLowered(q: Query, field: Option<Field>)
    requires IsTermLike(q)
    ensures field != Some(CONTENTS) ==> VisitTermLike(q, field) == q
    ensures field == Some(CONTENTS) ==>
      var r := VisitTermLike(q, field);
      IsTermLike(r) && r.TermQuery? == q.TermQuery? && r.PrefixQuery? == q.PrefixQuery?
      && TermOf(r).field == "contents" && TermOf(r).text == Lower(TermOf(q).text)
      && GetByName(TermOf(r).field) == Some(CONTENTS)
  {
  }

  /**
   * Lower-casing a node twice, each time at the boost it had, gives what
   * lower-casing it once gives.
   */
  lemma TermLikeIdempotent(q: Query, b: real)
    requires IsTermLike(q)
    ensures var r := WithBoost(VisitTermLike(q, GetByName(TermOf(q).field)), b);
      IsTermLike(r) && WithBoost(VisitTermLike(r, GetByName(TermOf(r).field)), b) == r
  {
    if GetByName(TermOf(q).field) == Some(CONTENTS) {
      LowerIdempotent(TermOf(q).text);
    }
  }

  /** Lower-casing a phrase twice gives what lower-casing it once gives. */
  lemma PhraseIdempotent(q: Query)
    requires q.PhraseQuery?
    ensures VisitPhrase(q).PhraseQuery? && VisitPhrase(VisitPhrase(q)) == VisitPhrase(q)
  {
    if AllContents(q.terms) {
      var ts := LowerTerms(q.terms);
      assert AllContents(ts);
      forall i | 0 <= i < |ts| ensures LowerTerm(ts[i]) == ts[i] {
        LowerIdempotent(q.terms[i].text);
      }
      assert LowerTerms(ts) == ts;
    }
  }
}
