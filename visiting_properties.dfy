/**
 * What a whole traversal does, visitor by visitor: the base visitor changes
 * nothing; boosts and clause kinds survive; prohibited clauses are skipped
 * by the visitors that say so; LastTermQueryPrefixer touches exactly the
 * last term and leaves its counter as it found it; FileNameSearcher only
 * ever expands the root; LowercaseConverter is idempotent; FilterSetter
 * only ever uses up filter entries.
 */
module VisitingProperties {
  import opened Strings
  import opened Fields
  import opened Queries
  import opened Visiting
  import Lowercasing
  import Filters

  // ---------------------------------------------------------------- base visitor

  /** With QueryVisitor's own callbacks a traversal returns every node unchanged. */
  lemma {:induction false} IdentityTraverse(st: VisitorState, q: Query)
    ensures Traverse(Identity, st, q) == Visited(q, q, st)
    decreases q, 1, 0
  {
    match q
    case BooleanQuery(clauses, b, msm) =>
      IdentityClauses(st, q, |clauses|);
      assert clauses[..|clauses|] == clauses;
    case FilteredQuery(inner, id, b) =>
      IdentityTraverse(st, inner);
    case _ =>
  }

  lemma {:induction false} IdentityClauses(st: VisitorState, parent: Query, k: nat)
    requires parent.BooleanQuery? && k <= |parent.clauses|
    ensures TraverseClauses(Identity, st, parent, k) == (parent.clauses[..k], st)
    decreases parent, 0, k
  {
    if k > 0 {
      IdentityClauses(st, parent, k - 1);
      var c := parent.clauses[k - 1];
      assert c in parent.clauses;
      IdentityTraverse(st, c.query);
      assert parent.clauses[..k] == parent.clauses[..k - 1] + [c];
    }
  }

  /** accept with QueryVisitor itself leaves the query and the state as they are. */
  lemma IdentityRun(st: VisitorState, q: Query)
    ensures Run(Identity, st, q) == (q, st)
  {
    IdentityTraverse(st, q);
  }

  // ---------------------------------------------------------------- boosts and clauses

  /** A replaced term, prefix or wildcard carries the node's boost. */
  lemma TermLikeKeepsBoost(v: Visitor, st: VisitorState, q: Query)
    requires IsTermLike(q)
    ensures Traverse(v, st, q).result.boost == q.boost
  {
    assert Traverse(v, st, q) == VisitLeaf(v, st, q);
  }

  /**
   * A boolean keeps its boost, its minimum-should-match and its clauses'
   * kinds, unless PhraseSearcher puts a phrase beside it.
   */
  lemma BoolKeepsBoost(v: Visitor, st: VisitorState, q: Query)
    requires q.BooleanQuery? && (v.PhraseSearcher? ==> VisitBool(v, st, q).0.None?)
    ensures var r := Traverse(v, st, q).result;
      r.BooleanQuery? && r.boost == q.boost && r.minShouldMatch == q.minShouldMatch
      && |r.clauses| == |q.clauses|
      && forall i :: 0 <= i < |q.clauses| ==> r.clauses[i].occur == q.clauses[i].occur
  {
    var (phrase, st1) := VisitBool(v, st, q);
    assert phrase.None?;
    var cs := TraverseClauses(v, st1, q, |q.clauses|).0;
    assert Traverse(v, st, q).result == BooleanQuery(cs, q.boost, q.minShouldMatch);
  }

  /**
   * When PhraseSearcher puts a phrase beside a boolean, the result is the
   * OR of the phrase, at the boolean's boost, and the boolean rewritten in
   * place, at half of it; the OR takes the halved boost too.
   */
  lemma PhraseBesideBoolean(st: VisitorState, q: Query)
    requires q.BooleanQuery? && VisitBool(PhraseSearcher, st, q).0.Some?
    ensures var r := Traverse(PhraseSearcher, st, q);
      var phrase := VisitBool(PhraseSearcher, st, q).0.value;
      r.result.BooleanQuery? && r.result.boost == q.boost * 0.5 && r.result.minShouldMatch == q.minShouldMatch
      && r.result.clauses == [Clause(phrase, Should), Clause(r.after, Should)]
      && phrase.PhraseQuery? && phrase.boost == q.boost && r.after.boost == q.boost * 0.5
  {
  }

  /** QueryFuzzifier and LastTermQueryPrefixer leave every prohibited clause of a boolean as it was. */
  lemma ProhibitedClausesSkipped(v: Visitor, st: VisitorState, q: Query)
    requires q.BooleanQuery? && (v.QueryFuzzifier? || v.LastTermQueryPrefixer?)
    ensures var r := Traverse(v, st, q).result;
      r.BooleanQuery? && |r.clauses| == |q.clauses|
      && forall i :: 0 <= i < |q.clauses| && q.clauses[i].occur == MustNot ==> r.clauses[i] == q.clauses[i]
  {
  }

  // ---------------------------------------------------------------- LastTermQueryPrefixer

  /**
   * The reference for what LastTermQueryPrefixer does from a zero counter:
   * the last clause of every boolean along the right edge of the tree is
   * followed down to a term, which is prefixed when it is long enough; a
   * prohibited last clause stops the descent. A filtered query shows only
   * the in-place effect on its inner query (`AfterPrefixLast`).
   */
  function PrefixLast(q: Query, minTermLength: int): Query
    decreases q, 0
  {
    match q
    case TermQuery(t, b) =>
      if |t.text| >= minTermLength then
        BooleanQuery([Clause(q, Should), Clause(PrefixQuery(t, b / 4.0), Should)], b, 0)
      else q
    case BooleanQuery(cs, b, msm) =>
      if cs == [] || cs[|cs| - 1].occur == MustNot then q
      else
        var last := cs[|cs| - 1];
        assert last in cs;
        BooleanQuery(cs[..|cs| - 1] + [Clause(PrefixLast(last.query, minTermLength), last.occur)], b, msm)
    case FilteredQuery(inner, id, b) => FilteredQuery(AfterPrefixLast(inner, minTermLength), id, b)
    case _ => q
  }

  /** The node itself after the prefixer's in-place rewrite of its clauses. */
  function AfterPrefixLast(q: Query, minTermLength: int): Query
    decreases q, 1
  {
    match q
    case BooleanQuery(_, _, _) => PrefixLast(q, minTermLength)
    case FilteredQuery(inner, id, b) => FilteredQuery(AfterPrefixLast(inner, minTermLength), id, b)
    case _ => q
  }

  /** With a positive counter nothing is the last term: the traversal changes nothing, the counter included. */
  lemma {:induction false} PrefixerUnchanged(m: int, st: VisitorState, q: Query)
    requires st.clauseCount > 0
    ensures Traverse(LastTermQueryPrefixer(m), st, q) == Visited(q, q, st)
    decreases q, 1, 0
  {
    match q
    case BooleanQuery(clauses, b, msm) =>
      var st1 := st.(clauseCount := st.clauseCount + |clauses|);
      PrefixerClausesUnchanged(m, st1, q, |clauses|);
      assert clauses[..|clauses|] == clauses;
    case FilteredQuery(inner, id, b) =>
      PrefixerUnchanged(m, st, inner);
    case TermQuery(_, _) => PrefixerLeafUnchanged(m, st, q);
    case PrefixQuery(_, _) => PrefixerLeafUnchanged(m, st, q);
    case WildcardQuery(_, _) => PrefixerLeafUnchanged(m, st, q);
    case _ =>
  }

  lemma PrefixerLeafUnchanged(m: int, st: VisitorState, q: Query)
    requires IsTermLike(q) && st.clauseCount > 0
    ensures VisitLeaf(LastTermQueryPrefixer(m), st, q) == Visited(q, q, st)
  {
    if q.TermQuery? {
      assert LastTermPrefixing.VisitTerm(q, st.clauseCount, m) == q;
    }
  }

  /** The first `k` clauses are visited with a positive counter and stay as they are; the counter drops by `k`. */
  lemma {:induction false} PrefixerClausesUnchanged(m: int, st: VisitorState, parent: Query, k: nat)
    requires parent.BooleanQuery? && k <= |parent.clauses|
    requires st.clauseCount > k
    ensures TraverseClauses(LastTermQueryPrefixer(m), st, parent, k)
         == (parent.clauses[..k], st.(clauseCount := st.clauseCount - k))
    decreases parent, 0, k
  {
    if k > 0 {
      PrefixerClausesUnchanged(m, st, parent, k - 1);
      var c := parent.clauses[k - 1];
      assert c in parent.clauses;
      var s := st.(clauseCount := st.clauseCount - k);
      if c.occur != MustNot {
        PrefixerUnchanged(m, s, c.query);
      }
      assert parent.clauses[..k] == parent.clauses[..k - 1] + [c];
    }
  }

  /**
   * The boolean step from a zero counter: the clauses before the last are
   * visited with a positive counter, the last one with zero.
   */
  lemma PrefixerBoolStep(m: int, st: VisitorState, q: Query)
    requires st.clauseCount == 0 && q.BooleanQuery? && q.clauses != []
    requires var c := q.clauses[|q.clauses| - 1];
      c.occur != MustNot ==>
        Traverse(LastTermQueryPrefixer(m), st, c.query) == Visited(PrefixLast(c.query, m), AfterPrefixLast(c.query, m), st)
    ensures Traverse(LastTermQueryPrefixer(m), st, q) == Visited(PrefixLast(q, m), AfterPrefixLast(q, m), st)
  {
    var n := |q.clauses|;
    var v := LastTermQueryPrefixer(m);
    var st1 := st.(clauseCount := n);
    assert VisitBool(v, st, q) == (None, st1);
    PrefixerClausesUnchanged(m, st1, q, n - 1);
    var c := q.clauses[n - 1];
    var s := st1.(clauseCount := st1.clauseCount - (n - 1));
    assert VisitClause(v, s, c) == (c.occur != MustNot, st);
    var cs := TraverseClauses(v, st1, q, n).0;
    if c.occur != MustNot {
      assert cs == q.clauses[..n - 1] + [Clause(PrefixLast(c.query, m), c.occur)];
    } else {
      assert cs == q.clauses[..n - 1] + [c];
      assert q.clauses[..n - 1] + [c] == q.clauses;
    }
  }

  /**
   * From a zero counter the traversal is the reference: only the last term
   * is prefixed, and the counter ends at zero again.
   */
  lemma {:induction false} PrefixerPrefixesLast(m: int, st: VisitorState, q: Query)
    requires st.clauseCount == 0
    ensures Traverse(LastTermQueryPrefixer(m), st, q) == Visited(PrefixLast(q, m), AfterPrefixLast(q, m), st)
    decreases q
  {
    match q
    case BooleanQuery(clauses, b, msm) =>
      if clauses != [] {
        var c := clauses[|clauses| - 1];
        assert c in clauses;
        if c.occur != MustNot {
          PrefixerPrefixesLast(m, st, c.query);
        }
        PrefixerBoolStep(m, st, q);
      }
    case FilteredQuery(inner, id, b) =>
      PrefixerPrefixesLast(m, st, inner);
    case _ =>
  }

  /**
   * accept(LastTermQueryPrefixer) from a zero counter gives the reference
   * and hands the counter back at zero, ready for the next query.
   */
  lemma PrefixerRun(m: int, st: VisitorState, q: Query)
    requires st.clauseCount == 0
    ensures Run(LastTermQueryPrefixer(m), st, q) == (PrefixLast(q, m), st)
  {
    PrefixerPrefixesLast(m, st, q);
  }

  // ---------------------------------------------------------------- FileNameSearcher

  /** A traversal whose remembered root is not a term expands nothing. */
  lemma {:induction false} FileNameUnchanged(st: VisitorState, q: Query)
    requires st.original.Some? ==> !st.original.value.TermQuery?
    ensures Traverse(FileNameSearcher, st, q) == Visited(q, q, st)
    decreases q, 1, 0
  {
    match q
    case BooleanQuery(clauses, b, msm) =>
      FileNameClausesUnchanged(st, q, |clauses|);
      assert clauses[..|clauses|] == clauses;
    case FilteredQuery(inner, id, b) =>
      FileNameUnchanged(st, inner);
    case _ =>
  }

  lemma {:induction false} FileNameClausesUnchanged(st: VisitorState, parent: Query, k: nat)
    requires parent.BooleanQuery? && k <= |parent.clauses|
    requires st.original.Some? ==> !st.original.value.TermQuery?
    ensures TraverseClauses(FileNameSearcher, st, parent, k) == (parent.clauses[..k], st)
    decreases parent, 0, k
  {
    if k > 0 {
      FileNameClausesUnchanged(st, parent, k - 1);
      var c := parent.clauses[k - 1];
      assert c in parent.clauses;
      FileNameUnchanged(st, c.query);
      assert parent.clauses[..k] == parent.clauses[..k - 1] + [c];
    }
  }

  /**
   * accept(FileNameSearcher): a query that is one CONTENTS term becomes the
   * OR of the NAME term for its text at twice its boost and itself, at its
   * boost; any other query, with all the terms nested in it, is unchanged.
   */
  lemma FileNameOnlyAtRoot(st: VisitorState, q: Query)
    ensures Run(FileNameSearcher, st, q).0
         == if q.TermQuery? && GetByName(q.term.field) == Some(CONTENTS) then
              BooleanQuery([Clause(TermQuery(CreateTerm(NAME, q.term.text), q.boost * 2.0), Should), Clause(q, Should)], q.boost, 0)
            else q
  {
    var st1 := Init(FileNameSearcher, st, q);
    if !q.TermQuery? {
      FileNameUnchanged(st1, q);
    }
  }

  // ---------------------------------------------------------------- LowercaseConverter

  /**
   * Lower-casing a tree that is already lower-cased changes nothing: both
   * the replacement and the node as rewritten in place are fixed points.
   */
  lemma {:induction false} LowercaseIdempotent(st: VisitorState, q: Query)
    ensures var r := Traverse(LowercaseConverter, st, q);
      Traverse(LowercaseConverter, st, r.result).result == r.result
      && Traverse(LowercaseConverter, st, r.after).after == r.after
    decreases q, 1, 0
  {
    var v := LowercaseConverter;
    match q
    case TermQuery(t, b) =>
      Lowercasing.TermLikeIdempotent(q, b);
    case PrefixQuery(t, b) =>
      Lowercasing.TermLikeIdempotent(q, b);
    case WildcardQuery(t, b) =>
      Lowercasing.TermLikeIdempotent(q, b);
    case PhraseQuery(_, _, _) =>
      Lowercasing.PhraseIdempotent(q);
    case BooleanQuery(clauses, b, msm) =>
      var n := |clauses|;
      LowercaseClausesIdempotent(st, q, n);
      var cs := TraverseClauses(v, st, q, n).0;
      var q2 := BooleanQuery(cs, b, msm);
      assert Traverse(v, st, q).result == q2 && Traverse(v, st, q).after == q2;
      LowercaseClausesFixed(st, q, q2, n);
      assert cs[..n] == cs;
    case FilteredQuery(inner, id, b) =>
      LowercaseIdempotent(st, inner);
    case _ =>
  }

  /** Each rewritten clause holds a lower-casing fixed point, and the state is untouched. */
  lemma {:induction false} LowercaseClausesIdempotent(st: VisitorState, parent: Query, k: nat)
    requires parent.BooleanQuery? && k <= |parent.clauses|
    ensures var cs := TraverseClauses(LowercaseConverter, st, parent, k).0;
      forall i :: 0 <= i < k ==>
           cs[i].occur == parent.clauses[i].occur
           && Traverse(LowercaseConverter, st, cs[i].query).result == cs[i].query
    decreases parent, 0, k
  {
    if k > 0 {
      LowercaseClausesIdempotent(st, parent, k - 1);
      var c := parent.clauses[k - 1];
      assert c in parent.clauses;
      LowercaseIdempotent(st, c.query);
    }
  }

  /** Traversing clauses that are all fixed points gives them back. */
  lemma {:induction false} LowercaseClausesFixed(st: VisitorState, parent: Query, fixed: Query, k: nat)
    requires parent.BooleanQuery? && fixed.BooleanQuery? && k <= |fixed.clauses|
    requires forall i :: 0 <= i < |fixed.clauses| ==>
      Traverse(LowercaseConverter, st, fixed.clauses[i].query).result == fixed.clauses[i].query
    ensures TraverseClauses(LowercaseConverter, st, fixed, k) == (fixed.clauses[..k], st)
    decreases k
  {
    if k > 0 {
      LowercaseClausesFixed(st, parent, fixed, k - 1);
      var c := fixed.clauses[k - 1];
      assert Traverse(LowercaseConverter, st, c.query).result == c.query;
      assert Clause(c.query, c.occur) == c;
      assert fixed.clauses[..k] == fixed.clauses[..k - 1] + [c];
    }
  }

  /** accept(LowercaseConverter) twice gives what accepting it once gives. */
  lemma LowercaseRunIdempotent(st: VisitorState, q: Query)
    ensures Run(LowercaseConverter, st, Run(LowercaseConverter, st, q).0) == Run(LowercaseConverter, st, q)
  {
    LowercaseIdempotent(st, q);
  }

  // ---------------------------------------------------------------- FilterSetter

  /** `a` holds some of the entries of `b`, each with its values unchanged. */
  predicate SubFilter(a: Filters.FilterMap, b: Filters.FilterMap)
  {
    a.Keys <= b.Keys && forall f :: f in a ==> a[f] == b[f]
  }

  /**
   * A FilterSetter traversal only removes entries from the filter, and
   * touches no other part of the state.
   */
  lemma {:induction false} FilterOnlyShrinks(st: VisitorState, q: Query)
    ensures var s := Traverse(FilterSetter, st, q).state;
      s.original == st.original && s.clauseCount == st.clauseCount && SubFilter(s.filter, st.filter)
    decreases q, 1, 0
  {
    match q
    case BooleanQuery(clauses, b, msm) =>
      FilterClausesShrink(st, q, |clauses|);
    case FilteredQuery(inner, id, b) =>
      FilterOnlyShrinks(st, inner);
    case _ =>
  }

  lemma {:induction false} FilterClausesShrink(st: VisitorState, parent: Query, k: nat)
    requires parent.BooleanQuery? && k <= |parent.clauses|
    ensures var s := TraverseClauses(FilterSetter, st, parent, k).1;
      s.original == st.original && s.clauseCount == st.clauseCount && SubFilter(s.filter, st.filter)
    decreases parent, 0, k
  {
    if k > 0 {
      FilterClausesShrink(st, parent, k - 1);
      var c := parent.clauses[k - 1];
      assert c in parent.clauses;
      FilterOnlyShrinks(TraverseClauses(FilterSetter, st, parent, k - 1).1, c.query);
    }
  }
}
