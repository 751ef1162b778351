/**
 * The visitor framework: `QueryVisitor`'s callbacks for each visitor of the
 * pipeline, the traversal `VisitableQuery.accept` makes over the clause
 * tree, and the `VisitableQuery` object itself.
 *
 * Boolean clauses are rewritten in place, so a traversal yields both the
 * replacement for a node and the node itself as the in-place rewrite left
 * it (`after`); the two differ when the visitor replaced the node. The
 * fields the visitors keep between callbacks (the root seen by `init`, the
 * clause counter, the filter map) are threaded through as a
 * `VisitorState`.
 */
module Visiting {
  import opened Strings
  import opened Fields
  import opened Queries
  import UppercaseNames
  import FileNames
  import Lowercasing
  import Fuzzifier
  import CsvExpansion
  import FieldAliases
  import ModifiedTime
  import Folders
  import LastTermPrefixing
  import Filters
  import WorkingSets
  import CurrentProject
  import PhraseSearching

  /** The visitors; `Identity` is QueryVisitor itself, whose callbacks change nothing. */
  datatype Visitor =
    | Identity
    | UppercaseNameExpander
    | FileNameSearcher
    | LowercaseConverter
    | QueryFuzzifier
    | CsvExpander
    | FieldAliasConverter
    | ModifiedTimeConverter(clock: ModifiedTime.Clock)
    | FolderSearcher
    | LastTermQueryPrefixer(minTermLength: int)
    | FilterSetter
    | WorkingSetExpander(projectsOf: string -> seq<string>)
    | CurrentProjectSetter(currentProject: string)
    | PhraseSearcher

  /**
   * The visitors' own fields: FileNameSearcher's root query, the
   * LastTermQueryPrefixer counter and the FilterSetter map.
   */
  datatype VisitorState = VisitorState(original: Option<Query>, clauseCount: int, filter: Filters.FilterMap)

  /** init(query). */
  function Init(v: Visitor, st: VisitorState, q: Query): VisitorState
  {
    if v.FileNameSearcher? then st.(original := Some(q)) else st
  }

  /** visit(TermQuery / PrefixQuery / WildcardQuery, field): the replacement and the visitor's new state. */
  function VisitTermLike(v: Visitor, st: VisitorState, q: Query, field: Option<Field>): (Query, VisitorState)
    requires IsTermLike(q)
  {
    match v
    case UppercaseNameExpander =>
      (if q.TermQuery? then UppercaseNames.Visit(q, field) else q, st)
    case FileNameSearcher =>
      (if q.TermQuery? then FileNames.Visit(q, field, st.original) else q, st)
    case LowercaseConverter =>
      (Lowercasing.VisitTermLike(q, field), st)
    case QueryFuzzifier =>
      (if q.TermQuery? then Fuzzifier.VisitTerm(q, field) else q, st)
    case CsvExpander =>
      (if q.TermQuery? then CsvExpansion.Visit(q, field) else q, st)
    case FieldAliasConverter =>
      (FieldAliases.Visit(q, field), st)
    case ModifiedTimeConverter(clock) =>
      (if q.TermQuery? then ModifiedTime.Visit(q, field, clock) else q, st)
    case FolderSearcher =>
      (Folders.Visit(q, field), st)
    case LastTermQueryPrefixer(minTermLength) =>
      (if q.TermQuery? then LastTermPrefixing.VisitTerm(q, st.clauseCount, minTermLength) else q, st)
    case FilterSetter =>
      var (r, rest) := Filters.AddFilters(q, field, st.filter);
      (r, st.(filter := rest))
    case WorkingSetExpander(projectsOf) =>
      (if q.TermQuery? then WorkingSets.Visit(q, field, projectsOf(q.term.text)) else q, st)
    case CurrentProjectSetter(project) =>
      (if q.TermQuery? then CurrentProject.Visit(q, field, project) else q, st)
    case _ => (q, st)
  }

  /**
   * visit(BooleanQuery): a phrase to put beside the boolean (PhraseSearcher
   * only; none means the boolean itself is returned) and the new state.
   * The traversal has no exception channel: PhraseSearcher's
   * IllegalArgumentException keeps the boolean here.
   */
  function VisitBool(v: Visitor, st: VisitorState, q: Query): (Option<Query>, VisitorState)
    requires q.BooleanQuery?
  {
    match v
    case LastTermQueryPrefixer(_) => (None, st.(clauseCount := LastTermPrefixing.VisitBool(q, st.clauseCount)))
    case PhraseSearcher =>
      var phrase := match PhraseSearching.VisitBool(q)
        case Beside(p) => Some(p)
        case _ => None;
      (phrase, st)
    case _ => (None, st)
  }

  /** visit(BooleanClause): whether to descend into the clause, and the new state. */
  function VisitClause(v: Visitor, st: VisitorState, c: Clause): (bool, VisitorState)
  {
    match v
    case QueryFuzzifier => (Fuzzifier.VisitClause(c), st)
    case LastTermQueryPrefixer(_) =>
      var (count, descend) := LastTermPrefixing.VisitClause(c, st.clauseCount);
      (descend, st.(clauseCount := count))
    case _ => (true, st)
  }

  /** visit(PhraseQuery). */
  function VisitPhrase(v: Visitor, q: Query): Query
    requires q.PhraseQuery?
  {
    match v
    case LowercaseConverter => Lowercasing.VisitPhrase(q)
    case QueryFuzzifier => Fuzzifier.VisitPhrase(q)
    case _ => q
  }

  /** endVisit(query): the final query and the new state. */
  function EndVisit(v: Visitor, st: VisitorState, q: Query): Query
  {
    if v.FilterSetter? then Filters.EndVisit(q, st.filter) else q
  }

  /** The visitors whose callbacks never change their fields during a traversal. */
  predicate KeepsNoState(v: Visitor)
  {
    !v.LastTermQueryPrefixer? && !v.FilterSetter?
  }

  /** The visitors that decline prohibited clauses. */
  predicate SkipsProhibited(v: Visitor)
  {
    v.QueryFuzzifier? || v.LastTermQueryPrefixer?
  }

  /**
   * The outcome of traversing a node: its replacement, the node as the
   * in-place rewrite of its clauses left it, and the visitor's state.
   */
  datatype Visited = Visited(result: Query, after: Query, state: VisitorState)

  /**
   * A term, prefix or wildcard node: the visitor's replacement for it, with
   * the field its term names, given the node's boost.
   */
  function VisitLeaf(v: Visitor, st: VisitorState, q: Query): (r: Visited)
    requires IsTermLike(q)
    ensures r.result.boost == q.boost && r.after == q
  {
    var p := VisitTermLike(v, st, q, GetByName(TermOf(q).field));
    Visited(WithBoost(p.0, q.boost), q, p.1)
  }

  /** The halved boost PhraseSearcher gives the boolean it puts beside a phrase. */
  function BoolBoostAfter(phrase: Option<Query>, boost: real): real
  {
    if phrase.Some? then boost * 0.5 else boost
  }

  /**
   * The private recursive accept(query, visitor). Term, prefix and wildcard
   * replacements get the node's boost; a boolean is offered to the visitor
   * before its clauses; a filtered query is rebuilt around its inner query
   * as rewritten in place; a phrase is handed to the visitor; other kinds go
   * to visitQuery, which keeps them.
   */
  function Traverse(v: Visitor, st: VisitorState, q: Query): (r: Visited)
    ensures KeepsNoState(v) ==> r.state == st
    decreases q, 1, 0
  {
    match q
    case TermQuery(_, _) => VisitLeaf(v, st, q)
    case PrefixQuery(_, _) => VisitLeaf(v, st, q)
    case WildcardQuery(_, _) => VisitLeaf(v, st, q)
    case BooleanQuery(clauses, b, msm) =>
      var (phrase, st1) := VisitBool(v, st, q);
      var (newClauses, st2) := TraverseClauses(v, st1, q, |clauses|);
      var mutated := BooleanQuery(newClauses, BoolBoostAfter(phrase, b), msm);
      var result :=
        if phrase.None? then mutated
        else BooleanQuery([Clause(phrase.value, Should), Clause(mutated, Should)], mutated.boost, msm);
      Visited(result, mutated, st2)
    case FilteredQuery(inner, id, b) =>
      var r := Traverse(v, st, inner);
      Visited(FilteredQuery(r.after, id, b), FilteredQuery(r.after, id, b), r.state)
    case PhraseQuery(_, _, _) =>
      Visited(VisitPhrase(v, q), q, st)
    case _ =>
      Visited(q, q, st)
  }

  /**
   * The loop over a boolean's first `k` clauses: a clause the visitor
   * declines keeps its query, any other gets its query's replacement.
   */
  function TraverseClauses(v: Visitor, st: VisitorState, parent: Query, k: nat): (r: (seq<Clause>, VisitorState))
    requires parent.BooleanQuery? && k <= |parent.clauses|
    ensures |r.0| == k
    ensures forall i :: 0 <= i < k ==> r.0[i].occur == parent.clauses[i].occur
    ensures SkipsProhibited(v) ==>
      forall i :: 0 <= i < k && parent.clauses[i].occur == MustNot ==> r.0[i] == parent.clauses[i]
    ensures KeepsNoState(v) ==> r.1 == st
    decreases parent, 0, k
  {
    if k == 0 then ([], st)
    else
      var (done, st1) := TraverseClauses(v, st, parent, k - 1);
      var c := parent.clauses[k - 1];
      assert c in parent.clauses;
      var (descend, st2) := VisitClause(v, st1, c);
      if !descend then (done + [c], st2)
      else
        var r := Traverse(v, st2, c.query);
        (done + [Clause(r.result, c.occur)], r.state)
  }

  /** accept(visitor): init on the root, the traversal, then endVisit on its result. */
  function Run(v: Visitor, st: VisitorState, q: Query): (Query, VisitorState)
  {
    var r := Traverse(v, Init(v, st, q), q);
    (EndVisit(v, r.state, r.result), r.state)
  }

  /** A query that visitors rewrite, one `accept` after another. */
  class VisitableQuery {
    var query: Query

    constructor (q: Query)
      ensures query == q
    {
      query := q;
    }

    /**
     * accept(visitor): the query becomes what the visitor makes of it; the
     * visitor's fields end as the traversal leaves them.
     */
    method Accept(v: Visitor, st: VisitorState) returns (st': VisitorState)
      modifies this
      ensures (query, st') == Run(v, st, old(query))
    {
      var st1 := Init(v, st, query);
      var r := AcceptNode(query, v, st1);
      query := EndVisit(v, r.state, r.result);
      st' := r.state;
    }

    /** The recursive accept(query, visitor). */
    method AcceptNode(q: Query, v: Visitor, st: VisitorState) returns (r: Visited)
      ensures r == Traverse(v, st, q)
      decreases q, 1
    {
      match q
      case BooleanQuery(_, _, _) => {
        r := AcceptBoolean(q, v, st);
      }
      case FilteredQuery(inner, id, b) => {
        var sub := AcceptNode(inner, v, st);
        r := Visited(FilteredQuery(sub.after, id, b), FilteredQuery(sub.after, id, b), sub.state);
      }
      case _ => {
        r := Traverse(v, st, q);
      }
    }

    /** accept(query, visitor) on a boolean: the visitor sees it, then its clauses one by one. */
    method AcceptBoolean(q: Query, v: Visitor, st: VisitorState) returns (r: Visited)
      requires q.BooleanQuery?
      ensures r == Traverse(v, st, q)
      decreases q, 0
    {
      var clauses := q.clauses;
      var (phrase, st1) := VisitBool(v, st, q);
      var newClauses: seq<Clause> := [];
      var s := st1;
      for i := 0 to |clauses|
        invariant (newClauses, s) == TraverseClauses(v, st1, q, i)
      {
        var c := clauses[i];
        assert c in clauses;
        var (descend, s1) := VisitClause(v, s, c);
        if descend {
          var sub := AcceptNode(c.query, v, s1);
          newClauses := newClauses + [Clause(sub.result, c.occur)];
          s := sub.state;
        } else {
          newClauses := newClauses + [c];
          s := s1;
        }
      }
      var mutated := BooleanQuery(newClauses, BoolBoostAfter(phrase, q.boost), q.minShouldMatch);
      var result := mutated;
      if phrase.Some? {
        result := BooleanQuery([Clause(phrase.value, Should), Clause(mutated, Should)], mutated.boost, q.minShouldMatch);
      }
      r := Visited(result, mutated, s);
    }
  }
}
