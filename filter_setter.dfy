/**
 * FilterSetter: the search filter (for each field, the values the user
 * restricted the search to) is worked into the query. A term, prefix or
 * wildcard node in a filtered field takes the field's values as
 * alternatives and uses up that field's entry; the entries left at the end
 * are ANDed with the whole query.
 */
module Filters {
  import opened Strings
  import opened Fields
  import opened Queries

  /**
   * The filter: for each field, its set of values in iteration order. The
   * visitor removes entries from the very map it was given.
   */
  type FilterMap = map<Field, seq<string>>

  /** A SHOULD clause holding a term query of the field for every value, in order. */
  function ValueClauses(f: Field, values: seq<string>): (r: seq<Clause>)
    ensures |r| == |values|
    ensures forall k :: 0 <= k < |values| ==> r[k] == Clause(TermQuery(CreateTerm(f, values[k]), DefaultBoost), Should)
  {
    seq(|values|, k requires 0 <= k < |values| => Clause(TermQuery(CreateTerm(f, values[k]), DefaultBoost), Should))
  }

  /** The clauses a filter query starts with: the original query, if any, as a SHOULD clause. */
  function OriginalClause(original: Option<Query>): seq<Clause>
  {
    match original
    case None => []
    case Some(q) => [Clause(q, Should)]
  }

  /**
   * getFilterQuery: the OR of the original query, if any, and one term per
   * value; the OR takes the original's boost.
   */
  function FilterQuery(original: Option<Query>, f: Field, values: seq<string>): Query
  {
    BooleanQuery(OriginalClause(original) + ValueClauses(f, values),
                 if original.Some? then original.value.boost else DefaultBoost, 0)
  }

  /** The loop of getFilterQuery that adds a SHOULD term per value. */
  method BuildFilterQuery(original: Option<Query>, f: Field, values: seq<string>) returns (r: Query)
    ensures r == FilterQuery(original, f, values)
  {
    var clauses: seq<Clause> := [];
    var boost := DefaultBoost;
    if original.Some? {
      clauses := [Clause(original.value, Should)];
      boost := original.value.boost;
    }
    for i := 0 to |values|
      invariant clauses == OriginalClause(original) + ValueClauses(f, values[..i])
    {
      AppendValue(f, values, i);
      clauses := clauses + [Clause(TermQuery(CreateTerm(f, values[i]), DefaultBoost), Should)];
    }
    assert values[..|values|] == values;
    r := BooleanQuery(clauses, boost, 0);
  }

  lemma AppendValue(f: Field, values: seq<string>, i: nat)
    requires i < |values|
    ensures ValueClauses(f, values[..i + 1])
         == ValueClauses(f, values[..i]) + [Clause(TermQuery(CreateTerm(f, values[i]), DefaultBoost), Should)]
  {
  }

  /**
   * addFilters, for the node visited and its field: the node's filter query
   * and the filter without the field, when the field is filtered.
   */
  function AddFilters(q: Query, field: Option<Field>, filter: FilterMap): (Query, FilterMap)
  {
    if field.Some? && field.value in filter then
      (FilterQuery(Some(q), field.value, filter[field.value]), filter - {field.value})
    else (q, filter)
  }

  /**
   * A node in a filtered field becomes the OR of itself and one term of the
   * field per value, at its own boost, and the field's entry is used up; the
   * other entries stay as they are. A node in any other field changes
   * nothing.
   */
  lemma AddFiltersConsumes(q: Query, field: Option<Field>, filter: FilterMap)
    ensures field.None? || field.value !in filter ==> AddFilters(q, field, filter) == (q, filter)
    ensures field.Some? && field.value in filter ==>
      var (r, rest) := AddFilters(q, field, filter);
      var f := field.value;
      var values := filter[f];
      r.BooleanQuery? && r.boost == q.boost && |r.clauses| == 1 + |values|
      && r.clauses[0] == Clause(q, Should)
      && (forall k :: 0 <= k < |values| ==>
            r.clauses[k + 1] == Clause(TermQuery(CreateTerm(f, values[k]), DefaultBoost), Should))
      && f !in rest && (forall g :: g != f ==> (g in rest <==> g in filter))
      && (forall g :: g in rest ==> rest[g] == filter[g])
  {
    if field.Some? && field.value in filter {
      var f := field.value;
      var values := filter[f];
      var vs := ValueClauses(f, values);
      var r := FilterQuery(Some(q), f, values);
      assert r.clauses == [Clause(q, Should)] + vs;
      assert forall k :: 0 <= k < |values| ==> r.clauses[k + 1] == vs[k];
    }
  }

  /** The conjunct for one field left in the filter: its term for a single value, else the OR of its values. */
  function Conjunct(f: Field, values: seq<string>): Query
  {
    if |values| == 1 then TermQuery(CreateTerm(f, values[0]), DefaultBoost)
    else FilterQuery(None, f, values)
  }

  /** The MUST clause of a field's conjunct, when the field is left in the filter. */
  function FieldConjunct(filter: FilterMap, f: Field): seq<Clause>
  {
    if f in filter then [Clause(Conjunct(f, filter[f]), Must)] else []
  }

  /** A MUST clause for each of the given fields that is left in the filter, in the given order. */
  function Conjuncts(filter: FilterMap, fields: seq<Field>): seq<Clause>
  {
    if fields == [] then [] else FieldConjunct(filter, fields[0]) + Conjuncts(filter, fields[1..])
  }

  /**
   * endVisit: the query unchanged when the filter is used up, else the AND
   * of the query and a conjunct per field left, in field declaration order.
   */
  function EndVisit(q: Query, filter: FilterMap): Query
  {
    if filter == map[] then q
    else BooleanQuery([Clause(q, Must)] + Conjuncts(filter, AllFields), DefaultBoost, 0)
  }

  /** The loop of endVisit over the fields left in the filter. */
  method BuildConjunction(q: Query, filter: FilterMap) returns (r: Query)
    ensures r == EndVisit(q, filter)
  {
    if filter == map[] {
      return q;
    }
    var clauses := [Clause(q, Must)];
    for i := 0 to |AllFields|
      invariant clauses + Conjuncts(filter, AllFields[i..]) == [Clause(q, Must)] + Conjuncts(filter, AllFields)
    {
      ConjunctsStep(filter, AllFields, i);
      var more := BuildFieldConjunct(filter, AllFields[i]);
      assert clauses + Conjuncts(filter, AllFields[i..]) == (clauses + more) + Conjuncts(filter, AllFields[i + 1..]);
      clauses := clauses + more;
    }
    assert AllFields[|AllFields|..] == [];
    r := BooleanQuery(clauses, DefaultBoost, 0);
  }

  /** The clauses one field adds to the conjunction, built by getFilterQuery's loop when it has several values. */
  method BuildFieldConjunct(filter: FilterMap, f: Field) returns (r: seq<Clause>)
    ensures r == FieldConjunct(filter, f)
  {
    if f !in filter {
      return [];
    }
    var values := filter[f];
    var conjunct: Query;
    if |values| == 1 {
      conjunct := TermQuery(CreateTerm(f, values[0]), DefaultBoost);
    } else {
      conjunct := BuildFilterQuery(None, f, values);
    }
    r := [Clause(conjunct, Must)];
  }

  lemma ConjunctsStep(filter: FilterMap, fields: seq<Field>, i: nat)
    requires i < |fields|
    ensures Conjuncts(filter, fields[i..]) == FieldConjunct(filter, fields[i]) + Conjuncts(filter, fields[i + 1..])
  {
    assert fields[i..][1..] == fields[i + 1..];
  }

  /** The conjuncts are exactly the MUST clauses of the listed fields left in the filter. */
  lemma {:induction false} ConjunctsMembers(filter: FilterMap, fields: seq<Field>)
    ensures forall c :: c in Conjuncts(filter, fields) <==>
      exists f :: f in fields && f in filter && c == Clause(Conjunct(f, filter[f]), Must)
  {
    if fields != [] {
      ConjunctsMembers(filter, fields[1..]);
      assert forall f :: f in fields <==> f == fields[0] || f in fields[1..];
    }
  }

  /**
   * With entries left, the result is an AND whose first clause is the query
   * and whose other clauses are one conjunct per field left; a used-up
   * filter leaves the query unchanged.
   */
  lemma EndVisitConjunction(q: Query, filter: FilterMap)
    ensures filter == map[] ==> EndVisit(q, filter) == q
    ensures filter != map[] ==>
      var r := EndVisit(q, filter);
      r.BooleanQuery? && r.clauses[0] == Clause(q, Must)
      && forall c :: c in r.clauses[1..] <==> exists f :: f in filter && c == Clause(Conjunct(f, filter[f]), Must)
  {
    if filter != map[] {
      ConjunctsMembers(filter, AllFields);
      var r := EndVisit(q, filter);
      assert r.clauses[1..] == Conjuncts(filter, AllFields);
      forall f | f in filter ensures f in AllFields {
        AllFieldsListed(f);
      }
    }
  }

  /** A field filtered to a single value is required to have it; one with several, any of them. */
  lemma ConjunctMatchesAValue(f: Field, values: seq<string>)
    ensures |values| == 1 ==> Conjunct(f, values) == TermQuery(CreateTerm(f, values[0]), DefaultBoost)
    ensures |values| != 1 ==>
      var r := Conjunct(f, values);
      r.BooleanQuery? && |r.clauses| == |values|
      && forall k :: 0 <= k < |values| ==> r.clauses[k] == Clause(TermQuery(CreateTerm(f, values[k]), DefaultBoost), Should)
  {
  }
}
