/**
 * CSVExpander: a comma-separated value list in a field other than CONTENTS
 * ("ext:xml,java,txt") becomes an OR of one term per value.
 */
module CsvExpansion {
  import opened Strings
  import opened Fields
  import opened Queries

  predicate IsComma(c: char) { c == ',' }

  /** `text.split(",")`. */
  function Values(text: string): seq<string>
  {
    Split(text, IsComma)
  }

  /** What the expansion as written produces: a query, or a NullPointerException. */
  datatype Outcome = Rewritten(query: Query) | NullPointer

  /**
   * visit(TermQuery, field) as written. For a field the enum does not know
   * (an alias such as "type" is only resolved by a later stage) `field` is
   * null, and creating the first value's term dereferences it.
   */
  function VisitAsWritten(q: Query, field: Option<Field>): Outcome
    requires q.TermQuery?
  {
    if field != Some(CONTENTS) && ',' in q.term.text then
      var vals := Values(q.term.text);
      if |vals| == 0 then Rewritten(q)
      else if field.None? then
        (if NonEmpty(vals) == [] then Rewritten(AnyOf([])) else NullPointer)
      else Rewritten(AnyOf(ValueQueries(field, q.term.field, NonEmpty(vals))))
    else Rewritten(q)
  }

  /**
   * The term for one value: the field's own term when the field is known,
   * otherwise a term under the raw field name, for a later stage to resolve.
   */
  function ValueTerm(field: Option<Field>, rawField: string, value: string): (t: Term)
    ensures t.text == value
    ensures field.Some? ==> GetByName(t.field) == field
    ensures field.None? ==> t.field == rawField
  {
    match field
    case Some(f) => CreateTerm(f, value)
    case None => Term(rawField, value)
  }

  function ValueQueries(field: Option<Field>, rawField: string, vals: seq<string>): (r: seq<Query>)
    ensures |r| == |vals|
    ensures forall k :: 0 <= k < |vals| ==> r[k] == TermQuery(ValueTerm(field, rawField, vals[k]), DefaultBoost)
  {
    seq(|vals|, k requires 0 <= k < |vals| => TermQuery(ValueTerm(field, rawField, vals[k]), DefaultBoost))
  }

  /**
   * visit(TermQuery, field), as the model's pipeline runs it: the expansion
   * of the source, except that a field the enum does not know keeps its raw
   * name instead of failing.
   */
  function Visit(q: Query, field: Option<Field>): Query
    requires q.TermQuery?
  {
    if field != Some(CONTENTS) && ',' in q.term.text then
      var vals := Values(q.term.text);
      if |vals| == 0 then q
      else AnyOf(ValueQueries(field, q.term.field, NonEmpty(vals)))
    else q
  }

  /** The loop of visit(TermQuery, field) that adds one SHOULD term per value. */
  method Expand(q: Query, field: Option<Field>) returns (r: Query)
    requires q.TermQuery?
    ensures r == Visit(q, field)
  {
    if field == Some(CONTENTS) || ',' !in q.term.text {
      return q;
    }
    var vals := Values(q.term.text);
    if |vals| == 0 {
      return q;
    }
    var clauses: seq<Clause> := [];
    ghost var kept: seq<string> := [];
    var i := 0;
    while i < |vals|
      invariant 0 <= i <= |vals|
      invariant kept == NonEmpty(vals[..i])
      invariant clauses == ShouldClauses(ValueQueries(field, q.term.field, kept))
    {
      NonEmptyAppend(vals[..i], vals[i]);
      assert vals[..i + 1] == vals[..i] + [vals[i]];
      if vals[i] != "" {
        var tq := TermQuery(ValueTerm(field, q.term.field, vals[i]), DefaultBoost);
        AppendValue(field, q.term.field, kept, vals[i]);
        clauses := clauses + [Clause(tq, Should)];
        kept := kept + [vals[i]];
      }
      i := i + 1;
    }
    assert vals[..i] == vals;
    r := NewBoolean(clauses);
  }

  lemma AppendValue(field: Option<Field>, rawField: string, vals: seq<string>, v: string)
    ensures ShouldClauses(ValueQueries(field, rawField, vals + [v]))
         == ShouldClauses(ValueQueries(field, rawField, vals)) + [Clause(TermQuery(ValueTerm(field, rawField, v), DefaultBoost), Should)]
  {
    assert ValueQueries(field, rawField, vals + [v])
        == ValueQueries(field, rawField, vals) + [TermQuery(ValueTerm(field, rawField, v), DefaultBoost)];
  }

  /** CONTENTS terms and terms without a comma are never split. */
  lemma KeepsUnlistedTerms(q: Query, field: Option<Field>)
    requires q.TermQuery? && (field == Some(CONTENTS) || ',' !in q.term.text)
    ensures Visit(q, field) == q && VisitAsWritten(q, field) == Rewritten(q)
  {
  }

  /** A text of commas only splits into no value, and the term is kept. */
  lemma OnlyCommasKept(q: Query, field: Option<Field>)
    requires q.TermQuery? && field != Some(CONTENTS)
    requires |q.term.text| > 0 && forall i :: 0 <= i < |q.term.text| ==> q.term.text[i] == ','
    ensures Values(q.term.text) == []
    ensures Visit(q, field) == q && VisitAsWritten(q, field) == Rewritten(q)
  {
    OnlySeparatorsSplitToNothing(q.term.text, IsComma);
  }

  /**
   * A listed value becomes the OR of one term per non-empty value, in
   * order; no value is empty or holds a comma, and each term keeps the
   * field of the original.
   */
  lemma ListExpanded(q: Query, field: Option<Field>)
    requires q.TermQuery? && field != Some(CONTENTS) && ',' in q.term.text
    requires |Values(q.term.text)| > 0
    ensures var r := Visit(q, field);
      var vals := NonEmpty(Values(q.term.text));
      r.BooleanQuery? && |r.clauses| == |vals|
      && forall k :: 0 <= k < |vals| ==>
           r.clauses[k].occur == Should && r.clauses[k].query.TermQuery?
           && r.clauses[k].query.term.text == vals[k]
           && vals[k] != "" && ',' !in vals[k]
           && (field.Some? ==> GetByName(r.clauses[k].query.term.field) == field)
           && (field.None? ==> r.clauses[k].query.term.field == q.term.field)
  {
    var vals := NonEmpty(Values(q.term.text));
    SplitPartsHaveNoSeparator(q.term.text, IsComma);
    forall k | 0 <= k < |vals| ensures ',' !in vals[k] {
      assert vals[k] in Values(q.term.text);
    }
  }

  /** Wherever the source does not fail, the model's expansion agrees with it. */
  lemma AgreesWhereSourceSucceeds(q: Query, field: Option<Field>)
    requires q.TermQuery? && VisitAsWritten(q, field).Rewritten?
    ensures VisitAsWritten(q, field).query == Visit(q, field)
  {
  }

  lemma TypeIsNoField()
    ensures GetByName("type") == None
  {
    var u := Upper("type");
    assert |u| == 4 && u[1] == UpperChar('y') == 'Y';
    forall f: Field ensures Name(f) != u {
      if |Name(f)| == 4 {
        assert Name(f)[1] != 'Y';
      }
    }
    GetByNameFindsName("type");
  }

  /** Two non-empty values joined by a comma split back into those two values. */
  lemma TwoValues(a: string, b: string)
    requires a != "" && b != "" && ',' !in a && ',' !in b
    ensures Values(a + "," + b) == [a, b] && NonEmpty([a, b]) == [a, b]
  {
    assert !HasSeparator(a, IsComma) && !HasSeparator(b, IsComma);
    PiecesWithoutSeparator(b, IsComma);
    PiecesAfterWord(a, ',', b, IsComma);
    assert a + "," + b == a + [','] + b;
    assert NonEmpty([b]) == [b];
  }

  /**
   * A list of two values in a field the enum does not know, such as the
   * alias "type" in "type:java,xml", which is only resolved by a later
   * stage: the source fails with a NullPointerException.
   */
  lemma AliasListFails(alias: string, a: string, b: string)
    requires GetByName(alias) == None
    requires a != "" && b != "" && ',' !in a && ',' !in b
    ensures VisitAsWritten(TermQuery(Term(alias, a + "," + b), 1.0), GetByName(alias)) == NullPointer
  {
    TwoValues(a, b);
    assert (a + "," + b)[|a|] == ',';
  }

  /** The model keeps the raw alias field on both values of such a list. */
  lemma AliasListExpanded(alias: string, a: string, b: string)
    requires GetByName(alias) == None
    requires a != "" && b != "" && ',' !in a && ',' !in b
    ensures Visit(TermQuery(Term(alias, a + "," + b), 1.0), GetByName(alias))
         == AnyOf([TermQuery(Term(alias, a), 1.0), TermQuery(Term(alias, b), 1.0)])
  {
    TwoValues(a, b);
    assert (a + "," + b)[|a|] == ',';
    var qs := ValueQueries(None, alias, [a, b]);
    assert qs == [TermQuery(Term(alias, a), 1.0), TermQuery(Term(alias, b), 1.0)];
  }
}
