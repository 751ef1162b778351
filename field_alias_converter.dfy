/**
 * FieldAliasConverter: friendly field names typed by the user ("project:",
 * "type:", "age:", ...) are mapped to the index's own fields.
 */
module FieldAliases {
  import opened Strings
  import opened Fields
  import opened Queries

  /** The alias table; keys are matched exactly, case included. */
  function Alias(name: string): Option<Field>
  {
    if name == "project" then Some(PROJ)
    else if name == "filetype" then Some(EXT)
    else if name == "type" then Some(EXT)
    else if name == "workingset" then Some(WS)
    else if name == "age" then Some(MODIFIED)
    else if name == "folder" then Some(DIR)
    else None
  }

  const AliasNames: seq<string> := ["project", "filetype", "type", "workingset", "age", "folder"]

  /** The table has exactly the six listed keys. */
  lemma AliasKeys(name: string)
    ensures Alias(name).Some? <==> name in AliasNames
  {
  }

  /**
   * visit(TermQuery / PrefixQuery / WildcardQuery, field): a node whose
   * field the enum does not know but the alias table does is rebuilt, same
   * kind, for the aliased field's term at the default boost.
   */
  function Visit(q: Query, field: Option<Field>): Query
    requires IsTermLike(q)
  {
    if field.None? && Alias(TermOf(q).field).Some? then
      SameKind(q, CreateTerm(Alias(TermOf(q).field).value, TermOf(q).text))
    else q
  }

  /**
   * An alias is rewritten only when the field is not already a known field:
   * the kind and the text are kept, and the new key names the aliased field.
   */
  lemma AliasRewrite(q: Query, field: Option<Field>)
    requires IsTermLike(q)
    ensures field.Some? || Alias(TermOf(q).field).None? ==> Visit(q, field) == q
    ensures field.None? && Alias(TermOf(q).field).Some? ==>
      var r := Visit(q, field);
      IsTermLike(r) && r.TermQuery? == q.TermQuery? && r.PrefixQuery? == q.PrefixQuery?
      && TermOf(r).text == TermOf(q).text
      && GetByName(TermOf(r).field) == Alias(TermOf(q).field)
  {
  }

  /** "type" is an alias of EXT. */
  lemma TypeAlias()
    ensures Visit(TermQuery(Term("type", "java"), 1.0), None) == TermQuery(Term("ext", "java"), 1.0)
  {
    assert Alias("type") == Some(EXT);
  }

  /** "age" is an alias of MODIFIED; the prefix kind is kept, the boost reset. */
  lemma AgeAlias()
    ensures Visit(PrefixQuery(Term("age", "3"), 2.0), None) == PrefixQuery(Term("modified", "3"), 1.0)
  {
    var q := PrefixQuery(Term("age", "3"), 2.0);
    assert Alias("age") == Some(MODIFIED);
    assert Visit(q, None) == PrefixQuery(CreateTerm(MODIFIED, "3"), 1.0);
    ModifiedTerm();
  }

  lemma ModifiedTerm()
    ensures CreateTerm(MODIFIED, "3") == Term("modified", "3")
  {
    assert CreateTerm(MODIFIED, "3").field == "modified";
  }

  /** Aliases are matched case-sensitively: "Type" is not one. */
  lemma AliasIsCaseSensitive()
    ensures Visit(TermQuery(Term("Type", "java"), 1.0), None) == TermQuery(Term("Type", "java"), 1.0)
  {
    assert Alias("Type") == None;
  }
}
