/**
 * PhraseSearcher: a boolean query whose clauses are all required terms is
 * also searched as a phrase of its CONTENTS terms. The search pipeline does
 * not run this stage.
 */
module PhraseSearching {
  import opened Strings
  import opened Fields
  import opened Queries

  const DefaultSlop: int := 10

  /** A required clause holding a term query. */
  predicate IsRequiredTerm(c: Clause)
  {
    c.occur == Must && c.query.TermQuery?
  }

  /** Clause `k` is a required term whose field name looks up to CONTENTS. */
  predicate ContentsAt(cs: seq<Clause>, k: int)
    requires 0 <= k < |cs|
  {
    IsRequiredTerm(cs[k]) && GetByName(cs[k].query.term.field) == Some(CONTENTS)
  }

  /**
   * Two CONTENTS clauses before `n` whose terms carry different field
   * names, as `Contents` and `contents`: PhraseQuery.add then throws.
   */
  predicate Clash(cs: seq<Clause>, n: int)
    requires 0 <= n <= |cs|
  {
    exists j, k :: 0 <= j < n && 0 <= k < n && ContentsAt(cs, j) && ContentsAt(cs, k)
      && cs[j].query.term.field != cs[k].query.term.field
  }

  /** How the loop over the clauses ends. */
  datatype Collected =
    | Terms(terms: seq<Term>)  // every clause was a required term
    | NotAllRequired           // `return super.visit(boolQuery)`
    | FieldClash               // the IllegalArgumentException of PhraseQuery.add

  /** The index of the first clause that is not a required term, or |cs| when there is none. */
  function FirstNotRequired(cs: seq<Clause>): (k: nat)
    ensures k <= |cs|
    ensures forall j :: 0 <= j < k ==> IsRequiredTerm(cs[j])
    ensures k < |cs| ==> !IsRequiredTerm(cs[k])
  {
    if cs == [] || !IsRequiredTerm(cs[0]) then 0
    else 1 + FirstNotRequired(cs[1..])
  }

  /** The term of a clause when it is a required CONTENTS term, else nothing. */
  function ContentsTerm(c: Clause): seq<Term>
  {
    if IsRequiredTerm(c) && GetByName(c.query.term.field) == Some(CONTENTS) then [c.query.term] else []
  }

  /** The terms the loop adds to the phrase, in clause order. */
  function ContentsTerms(cs: seq<Clause>): seq<Term>
  {
    if cs == [] then [] else ContentsTerms(cs[..|cs| - 1]) + ContentsTerm(cs[|cs| - 1])
  }

  /** Some term has a field name other than the first term's. */
  predicate FieldsDiffer(ts: seq<Term>)
  {
    exists j :: 0 <= j < |ts| && ts[j].field != ts[0].field
  }

  /**
   * The loop of visit(BooleanQuery): it adds the CONTENTS terms while the
   * clauses are required terms; the add throws as soon as a term's field
   * name differs from the first added, even when a later clause would have
   * made the loop give up.
   */
  function PhraseTerms(cs: seq<Clause>): Collected
  {
    var f := FirstNotRequired(cs);
    var ts := ContentsTerms(cs[..f]);
    if FieldsDiffer(ts) then FieldClash
    else if f < |cs| then NotAllRequired
    else Terms(ts)
  }

  /** The terms of a shorter prefix begin the terms of a longer one. */
  lemma {:induction false} ContentsTermsPrefix(cs: seq<Clause>, m: nat, n: nat)
    requires m <= n <= |cs|
    ensures |ContentsTerms(cs[..m])| <= |ContentsTerms(cs[..n])|
    ensures ContentsTerms(cs[..n])[..|ContentsTerms(cs[..m])|] == ContentsTerms(cs[..m])
  {
    if m < n {
      ContentsTermsPrefix(cs, m, n - 1);
      assert cs[..n][..n - 1] == cs[..n - 1];
    }
  }

  /** One more clause adds its term, if it is a required CONTENTS term. */
  lemma ContentsTermsStep(cs: seq<Clause>, i: nat)
    requires i < |cs|
    ensures ContentsTerms(cs[..i + 1]) == ContentsTerms(cs[..i]) + ContentsTerm(cs[i])
  {
    assert cs[..i + 1][..i] == cs[..i];
  }

  /** The loop gives up at a clause that is not a required term when nothing clashed before it. */
  lemma GivesUpAt(cs: seq<Clause>, i: nat)
    requires i < |cs| && i <= FirstNotRequired(cs) && !IsRequiredTerm(cs[i])
    requires !FieldsDiffer(ContentsTerms(cs[..i]))
    ensures PhraseTerms(cs) == NotAllRequired
  {
  }

  /** The loop throws at a CONTENTS term whose field name differs from the first term's. */
  lemma ThrowsAt(cs: seq<Clause>, i: nat, t: Term)
    requires i < FirstNotRequired(cs)
    requires ContentsTerms(cs[..i]) != [] && ContentsTerm(cs[i]) == [t] && t.field != ContentsTerms(cs[..i])[0].field
    ensures PhraseTerms(cs) == FieldClash
  {
    var f := FirstNotRequired(cs);
    var terms := ContentsTerms(cs[..i]);
    ContentsTermsStep(cs, i);
    ContentsTermsPrefix(cs, i + 1, f);
    var ts := ContentsTerms(cs[..f]);
    var front := ts[..|terms| + 1];
    assert front == terms + [t];
    assert front[|terms|] == t && front[0] == terms[0];
    assert ts[|terms|].field != ts[0].field;
  }

  /** The loop of visit(BooleanQuery) that fills the phrase. */
  method CollectPhraseTerms(clauses: seq<Clause>) returns (r: Collected)
    ensures r == PhraseTerms(clauses)
  {
    ghost var f := FirstNotRequired(clauses);
    var terms: seq<Term> := [];
    for i := 0 to |clauses|
      invariant i <= f
      invariant terms == ContentsTerms(clauses[..i])
      invariant !FieldsDiffer(terms)
    {
      if !IsRequiredTerm(clauses[i]) {
        GivesUpAt(clauses, i);
        return NotAllRequired;
      }
      ContentsTermsStep(clauses, i);
      var t := clauses[i].query.term;
      if GetByName(t.field) == Some(CONTENTS) {
        if terms != [] && t.field != terms[0].field {
          ThrowsAt(clauses, i, t);
          return FieldClash;
        }
        terms := terms + [t];
      }
    }
    assert clauses[..|clauses|] == clauses;
    return Terms(terms);
  }

  /** What visit(BooleanQuery) does with a boolean. */
  datatype BoolVisit =
    | Beside(phrase: Query)  // the phrase to OR with the boolean
    | Kept                   // the boolean is visited as any other
    | Thrown                 // IllegalArgumentException

  function VisitBool(q: Query): BoolVisit
    requires q.BooleanQuery?
  {
    match PhraseTerms(q.clauses)
    case NotAllRequired => Kept
    case FieldClash => Thrown
    case Terms(ts) => Beside(PhraseQuery(ts, DefaultSlop, q.boost))
  }

  /** A term is collected exactly when some clause is a required CONTENTS term holding it. */
  lemma {:induction false} ContentsTermsMembers(cs: seq<Clause>)
    ensures |ContentsTerms(cs)| <= |cs|
    ensures forall t :: t in ContentsTerms(cs) <==> exists k :: 0 <= k < |cs| && ContentsAt(cs, k) && cs[k].query.term == t
  {
    if cs != [] {
      var n := |cs| - 1;
      ContentsTermsMembers(cs[..n]);
      forall k | 0 <= k < n ensures ContentsAt(cs, k) == ContentsAt(cs[..n], k) && cs[k] == cs[..n][k] { }
    }
  }

  /** A collected term differing from the first in field name comes from two clashing clauses. */
  lemma DifferentFieldIsClash(cs: seq<Clause>, n: nat)
    requires n <= |cs| && FieldsDiffer(ContentsTerms(cs[..n]))
    ensures Clash(cs, n)
  {
    var ts := ContentsTerms(cs[..n]);
    ContentsTermsMembers(cs[..n]);
    var j :| 0 <= j < |ts| && ts[j].field != ts[0].field;
    assert ts[0] in ts && ts[j] in ts;
    var a :| 0 <= a < n && ContentsAt(cs[..n], a) && cs[..n][a].query.term == ts[0];
    var b :| 0 <= b < n && ContentsAt(cs[..n], b) && cs[..n][b].query.term == ts[j];
    assert cs[..n][a] == cs[a] && cs[..n][b] == cs[b];
    assert ContentsAt(cs, a) && ContentsAt(cs, b) && cs[a].query.term.field != cs[b].query.term.field;
  }

  /** Two clashing clauses put terms of two field names among the collected ones. */
  lemma ClashIsDifferentField(cs: seq<Clause>, n: nat)
    requires n <= |cs| && Clash(cs, n)
    ensures FieldsDiffer(ContentsTerms(cs[..n]))
  {
    var ts := ContentsTerms(cs[..n]);
    ContentsTermsMembers(cs[..n]);
    var a, b :| 0 <= a < n && 0 <= b < n && ContentsAt(cs, a) && ContentsAt(cs, b)
      && cs[a].query.term.field != cs[b].query.term.field;
    assert cs[..n][a] == cs[a] && cs[..n][b] == cs[b];
    assert ContentsAt(cs[..n], a) && ContentsAt(cs[..n], b);
    assert cs[a].query.term in ts && cs[b].query.term in ts;
    var ja :| 0 <= ja < |ts| && ts[ja] == cs[a].query.term;
    var jb :| 0 <= jb < |ts| && ts[jb] == cs[b].query.term;
    assert ts[ja].field != ts[0].field || ts[jb].field != ts[0].field;
  }

  /**
   * Some collected term has a field name other than the first's exactly
   * when two CONTENTS clauses have different field names.
   */
  lemma DifferentFieldIffClash(cs: seq<Clause>, n: nat)
    requires n <= |cs|
    ensures FieldsDiffer(ContentsTerms(cs[..n])) <==> Clash(cs, n)
  {
    if FieldsDiffer(ContentsTerms(cs[..n])) {
      DifferentFieldIsClash(cs, n);
    }
    if Clash(cs, n) {
      ClashIsDifferentField(cs, n);
    }
  }

  /**
   * The loop throws exactly when two CONTENTS clauses before the first
   * clause that is not a required term differ in field name; it gives up
   * exactly when there is such a clause and no clash before it; it
   * collects the terms exactly when every clause is a required term and
   * no two CONTENTS clauses clash.
   */
  lemma PhraseTermsSucceed(cs: seq<Clause>)
    ensures PhraseTerms(cs).FieldClash? <==> Clash(cs, FirstNotRequired(cs))
    ensures PhraseTerms(cs).NotAllRequired? <==>
      (exists k :: 0 <= k < |cs| && !IsRequiredTerm(cs[k])) && !Clash(cs, FirstNotRequired(cs))
    ensures PhraseTerms(cs).Terms? <==>
      (forall k :: 0 <= k < |cs| ==> IsRequiredTerm(cs[k])) && !Clash(cs, |cs|)
  {
    var f := FirstNotRequired(cs);
    DifferentFieldIffClash(cs, f);
    if f == |cs| {
      assert !exists k :: 0 <= k < |cs| && !IsRequiredTerm(cs[k]);
    }
  }

  /**
   * The phrase's terms are exactly the boolean's CONTENTS terms, in
   * clause order, all under one field name.
   */
  lemma PhraseTermsAreContents(cs: seq<Clause>)
    ensures PhraseTerms(cs).Terms? ==>
      var ts := PhraseTerms(cs).terms;
      (forall t :: t in ts ==> GetByName(t.field) == Some(CONTENTS))
      && (forall k :: 0 <= k < |cs| && ContentsAt(cs, k) ==> cs[k].query.term in ts)
      && (forall t :: t in ts ==> t.field == ts[0].field)
      && |ts| <= |cs|
  {
    assert cs[..|cs|] == cs;
    ContentsTermsMembers(cs);
  }

  /**
   * visit(BooleanQuery) throws on a field-name clash among the CONTENTS
   * clauses met before the first clause that is not a required term; it
   * keeps a boolean with such a clause; otherwise the phrase of its
   * CONTENTS terms, with slop 10 and the boolean's boost, goes beside it.
   */
  lemma OnlyRequiredTermsBecomePhrases(q: Query)
    requires q.BooleanQuery?
    ensures VisitBool(q).Thrown? <==> Clash(q.clauses, FirstNotRequired(q.clauses))
    ensures VisitBool(q).Kept? <==>
      (exists k :: 0 <= k < |q.clauses| && !IsRequiredTerm(q.clauses[k])) && !Clash(q.clauses, FirstNotRequired(q.clauses))
    ensures VisitBool(q).Beside? <==>
      (forall k :: 0 <= k < |q.clauses| ==> IsRequiredTerm(q.clauses[k])) && !Clash(q.clauses, |q.clauses|)
    ensures VisitBool(q).Beside? ==>
      var p := VisitBool(q).phrase;
      p.PhraseQuery? && p.slop == 10 && p.boost == q.boost && p.terms == ContentsTerms(q.clauses)
  {
    PhraseTermsSucceed(q.clauses);
    assert q.clauses[..|q.clauses|] == q.clauses;
  }

  /** `+Contents:foo +contents:bar`: both are CONTENTS terms, under two field names, and the visit throws. */
  lemma MixedCaseContentsThrows(q: Query)
    requires q.BooleanQuery?
    requires q.clauses == [Clause(TermQuery(Term("Contents", "foo"), 1.0), Must), Clause(TermQuery(Term("contents", "bar"), 1.0), Must)]
    ensures VisitBool(q).Thrown?
  {
    assert Upper("Contents") == Name(CONTENTS);
    GetByNameOfName("Contents", CONTENTS);
    assert Upper("contents") == Name(CONTENTS);
    GetByNameOfName("contents", CONTENTS);
    OnlyRequiredTermsBecomePhrases(q);
    assert ContentsAt(q.clauses, 0) && ContentsAt(q.clauses, 1);
  }
}
