/**
 * What the searcher promises, stated over its specification functions: the
 * order and the choice of the rewriting stages, the fallbacks of
 * searchIndex, the ladder of modes of search, the query's filter only
 * losing entries, and the shape of the queries and results it builds.
 */
module SearchingProperties {
  import opened Strings
  import opened Fields
  import opened Queries
  import opened Visiting
  import Filters
  import opened SearchQueries
  import opened Searching
  import VisitingProperties

  // ---------------------------------------------------------------- the stages of rewriteQuery

  /**
   * Which optional visitors rewriteQuery accepts: the fuzzifier exactly in
   * fuzzy mode, the prefixer exactly when prefixing outside fuzzy mode (so
   * never both), FilterSetter exactly when the query has a filter, and
   * CurrentProjectSetter, the last position, exactly when it names a project.
   */
  lemma StageChoice(s: QueryState, prefix: bool, ix: Index)
    ensures (exists k: nat :: Stage(k, s, prefix, ix) == Some(QueryFuzzifier)) <==> s.fuzzy
    ensures (exists k: nat :: Stage(k, s, prefix, ix) == Some(LastTermQueryPrefixer(PrefixMinLength))) <==> prefix && !s.fuzzy
    ensures (exists k: nat :: Stage(k, s, prefix, ix) == Some(FilterSetter)) <==> s.filter.Some?
    ensures (exists k: nat :: Stage(k, s, prefix, ix).Some? && Stage(k, s, prefix, ix).value.CurrentProjectSetter?)
            <==> s.currentProject.Some?
    ensures forall k: nat :: (Stage(k, s, prefix, ix).Some? && Stage(k, s, prefix, ix).value.CurrentProjectSetter?
                              ==> k == StageCount - 1)
    ensures forall k: nat :: k >= StageCount ==> Stage(k, s, prefix, ix).None?
  {
    if s.fuzzy {
      assert Stage(2, s, prefix, ix) == Some(QueryFuzzifier);
    }
    if prefix && !s.fuzzy {
      assert Stage(7, s, prefix, ix) == Some(LastTermQueryPrefixer(PrefixMinLength));
    }
    if s.filter.Some? {
      assert Stage(8, s, prefix, ix) == Some(FilterSetter);
    }
    if s.currentProject.Some? {
      assert Stage(10, s, prefix, ix).value.CurrentProjectSetter?;
    }
  }

  /** In fuzzy mode the prefix flag changes none of the first `n` positions. */
  lemma {:induction false} FuzzyIgnoresPrefixFirst(n: nat, st: VisitorState, s: QueryState, q: Query, ix: Index)
    requires s.fuzzy
    ensures RewriteFirst(n, st, s, true, q, ix) == RewriteFirst(n, st, s, false, q, ix)
  {
    if n > 0 {
      FuzzyIgnoresPrefixFirst(n - 1, st, s, q, ix);
      assert Stage(n - 1, s, true, ix) == Stage(n - 1, s, false, ix);
    }
  }

  /** A fuzzy query is never prefixed: the rewrite is the same whether prefixing was asked for or not. */
  lemma FuzzyNeverPrefixes(st: VisitorState, s: QueryState, q: Query, ix: Index)
    requires s.fuzzy
    ensures RewriteSpec(st, s, true, q, ix) == RewriteSpec(st, s, false, q, ix)
  {
    FuzzyIgnoresPrefixFirst(StageCount, st, s, q, ix);
  }

  // ---------------------------------------------------------------- the query's filter

  /** The filter `a` is what is left of `b`: both null, or `a` holds some of `b`'s entries unchanged. */
  predicate FilterWithin(a: Option<Filters.FilterMap>, b: Option<Filters.FilterMap>)
  {
    (a.None? <==> b.None?) && (a.Some? && b.Some? ==> VisitingProperties.SubFilter(a.value, b.value))
  }

  lemma FilterWithinTransitive(a: Option<Filters.FilterMap>, b: Option<Filters.FilterMap>, c: Option<Filters.FilterMap>)
    requires FilterWithin(a, b) && FilterWithin(b, c)
    ensures FilterWithin(a, c)
  {
  }

  /**
   * After a rewrite, the FilterSetter's map holds only entries of the
   * query's filter: it starts from that map and only removes entries, and
   * the visitors after it keep no state.
   */
  lemma FilterOnlyUsedUp(st: VisitorState, s: QueryState, prefix: bool, q: Query, ix: Index)
    requires s.filter.Some?
    ensures VisitingProperties.SubFilter(RewriteSpec(st, s, prefix, q, ix).1.filter, s.filter.value)
  {
    var (q8, st8) := RewriteFirst(8, st, s, prefix, q, ix);
    var start := st8.(filter := s.filter.value);
    VisitingProperties.FilterOnlyShrinks(start, q8);
    var (q9, st9) := RewriteFirst(9, st, s, prefix, q, ix);
    assert st9 == Traverse(FilterSetter, start, q8).state;
    var (q10, st10) := RewriteFirst(10, st, s, prefix, q, ix);
    assert st10 == st9;
  }

  /** parseSearchQuery leaves the query a part of its filter, and no filter when it had none. */
  lemma ParseUsesUpFilter(st: VisitorState, s: QueryState, exact: bool, prefix: bool, ix: Index)
    requires s.searchString.Some?
    ensures FilterWithin(ParseSpec(st, s, exact, prefix, ix).2.filter, s.filter)
  {
    var (top, st1) := TopQuerySpec(st, s.searchString.value, exact, ix);
    if top.Parsed? && s.filter.Some? {
      FilterOnlyUsedUp(st1, s, prefix, top.query, ix);
    }
  }

  /** Every parse of searchIndex, the retries included, only uses up filter entries. */
  lemma {:induction false} PrepareUsesUpFilter(t: Try, exact: bool, st: VisitorState, s: QueryState, ix: Index)
    requires s.searchString.Some?
    ensures FilterWithin(PrepareFrom(t, exact, st, s, ix).2.filter, s.filter)
    decreases t.FirstTry?
  {
    var (p, st1, s1) := ParseSpec(st, s, exact, !t.AfterTooManyClauses?, ix);
    ParseUsesUpFilter(st, s, exact, !t.AfterTooManyClauses?, ix);
    if t.FirstTry? && p.TooManyClauses? {
      PrepareUsesUpFilter(AfterTooManyClauses, exact, st1, s1, ix);
    } else if t.FirstTry? && p.ParseError? {
      PrepareUsesUpFilter(AfterParseError, exact, st1, s1.(searchString := Some(Cleaned(s1.searchString.value))), ix);
    }
  }

  /** One rung of the ladder only uses up filter entries. */
  lemma RungUsesUpFilter(l: Ladder, m: Mode, ix: Index)
    requires l.query.searchString.Some?
    ensures FilterWithin(Rung(l, m, ix).query.filter, l.query.filter)
  {
    var s := l.query.(exact := m == ExactMode, fuzzy := m == FuzzyMode);
    PrepareUsesUpFilter(FirstTry, s.exact, l.visitors, s, ix);
  }

  /**
   * A whole search leaves the query a part of the filter it came with:
   * entries the FilterSetter used up stay gone for the later rungs.
   */
  lemma SearchUsesUpFilter(st: VisitorState, s: QueryState, auto: bool, ix: Index)
    ensures FilterWithin(SearchSpec(st, s, auto, ix).query.filter, s.filter)
  {
    var start := Ladder(Null, st, s, []);
    if s.searchString.Some? && |s.searchString.value| >= MinQueryLength {
      if s.fuzzy {
        RungUsesUpFilter(start, FuzzyMode, ix);
      } else {
        var l1 := if s.exact then Rung(start, ExactMode, ix) else start;
        if s.exact {
          RungUsesUpFilter(start, ExactMode, ix);
        }
        var l2 := if GoesOn(l1) then Rung(l1, SplitMode, ix) else l1;
        if GoesOn(l1) {
          RungUsesUpFilter(l1, SplitMode, ix);
          FilterWithinTransitive(l2.query.filter, l1.query.filter, s.filter);
        }
        if auto && GoesOn(l2) {
          RungUsesUpFilter(l2, FuzzyMode, ix);
          FilterWithinTransitive(Rung(l2, FuzzyMode, ix).query.filter, l2.query.filter, s.filter);
        }
      }
    }
  }

  // ---------------------------------------------------------------- the fallbacks of searchIndex

  /** The special characters are gone from a cleaned string, every other character stays where it was, and cleaning twice changes nothing. */
  lemma CleanedBlanksOnlySpecialChars(text: string)
    ensures |Cleaned(text)| == |text|
    ensures forall i :: 0 <= i < |text| && text[i] !in SpecialChars ==> Cleaned(text)[i] == text[i]
    ensures forall c :: c in Cleaned(text) ==> c !in SpecialChars
    ensures Cleaned(Cleaned(text)) == Cleaned(text)
  {
    assert ' ' !in SpecialChars;
  }

  /**
   * The search string changes only on a ParseException, and then to the
   * cleaned string; searchIndex gives null exactly when the string and the
   * cleaned string both fail to parse.
   */
  lemma ParseErrorRetriesCleaned(st: VisitorState, s: QueryState, ix: Index)
    requires s.searchString.Some?
    ensures var text := s.searchString.value;
      var r := PrepareFrom(FirstTry, s.exact, st, s, ix);
      r.2.searchString == (if ParseFails(text, s.exact, ix) then Some(Cleaned(text)) else s.searchString)
      && (r.0 == Gave(Null) <==> ParseFails(text, s.exact, ix) && ParseFails(Cleaned(text), s.exact, ix))
  {
    var text := s.searchString.value;
    var (p, st1, s1) := ParseSpec(st, s, s.exact, true, ix);
    if p.ParseError? {
      var cleaned := s1.(searchString := Some(Cleaned(text)));
      var _ := ParseSpec(st1, cleaned, s.exact, true, ix);
    } else if p.TooManyClauses? {
      var _ := ParseSpec(st1, s1, s.exact, false, ix);
    }
  }

  /**
   * After TooManyClauses the search string is kept, so the retry, which
   * parses it again, throws neither a ParseException nor an
   * IllegalArgumentException.
   */
  lemma TooManyClausesRetryParses(st: VisitorState, s: QueryState, ix: Index)
    requires s.searchString.Some? && ParseSpec(st, s, s.exact, true, ix).0.TooManyClauses?
    ensures var (_, st1, s1) := ParseSpec(st, s, s.exact, true, ix);
      s1.searchString == s.searchString
      && !ParseSpec(st1, s1, s.exact, false, ix).0.ParseError? && !ParseSpec(st1, s1, s.exact, false, ix).0.IllegalArgument?
  {
  }

  /**
   * On TooManyClauses the parse is retried once, without the prefixer: the
   * retry ends with the query or the exception, never with null, and the
   * search string is kept.
   */
  lemma TooManyClausesRetriesWithoutPrefix(st: VisitorState, s: QueryState, ix: Index)
    requires s.searchString.Some? && ParseSpec(st, s, s.exact, true, ix).0.TooManyClauses?
    ensures var r := PrepareFrom(FirstTry, s.exact, st, s, ix);
      r.0 != Gave(Null) && r.2.searchString == s.searchString
    ensures forall k: nat :: Stage(k, s, false, ix) != Some(LastTermQueryPrefixer(PrefixMinLength))
  {
    TooManyClausesRetryParses(st, s, ix);
    NoPrefixerWithoutPrefix(s, ix);
  }

  /** Without prefixing, no position of rewriteQuery holds the prefixer. */
  lemma NoPrefixerWithoutPrefix(s: QueryState, ix: Index)
    ensures forall k: nat :: Stage(k, s, false, ix) != Some(LastTermQueryPrefixer(PrefixMinLength))
  {
    forall k: nat ensures Stage(k, s, false, ix) != Some(LastTermQueryPrefixer(PrefixMinLength)) {
      if k != 7 {
        assert Stage(k, s, false, ix).None? || !Stage(k, s, false, ix).value.LastTermQueryPrefixer?;
      }
    }
  }

  // ---------------------------------------------------------------- the ladder of search

  /** The modes of the attempts, in order. */
  function ModesOf(attempts: seq<Attempt>): (r: seq<Mode>)
    ensures |r| == |attempts| && forall i :: 0 <= i < |r| ==> r[i] == attempts[i].mode
  {
    seq(|attempts|, i requires 0 <= i < |attempts| => attempts[i].mode)
  }

  /**
   * The modes search may try, in order: only fuzzy for a query preset to
   * fuzzy; else exact when the query is exact, then split, then fuzzy when
   * automatic fuzzy search is on.
   */
  function PlannedModes(s: QueryState, auto: bool): seq<Mode>
  {
    if s.fuzzy then [FuzzyMode]
    else (if s.exact then [ExactMode] else []) + [SplitMode] + (if auto then [FuzzyMode] else [])
  }

  /** No search string, or one shorter than two characters, is not searched: null, and nothing changes. */
  lemma ShortQueryFindsNothing(st: VisitorState, s: QueryState, auto: bool, ix: Index)
    requires s.searchString.None? || |s.searchString.value| < MinQueryLength
    ensures SearchSpec(st, s, auto, ix) == Ladder(Null, st, s, [])
  {
  }

  /**
   * The ladder `l` has climbed a prefix of the modes `planned`, at least
   * one: every attempt but the last found nothing, the answer is the last
   * attempt's, and the query holds the last mode's flags.
   */
  predicate Climbed(l: Ladder, planned: seq<Mode>)
  {
    var n := |l.attempts|;
    ModesOf(l.attempts) <= planned && n > 0
    && l.outcome == l.attempts[n - 1].outcome
    && (forall i :: 0 <= i < n - 1 ==> Unanswered(l.attempts[i].outcome))
    && l.query.exact == (l.attempts[n - 1].mode == ExactMode)
    && l.query.fuzzy == (l.attempts[n - 1].mode == FuzzyMode)
  }

  /** A rung in the next planned mode, after no attempt or after one that found nothing, keeps the ladder on plan. */
  lemma RungClimbs(l: Ladder, m: Mode, planned: seq<Mode>, ix: Index)
    requires l.query.searchString.Some?
    requires l.attempts == [] || (Climbed(l, planned) && Unanswered(l.outcome))
    requires |l.attempts| < |planned| && planned[|l.attempts|] == m
    ensures Climbed(Rung(l, m, ix), planned)
  {
    var r := Rung(l, m, ix);
    assert ModesOf(r.attempts) == ModesOf(l.attempts) + [m];
    assert planned[..|l.attempts| + 1] == planned[..|l.attempts|] + [m];
  }

  /**
   * For a search string long enough, search tries a prefix of the planned
   * modes, at least one; every attempt but the last found nothing, the
   * answer is the last attempt's, it stops early only on an answer, and
   * the query is left with the last mode's flags.
   */
  lemma LadderFollowsPlan(st: VisitorState, s: QueryState, auto: bool, ix: Index)
    requires s.searchString.Some? && |s.searchString.value| >= MinQueryLength
    requires !s.canceled
    ensures var l := SearchSpec(st, s, auto, ix);
      Climbed(l, PlannedModes(s, auto)) && (|l.attempts| < |PlannedModes(s, auto)| ==> !Unanswered(l.outcome))
  {
    var start := Ladder(Null, st, s, []);
    var planned := PlannedModes(s, auto);
    if s.fuzzy {
      RungClimbs(start, FuzzyMode, planned, ix);
    } else {
      var l1 := if s.exact then Rung(start, ExactMode, ix) else start;
      if s.exact {
        RungClimbs(start, ExactMode, planned, ix);
      }
      var l2 := if GoesOn(l1) then Rung(l1, SplitMode, ix) else l1;
      if GoesOn(l1) {
        RungClimbs(l1, SplitMode, planned, ix);
      }
      if auto && GoesOn(l2) {
        RungClimbs(l2, FuzzyMode, planned, ix);
      }
    }
  }

  /** A query preset to fuzzy is searched exactly once, in the fuzzy mode, and is no longer exact. */
  lemma PresetFuzzySearchesOnce(st: VisitorState, s: QueryState, auto: bool, ix: Index)
    requires s.searchString.Some? && |s.searchString.value| >= MinQueryLength && s.fuzzy
    ensures var l := SearchSpec(st, s, auto, ix);
      |l.attempts| == 1 && l.attempts[0].mode == FuzzyMode && !l.query.exact && l.query.fuzzy
  {
  }

  /**
   * A canceled query is searched at most once (only an exact query, in
   * the exact mode), and never answers with results.
   */
  lemma CanceledSearchesAtMostOnce(st: VisitorState, s: QueryState, auto: bool, ix: Index)
    requires s.canceled
    ensures var l := SearchSpec(st, s, auto, ix);
      |l.attempts| <= 1 && !l.outcome.Found?
      && (l.attempts != [] ==> l.attempts[0].mode == (if s.fuzzy then FuzzyMode else ExactMode))
      && (l.attempts == [] <==> s.searchString.None? || |s.searchString.value| < MinQueryLength || (!s.fuzzy && !s.exact))
  {
  }

  /** The warmup after an index update searches its string once in the exact mode first. */
  lemma WarmupSearchesExactFirst(st: VisitorState, auto: bool, ix: Index)
    ensures var l := SearchSpec(st, QueryState(Some(WarmupString), 1, true, false, false, None, None), auto, ix);
      l.attempts != [] && l.attempts[0].mode == ExactMode
  {
    var s := QueryState(Some(WarmupString), 1, true, false, false, None, None);
    LadderFollowsPlan(st, s, auto, ix);
    var l := SearchSpec(st, s, auto, ix);
    assert ModesOf(l.attempts)[0] == PlannedModes(s, auto)[0];
  }

  // ---------------------------------------------------------------- the queries built

  /**
   * In exact mode the query rewritten is the exact query; the visitors'
   * state is that of createExactQuery either way. Parsing fails exactly
   * when ParseFails says, and throws an IllegalArgumentException exactly
   * when making the phrase does.
   */
  lemma ExactModeUsesExactQuery(st: VisitorState, text: string, exact: bool, ix: Index)
    ensures exact ==> TopQuerySpec(st, text, exact, ix) == ExactQuerySpec(st, text, ix)
    ensures TopQuerySpec(st, text, exact, ix).1 == ExactQuerySpec(st, text, ix).1
    ensures TopQuerySpec(st, text, exact, ix).0.ParseError? <==> ParseFails(text, exact, ix)
    ensures TopQuerySpec(st, text, exact, ix).0.IllegalArgument? <==> PhraseFails(text, ix)
  {
  }

  /**
   * Outside exact mode the query is the OR of two SHOULD clauses: the exact
   * query, boosted to twice the parsed query's boost, and the parsed query.
   */
  lemma NonExactCombines(st: VisitorState, text: string, ix: Index)
    requires !ParseFails(text, false, ix) && !PhraseFails(text, ix)
    ensures var top := TopQuerySpec(st, text, false, ix).0;
      var p := ix.parse(text, QueryAnalyzer).value;
      top.Parsed? && top.query.BooleanQuery? && top.query.minShouldMatch == 0 && |top.query.clauses| == 2
      && (forall i :: 0 <= i < 2 ==> top.query.clauses[i].occur == Should)
      && top.query.clauses[0].query == WithBoost(ExactQuerySpec(st, text, ix).0.query, 2.0 * p.boost)
      && top.query.clauses[1].query == p
  {
  }

  /** The distinct terms in order, and where the CONTENTS terms among them end. */
  lemma ScanFacts(found: seq<Term>)
    ensures var ts := Distinct(found); var k := FirstNotContents(ts);
      (k == |ts| <==> forall t :: t in found ==> FromTerm(t) == Some(CONTENTS))
      && (forall j :: 0 <= j < |ts| ==> ts[j] in found)
  {
    var ts := Distinct(found);
    var k := FirstNotContents(ts);
    if k < |ts| {
      assert ts[k] in found;
    }
    if k == |ts| {
      forall t | t in found ensures FromTerm(t) == Some(CONTENTS) {
        assert t in ts;
      }
    }
  }

  /**
   * A search string with a space whose standard parse cannot list its
   * terms: making the phrase does not throw, no phrase is made, and the
   * exact query, which exact mode searches for, is that parse itself after
   * the exact stages.
   */
  lemma UnlistedTermsKept(st: VisitorState, text: string, ix: Index)
    requires ' ' in text && ix.parse(text, StandardAnalyzer).Some?
    requires ix.extractTerms(ix.parse(text, StandardAnalyzer).value).None?
    ensures !PhraseFails(text, ix) && !ParseFails(text, true, ix)
    ensures var p := ix.parse(text, StandardAnalyzer).value;
      var (q1, st1) := Run(UppercaseNameExpander, st, p);
      var (q2, st2) := Run(FileNameSearcher, st1, q1);
      TopQuerySpec(st, text, true, ix) == ExactQuerySpec(st, text, ix) == (Parsed(q2), st2)
  {
  }

  /** Two terms under different field names: one of them is not under the first term's. */
  lemma ClashWithFirst(found: seq<Term>, t: Term, u: Term) returns (j: nat)
    requires t in found && u in found && t.field != u.field
    ensures j < |Distinct(found)| && Distinct(found)[j].field != Distinct(found)[0].field
  {
    var ts := Distinct(found);
    assert t in ts && u in ts;
    var a :| 0 <= a < |ts| && ts[a] == t;
    var b :| 0 <= b < |ts| && ts[b] == u;
    j := if t.field != ts[0].field then a else b;
  }

  /**
   * When every term is a CONTENTS term, making the phrase throws exactly
   * when two of the terms are under different field names.
   */
  lemma ContentsPhraseThrowsOnClash(q: Query, found: seq<Term>)
    requires forall t :: t in found ==> FromTerm(t) == Some(CONTENTS)
    ensures ConvertToPhrase(q, Some(found)).None? <==> exists t, u :: t in found && u in found && t.field != u.field
  {
    var ts := Distinct(found);
    ScanFacts(found);
    if ConvertToPhrase(q, Some(found)).None? {
      var j :| 0 <= j < |ts| && ts[j].field != ts[0].field;
      assert ts[j] in found && ts[0] in found;
    } else if exists t, u :: t in found && u in found && t.field != u.field {
      var t, u :| t in found && u in found && t.field != u.field;
      var _ := ClashWithFirst(found, t, u);
    }
  }

  /**
   * A phrase is made only of CONTENTS terms: all of them, each once, at
   * slop 0, and only when every term is one.
   */
  lemma PhraseOnlyOfContents(q: Query, found: seq<Term>)
    requires ConvertToPhrase(q, Some(found)).Some? && ConvertToPhrase(q, Some(found)).value != q
    ensures var r := ConvertToPhrase(q, Some(found)).value;
      (forall t :: t in found ==> FromTerm(t) == Some(CONTENTS))
      && r.PhraseQuery? && r.slop == 0 && r.boost == DefaultBoost
      && (forall t :: t in r.terms <==> t in found)
      && (forall i, j :: 0 <= i < j < |r.terms| ==> r.terms[i] != r.terms[j])
  {
    ScanFacts(found);
  }

  /**
   * A query with a term of another field is kept as it is, or throws for a
   * clash before that term; with one field name throughout it is kept.
   */
  lemma OtherFieldKeepsQuery(q: Query, found: seq<Term>)
    requires exists t :: t in found && FromTerm(t) != Some(CONTENTS)
    ensures ConvertToPhrase(q, Some(found)) == Some(q) || ConvertToPhrase(q, Some(found)).None?
    ensures (forall t, u :: t in found && u in found ==> t.field == u.field) ==> ConvertToPhrase(q, Some(found)) == Some(q)
  {
    var ts := Distinct(found);
    var k := FirstNotContents(ts);
    ScanFacts(found);
    if k > 0 {
      assert ts[0] in found;
    }
  }

  /**
   * The search "Contents:foo bar": the standard parse gives the terms
   * Contents:foo and contents:bar, both CONTENTS terms but under two field
   * names, and making the phrase throws.
   */
  lemma FieldNamesClash(q: Query)
    ensures ConvertToPhrase(q, Some([Term("Contents", "foo"), Term("contents", "bar")])).None?
  {
    var ts := [Term("Contents", "foo"), Term("contents", "bar")];
    assert Upper("Contents") == Name(CONTENTS);
    GetByNameOfName("Contents", CONTENTS);
    assert Upper("contents") == Name(CONTENTS);
    GetByNameOfName("contents", CONTENTS);
    ContentsPhraseThrowsOnClash(q, ts);
    assert ts[0] in ts && ts[1] in ts && ts[0].field != ts[1].field;
  }

  // ---------------------------------------------------------------- the results collected

  /** A term's weight in the map is the weight of its last occurrence, and the map holds exactly the terms seen. */
  lemma {:induction false} LastWeightWins(ws: seq<WeightedTerm>, i: nat)
    requires i < |ws| && forall j :: i < j < |ws| ==> ws[j].term != ws[i].term
    ensures ws[i].term in TermWeights(ws) && TermWeights(ws)[ws[i].term] == ws[i].weight
  {
    if i < |ws| - 1 {
      LastWeightWins(ws[..|ws| - 1], i);
    }
  }

  /** The map holds exactly the terms of the weighted terms. */
  lemma {:induction false} TermWeightsKeys(ws: seq<WeightedTerm>)
    ensures forall t :: t in TermWeights(ws) <==> exists i :: 0 <= i < |ws| && ws[i].term == t
  {
    if ws != [] {
      var init := ws[..|ws| - 1];
      TermWeightsKeys(init);
      forall t | t in TermWeights(ws) ensures exists i :: 0 <= i < |ws| && ws[i].term == t {
        if t != ws[|ws| - 1].term {
          assert t in TermWeights(init);
          var i :| 0 <= i < |init| && init[i].term == t;
          assert ws[i].term == t;
        }
      }
      forall t | exists i :: 0 <= i < |ws| && ws[i].term == t ensures t in TermWeights(ws) {
        var i :| 0 <= i < |ws| && ws[i].term == t;
        if i < |ws| - 1 {
          assert init[i].term == t;
        }
      }
    }
  }

  /**
   * The collector keeps the best hits up to the result limit, or up to the
   * number of documents when unlimited. A negative limit would keep none,
   * but collectSearchResults throws for one before counting.
   */
  lemma HitCountBounds(s: QueryState, found: nat, ix: Index)
    ensures HitCount(s, found, ix) <= found
    ensures s.maxResults != UnlimitedResults && s.maxResults >= 0 ==>
      HitCount(s, found, ix) == if s.maxResults < found then s.maxResults else found
    ensures s.maxResults == UnlimitedResults ==>
      HitCount(s, found, ix) == if ix.numDocs < found then ix.numDocs else found
    ensures s.maxResults < 0 && s.maxResults != UnlimitedResults ==> HitCount(s, found, ix) == 0
  {
  }

  /**
   * collectSearchResults throws exactly for a limit below -1; otherwise it
   * answers exactly when the query is not canceled and some document
   * matches: the first matching documents, never more than the limit, with
   * the weights of the query's terms.
   */
  lemma CollectKeepsBestHits(s: QueryState, q: Query, ix: Index)
    ensures CollectSpec(s, q, ix).Thrown? <==> s.maxResults < -1
    ensures CollectSpec(s, q, ix).Found? <==> s.maxResults >= -1 && !s.canceled && ix.matching(q) != []
    ensures var o := CollectSpec(s, q, ix);
      o.Found? ==> (o.ids <= ix.matching(q) && o.query == q
                    && (s.maxResults >= 0 ==> |o.ids| <= s.maxResults)
                    && o.terms == TermWeights(ix.weightedTerms(q))
                    && (forall t :: t in o.keys <==> t in o.terms))
  {
  }
}
