/**
 * Searcher: runs a SearchQuery against the index. The search string is
 * parsed into an exact query (a phrase or a single keyword, co-searched as
 * a file name) and, outside exact mode, OR-ed with its tokenized parse; the
 * result goes through the rewriting visitors in a fixed order, is expanded
 * against the index and the matching documents are collected. `Search`
 * climbs a ladder of modes (exact, then split into tokens, then fuzzy) while
 * nothing is found, flipping the mode flags of the query it was given.
 *
 * The visitors are fields of the searcher, made once, so their own state
 * (FileNameSearcher's root query, the prefixer's counter, the FilterSetter
 * map) carries over from one search to the next; `visitors` holds it. The
 * FilterSetter works on the query's own filter map, so the entries a
 * rewrite uses up are gone from the query for every later rewrite of it.
 */
module Searching {
  import opened Strings
  import opened Fields
  import opened Queries
  import opened Visiting
  import ModifiedTime
  import Filters
  import opened SearchQueries
  import opened ResultDocs
  import opened SearchResults

  /** The shortest search string that is searched at all. */
  const MinQueryLength: int := 2
  /** The shortest token the query analyzer keeps. */
  const MinWordLength: int := 1
  /** The phrase slop of the query parser, and of a new PhraseQuery. */
  const DefaultPhraseSlop: int := 0
  /** The shortest last term the prefixer expands. */
  const PrefixMinLength: int := MinQueryLength + 1
  /** The clause limit set before every parse; a larger boolean is TooManyClauses. */
  const MaxClauseCount: int := 5000
  /** The search string of the search that warms up a new index searcher. */
  const WarmupString: string := "<warmup search>"
  /** The characters a search string loses when it does not parse. */
  const SpecialChars: string := "()\"[]'{}"

  /** The analyzers a search string is parsed with. */
  datatype Analyzer = StandardAnalyzer | KeywordAnalyzer | QueryAnalyzer

  /** QueryTermExtractor's weighted term. */
  datatype WeightedTerm = WeightedTerm(term: string, weight: real)

  /**
   * The index and the services the searcher calls, as functions of their
   * inputs: the query parser (None is a ParseException), Query.extractTerms
   * (None is an UnsupportedOperationException), Query.rewrite against the
   * index under a clause limit (None is TooManyClauses), the ids of the
   * matching documents best first, the document count, the stored fields
   * and term vectors of a document, the CONTENTS terms of a query with their
   * weights, the clock of the modified-time stage and the projects of a
   * working set.
   */
  datatype Index = Index(
    parse: (string, Analyzer) -> Option<Query>,
    extractTerms: Query -> Option<seq<Term>>,
    expand: (Query, int) -> Option<Query>,
    matching: Query -> seq<nat>,
    numDocs: nat,
    document: nat -> map<string, string>,
    vector: nat -> Option<TermVector>,
    weightedTerms: Query -> seq<WeightedTerm>,
    clock: ModifiedTime.Clock,
    projectsOf: string -> seq<string>)

  /** What the index guarantees of its term vectors. */
  ghost predicate ValidIndex(ix: Index)
  {
    forall id: nat :: ix.vector(id).Some? ==> ValidVector(ix.vector(id).value)
  }

  /**
   * How parseSearchQuery ends: a query, a ParseException, TooManyClauses,
   * or the IllegalArgumentException of PhraseQuery.add for phrase terms
   * under two different field names.
   */
  datatype Parsed = Parsed(query: Query) | ParseError | TooManyClauses | IllegalArgument

  /**
   * How a search ends, as values: the query that ran, the ids of the
   * documents collected, the term weights and the terms counted in each
   * document; null; or an exception that propagates.
   */
  datatype Outcome =
    | Found(query: Query, ids: seq<nat>, terms: map<string, real>, keys: seq<string>)
    | Null
    | Thrown

  /** What search returns: a result, null, or an exception. */
  datatype Answer = Returned(result: SearchResult) | ReturnedNull | Threw

  /** The modes search tries: exact text, the text split into tokens, fuzzy matching. */
  datatype Mode = ExactMode | SplitMode | FuzzyMode

  /** The mode of one searchIndex call and how it ended. */
  datatype Attempt = Attempt(mode: Mode, outcome: Outcome)

  /** The ladder so far: the last outcome, the visitors' and the query's state, every attempt. */
  datatype Ladder = Ladder(outcome: Outcome, visitors: VisitorState, query: QueryState, attempts: seq<Attempt>)

  /** The preferences the searcher listens to. */
  datatype Preference = ShowMatchCount | FuzzySearchAuto | OtherPreference(key: string)

  /** The visitors' fields as the searcher creates them. */
  const InitialVisitors: VisitorState := VisitorState(None, 0, map[])

  // ---------------------------------------------------------------- terms

  /** The elements of `s` without repeats, in order of first occurrence (a LinkedHashSet). */
  function Distinct<T(==,!new)>(s: seq<T>): (r: seq<T>)
    ensures forall x :: x in r <==> x in s
    ensures forall i, j :: 0 <= i < j < |r| ==> r[i] != r[j]
  {
    if s == [] then []
    else
      var d := Distinct(s[..|s| - 1]);
      if s[|s| - 1] in d then d else d + [s[|s| - 1]]
  }

  /** The map extractTerms fills: each term put with its weight, a later weight replacing an earlier one. */
  function TermWeights(ws: seq<WeightedTerm>): map<string, real>
  {
    if ws == [] then map[]
    else TermWeights(ws[..|ws| - 1])[ws[|ws| - 1].term := ws[|ws| - 1].weight]
  }

  /** The keys of the term map, in the order they were first put. */
  function TermNames(ws: seq<WeightedTerm>): (r: seq<string>)
    ensures forall t :: t in r <==> t in TermWeights(ws)
    ensures forall i, j :: 0 <= i < j < |r| ==> r[i] != r[j]
  {
    if ws == [] then []
    else
      var names := TermNames(ws[..|ws| - 1]);
      if ws[|ws| - 1].term in names then names else names + [ws[|ws| - 1].term]
  }

  /** extractTerms: the weighted CONTENTS terms of the query, put one by one into a map. */
  method ExtractTerms(q: Query, ix: Index) returns (terms: map<string, real>, keys: seq<string>)
    ensures terms == TermWeights(ix.weightedTerms(q))
    ensures keys == TermNames(ix.weightedTerms(q))
  {
    var ws := ix.weightedTerms(q);
    terms := map[];
    keys := [];
    for i := 0 to |ws|
      invariant terms == TermWeights(ws[..i]) && keys == TermNames(ws[..i])
    {
      assert ws[..i + 1][..i] == ws[..i];
      if ws[i].term !in keys {
        keys := keys + [ws[i].term];
      }
      terms := terms[ws[i].term := ws[i].weight];
    }
    assert ws[..|ws|] == ws;
  }

  // ---------------------------------------------------------------- building the query

  /** The search string with every special query character turned into a space. */
  function Cleaned(s: string): string
  {
    seq(|s|, i requires 0 <= i < |s| => if s[i] in SpecialChars then ' ' else s[i])
  }

  /** The position of the first term that is not a CONTENTS term, or the length when there is none. */
  function FirstNotContents(ts: seq<Term>): (k: nat)
    ensures k <= |ts|
    ensures forall j :: 0 <= j < k ==> FromTerm(ts[j]) == Some(CONTENTS)
    ensures k < |ts| ==> FromTerm(ts[k]) != Some(CONTENTS)
  {
    if ts == [] || FromTerm(ts[0]) != Some(CONTENTS) then 0
    else 1 + FirstNotContents(ts[1..])
  }

  /**
   * convertToPhraseQuery: the distinct extracted terms, in order, are added
   * to a phrase while they are CONTENTS terms. The query itself is kept at
   * the first term that is not, or when the query cannot list its terms;
   * None is the IllegalArgumentException PhraseQuery.add throws for a term
   * whose field name differs from the first term's.
   */
  function ConvertToPhrase(q: Query, extracted: Option<seq<Term>>): Option<Query>
  {
    match extracted
    case None => Some(q)
    case Some(found) =>
      var ts := Distinct(found);
      var k := FirstNotContents(ts);
      if exists j :: 0 <= j < k && ts[j].field != ts[0].field then None
      else if k < |ts| then Some(q)
      else Some(PhraseQuery(ts, DefaultPhraseSlop, DefaultBoost))
  }

  /** The loop of convertToPhraseQuery over the extracted terms. */
  method ConvertToPhraseQuery(q: Query, ix: Index) returns (r: Option<Query>)
    ensures r == ConvertToPhrase(q, ix.extractTerms(q))
  {
    var extracted := ix.extractTerms(q);
    if extracted.None? {
      return Some(q);
    }
    var terms := Distinct(extracted.value);
    ghost var k := FirstNotContents(terms);
    var phrase: seq<Term> := [];
    for i := 0 to |terms|
      invariant phrase == terms[..i]
      invariant i <= k
      invariant forall j :: 0 <= j < i ==> terms[j].field == terms[0].field
    {
      if FromTerm(terms[i]) == Some(CONTENTS) {
        if phrase != [] && terms[i].field != phrase[0].field {
          assert i < k;
          return None;
        }
        phrase := phrase + [terms[i]];
      } else {
        assert i == k;
        return Some(q);
      }
    }
    assert phrase == terms;
    return Some(PhraseQuery(phrase, DefaultPhraseSlop, DefaultBoost));
  }

  /** combineQueries: a new boolean with the exact query and the parsed query as SHOULD clauses. */
  function CombineQueries(query: Query, exactQuery: Query): Query
  {
    NewBoolean([Clause(exactQuery, Should), Clause(query, Should)])
  }

  /** The query and the visitors' state after one visitor; FilterSetter is first given the filter, when there is one. */
  function RunStage(v: Visitor, st: VisitorState, filter: Option<Filters.FilterMap>, q: Query): (Query, VisitorState)
  {
    Run(v, if v.FilterSetter? && filter.Some? then st.(filter := filter.value) else st, q)
  }

  /** The number of positions in rewriteQuery's list of visitors. */
  const StageCount: nat := 11

  /**
   * The visitor rewriteQuery accepts at position `k`, if it accepts one
   * there: UppercaseNameExpander, LowercaseConverter, QueryFuzzifier in
   * fuzzy mode, CsvExpander, FieldAliasConverter, ModifiedTimeConverter,
   * FolderSearcher, the last-term prefixer when prefixing outside fuzzy
   * mode, FilterSetter when the query has a filter, WorkingSetExpander, and
   * CurrentProjectSetter when the query names a project.
   */
  function Stage(k: nat, s: QueryState, prefix: bool, ix: Index): Option<Visitor>
  {
    match k
    case 0 => Some(UppercaseNameExpander)
    case 1 => Some(LowercaseConverter)
    case 2 => if s.fuzzy then Some(QueryFuzzifier) else None
    case 3 => Some(CsvExpander)
    case 4 => Some(FieldAliasConverter)
    case 5 => Some(ModifiedTimeConverter(ix.clock))
    case 6 => Some(FolderSearcher)
    case 7 => if prefix && !s.fuzzy then Some(LastTermQueryPrefixer(PrefixMinLength)) else None
    case 8 => if s.filter.Some? then Some(FilterSetter) else None
    case 9 => Some(WorkingSetExpander(ix.projectsOf))
    case 10 => if s.currentProject.Some? then Some(CurrentProjectSetter(s.currentProject.value)) else None
    case _ => None
  }

  /** The query and the visitors' state after the first `n` positions of rewriteQuery. */
  function RewriteFirst(n: nat, st: VisitorState, s: QueryState, prefix: bool, q: Query, ix: Index): (Query, VisitorState)
  {
    if n == 0 then (q, st)
    else
      var (q1, st1) := RewriteFirst(n - 1, st, s, prefix, q, ix);
      match Stage(n - 1, s, prefix, ix)
      case None => (q1, st1)
      case Some(v) => RunStage(v, st1, s.filter, q1)
  }

  /** rewriteQuery: the query after all of its visitors, and their new state. */
  function RewriteSpec(st: VisitorState, s: QueryState, prefix: bool, q: Query, ix: Index): (Query, VisitorState)
  {
    RewriteFirst(StageCount, st, s, prefix, q, ix)
  }

  /** The query's filter after a rewrite: the FilterSetter's map is the query's own. */
  function FilterAfter(s: QueryState, st: VisitorState): Option<Filters.FilterMap>
  {
    if s.filter.Some? then Some(st.filter) else None
  }

  /**
   * createExactQuery: a search string with a space is parsed with the
   * standard analyzer and made a phrase, any other is one keyword; the
   * result goes through the exact stages.
   */
  function ExactQuerySpec(st: VisitorState, text: string, ix: Index): (r: (Parsed, VisitorState))
    ensures !r.0.TooManyClauses?
    ensures !r.0.Parsed? ==> r.1 == st
  {
    var parsed :=
      if ' ' in text then
        (match ix.parse(text, StandardAnalyzer)
         case None => ParseError
         case Some(p) =>
           (match ConvertToPhrase(p, ix.extractTerms(p))
            case None => IllegalArgument
            case Some(phrase) => Parsed(phrase)))
      else
        (match ix.parse(text, KeywordAnalyzer)
         case None => ParseError
         case Some(p) => Parsed(p));
    match parsed
    case Parsed(p) =>
      var (q1, st1) := Run(UppercaseNameExpander, st, p);
      var (q2, st2) := Run(FileNameSearcher, st1, q1);
      (Parsed(q2), st2)
    case _ => (parsed, st)
  }

  /**
   * The query parseSearchQuery hands to the rewrite: the exact query in
   * exact mode, else the OR of the exact query, at twice the parsed
   * query's boost, and the parsed query.
   */
  function TopQuerySpec(st: VisitorState, text: string, exact: bool, ix: Index): (r: (Parsed, VisitorState))
    ensures !r.0.TooManyClauses?
  {
    var (exactQuery, st1) := ExactQuerySpec(st, text, ix);
    if !exactQuery.Parsed? || exact then (exactQuery, st1)
    else
      match ix.parse(text, QueryAnalyzer)
      case None => (ParseError, st1)
      case Some(p) => (Parsed(CombineQueries(p, WithBoost(exactQuery.query, p.boost * 2.0))), st1)
  }

  /** Whether making the exact phrase throws: the terms of the standard parse clash in their field names. */
  predicate PhraseFails(text: string, ix: Index)
  {
    ' ' in text && ix.parse(text, StandardAnalyzer).Some?
    && ConvertToPhrase(ix.parse(text, StandardAnalyzer).value, ix.extractTerms(ix.parse(text, StandardAnalyzer).value)).None?
  }

  /**
   * Whether parsing the search string in this mode throws a ParseException:
   * the exact parse fails, or, outside exact mode and after an exact query
   * was made, the query analyzer's parse fails.
   */
  predicate ParseFails(text: string, exact: bool, ix: Index)
  {
    (if ' ' in text then ix.parse(text, StandardAnalyzer) else ix.parse(text, KeywordAnalyzer)).None?
    || (!PhraseFails(text, ix) && !exact && ix.parse(text, QueryAnalyzer).None?)
  }

  /**
   * parseSearchQuery: the top query, rewritten by the visitors and then
   * expanded against the index; the query's filter is what the rewrite
   * left of it.
   */
  function ParseSpec(st: VisitorState, s: QueryState, exact: bool, prefix: bool, ix: Index): (r: (Parsed, VisitorState, QueryState))
    requires s.searchString.Some?
    ensures r.0.ParseError? <==> ParseFails(s.searchString.value, exact, ix)
    ensures r.0.IllegalArgument? <==> PhraseFails(s.searchString.value, ix)
    ensures r.2 == s.(filter := r.2.filter)
  {
    var (top, st1) := TopQuerySpec(st, s.searchString.value, exact, ix);
    if !top.Parsed? then (top, st1, s)
    else
      var (rewritten, st2) := RewriteSpec(st1, s, prefix, top.query, ix);
      var s2 := s.(filter := FilterAfter(s, st2));
      match ix.expand(rewritten, MaxClauseCount)
      case None => (TooManyClauses, st2, s2)
      case Some(q) => (Parsed(q), st2, s2)
  }

  /** The size of the collector: the result limit, or every document when unlimited. */
  function CollectorSize(s: QueryState, ix: Index): int
  {
    if s.maxResults != UnlimitedResults then s.maxResults else ix.numDocs
  }

  /** The number of hits the collector keeps: its size, and no more than were found. */
  function HitCount(s: QueryState, found: nat, ix: Index): nat
  {
    var max := CollectorSize(s, ix);
    if max < 0 then 0 else if max < found then max else found
  }

  /**
   * collectSearchResults: a collector smaller than -1 cannot be made (its
   * heap array would have a negative length) and throws; otherwise null for
   * a canceled query or when nothing matches, else the best hits up to the
   * limit, with the query's weighted terms.
   */
  function CollectSpec(s: QueryState, q: Query, ix: Index): Outcome
  {
    var ws := ix.weightedTerms(q);
    if CollectorSize(s, ix) < -1 then Thrown
    else if s.canceled then Null
    else
      var ids := ix.matching(q);
      if ids == [] then Null
      else Found(q, ids[..HitCount(s, |ids|, ix)], TermWeights(ws), TermNames(ws))
  }

  /** Which parse of searchIndex this is: the first, or the retry after TooManyClauses or after a ParseException. */
  datatype Try = FirstTry | AfterTooManyClauses | AfterParseError

  /** The query searchIndex goes on to collect results for, or the outcome it ends with before that. */
  datatype Prepared = Ready(query: Query) | Gave(outcome: Outcome)

  /**
   * The parses of searchIndex from the given one on. The first parse
   * prefixes the last term. On TooManyClauses it is retried without
   * prefixing, and any exception of that retry propagates. On a
   * ParseException the search string is cleaned and stored in the query
   * and the parse retried, where a second ParseException gives null and
   * TooManyClauses propagates. An IllegalArgumentException always
   * propagates.
   */
  function PrepareFrom(t: Try, exact: bool, st: VisitorState, s: QueryState, ix: Index): (r: (Prepared, VisitorState, QueryState))
    requires s.searchString.Some?
    ensures r.2.searchString.Some? && |r.2.searchString.value| == |s.searchString.value|
    ensures r.2.(searchString := s.searchString, filter := s.filter) == s
    ensures r.0.Gave? ==> r.0.outcome.Null? || r.0.outcome.Thrown?
    decreases t.FirstTry?
  {
    var (p, st1, s1) := ParseSpec(st, s, exact, !t.AfterTooManyClauses?, ix);
    match p
    case Parsed(q) => (Ready(q), st1, s1)
    case TooManyClauses =>
      if t.FirstTry? then PrepareFrom(AfterTooManyClauses, exact, st1, s1, ix) else (Gave(Thrown), st1, s1)
    case ParseError =>
      if t.FirstTry? then
        PrepareFrom(AfterParseError, exact, st1, s1.(searchString := Some(Cleaned(s1.searchString.value))), ix)
      else if t.AfterParseError? then (Gave(Null), st1, s1)
      else (Gave(Thrown), st1, s1)
    case IllegalArgument => (Gave(Thrown), st1, s1)
  }

  /** searchIndex: the parses in the query's own exact mode, then the collection of results. */
  function SearchIndexSpec(st: VisitorState, s: QueryState, ix: Index): (r: (Outcome, VisitorState, QueryState))
    requires s.searchString.Some?
    ensures r.1 == PrepareFrom(FirstTry, s.exact, st, s, ix).1 && r.2 == PrepareFrom(FirstTry, s.exact, st, s, ix).2
    ensures s.canceled ==> !r.0.Found?
  {
    var (p, st1, s1) := PrepareFrom(FirstTry, s.exact, st, s, ix);
    match p
    case Ready(q) => (CollectSpec(s1, q, ix), st1, s1)
    case Gave(o) => (o, st1, s1)
  }

  /** Null, or a result without documents: the ladder goes on. */
  predicate Unanswered(o: Outcome)
  {
    o.Null? || (o.Found? && o.ids == [])
  }

  /** One searchIndex call, the query's flags set to the mode first, appended to the ladder. */
  function Rung(l: Ladder, m: Mode, ix: Index): (r: Ladder)
    requires l.query.searchString.Some?
    ensures r.query.searchString.Some? && |r.query.searchString.value| == |l.query.searchString.value|
    ensures r.query.exact == (m == ExactMode) && r.query.fuzzy == (m == FuzzyMode)
    ensures r.query.canceled == l.query.canceled
    ensures r.attempts == l.attempts + [Attempt(m, r.outcome)]
  {
    var s := l.query.(exact := m == ExactMode, fuzzy := m == FuzzyMode);
    var (o, st', s') := SearchIndexSpec(l.visitors, s, ix);
    Ladder(o, st', s', l.attempts + [Attempt(m, o)])
  }

  /** The next rung is tried while the answer is null or empty and the query is not canceled. */
  predicate GoesOn(l: Ladder)
  {
    Unanswered(l.outcome) && !l.query.canceled
  }

  /**
   * search: nothing for a missing or too short search string; a query
   * preset to fuzzy is searched once, in the fuzzy mode; any other is
   * searched in the exact mode when it is exact, then split into words
   * while nothing is found, then, with automatic fuzzy search, in the
   * fuzzy mode while still nothing is found.
   */
  function SearchSpec(st: VisitorState, s: QueryState, fuzzySearchAuto: bool, ix: Index): Ladder
  {
    var start := Ladder(Null, st, s, []);
    if s.searchString.None? || |s.searchString.value| < MinQueryLength then start
    else if s.fuzzy then Rung(start, FuzzyMode, ix)
    else
      var l1 := if s.exact then Rung(start, ExactMode, ix) else start;
      var l2 := if GoesOn(l1) then Rung(l1, SplitMode, ix) else l1;
      if fuzzySearchAuto && GoesOn(l2) then Rung(l2, FuzzyMode, ix) else l2
  }

  // ---------------------------------------------------------------- results as objects

  /** A result document made for hit `id`, its match count computed when `counted`. */
  predicate DocFor(d: SearchResultDoc, id: nat, keys: seq<string>, ix: Index, counted: bool)
    reads d
  {
    d.docId == id && d.doc == ix.document(id) && d.Valid()
    && d.termFreqVector == (if counted then ix.vector(id) else None)
    && d.matchCount == (if counted && ix.vector(id).Some? then MatchSum(ix.vector(id).value, keys) else 0)
  }

  /** The answer `a` is the outcome `o` for the query object `sq`. */
  predicate Represents(a: Answer, o: Outcome, sq: SearchQuery, ix: Index, counted: bool)
    reads if a.Returned? then set d | d in a.result.resultDocs else {}
  {
    match o
    case Null => a.ReturnedNull?
    case Thrown => a.Threw?
    case Found(_, ids, terms, keys) =>
      a.Returned? && a.result.query == sq && a.result.searchTerms == terms
      && |a.result.resultDocs| == |ids|
      && forall i :: 0 <= i < |ids| ==> DocFor(a.result.resultDocs[i], ids[i], keys, ix, counted)
  }

  // ---------------------------------------------------------------- the searcher


  /**
   * The first part of rewriteQuery, positions 0 to 6: the visitors that
   * rewrite the terms themselves, accepted by `vq` in turn.
   */
  method AcceptTermVisitors(vq: VisitableQuery, s: QueryState, prefix: bool, st0: VisitorState, ix: Index) returns (st: VisitorState)
    modifies vq
    ensures (vq.query, st) == RewriteFirst(7, st0, s, prefix, old(vq.query), ix)
  {
    ghost var q := vq.query;
    st := vq.Accept(UppercaseNameExpander, st0);
    assert (vq.query, st) == RewriteFirst(1, st0, s, prefix, q, ix);
    st := vq.Accept(LowercaseConverter, st);
    assert (vq.query, st) == RewriteFirst(2, st0, s, prefix, q, ix);
    if s.fuzzy {
      st := vq.Accept(QueryFuzzifier, st);
    }
    assert (vq.query, st) == RewriteFirst(3, st0, s, prefix, q, ix);
    st := vq.Accept(CsvExpander, st);
    assert (vq.query, st) == RewriteFirst(4, st0, s, prefix, q, ix);
    st := vq.Accept(FieldAliasConverter, st);
    assert (vq.query, st) == RewriteFirst(5, st0, s, prefix, q, ix);
    st := vq.Accept(ModifiedTimeConverter(ix.clock), st);
    assert (vq.query, st) == RewriteFirst(6, st0, s, prefix, q, ix);
    st := vq.Accept(FolderSearcher, st);
  }

  /**
   * The body of rewriteQuery: a VisitableQuery over `q` accepts the term
   * visitors, then the prefixer, the filter and the scope visitors; `st`
   * is the visitors' state before and after.
   */
  method Rewrite(s: QueryState, prefix: bool, q: Query, st0: VisitorState, ix: Index) returns (r: Query, st: VisitorState)
    ensures (r, st) == RewriteSpec(st0, s, prefix, q, ix)
  {
    var vq := new VisitableQuery(q);
    st := AcceptTermVisitors(vq, s, prefix, st0, ix);
    if prefix && !s.fuzzy {
      st := vq.Accept(LastTermQueryPrefixer(PrefixMinLength), st);
    }
    assert (vq.query, st) == RewriteFirst(8, st0, s, prefix, q, ix);
    if s.filter.Some? {
      st := st.(filter := s.filter.value);
      st := vq.Accept(FilterSetter, st);
    }
    assert (vq.query, st) == RewriteFirst(9, st0, s, prefix, q, ix);
    st := vq.Accept(WorkingSetExpander(ix.projectsOf), st);
    assert (vq.query, st) == RewriteFirst(10, st0, s, prefix, q, ix);
    if s.currentProject.Some? {
      st := vq.Accept(CurrentProjectSetter(s.currentProject.value), st);
    }
    r := vq.query;
  }

  class Searcher {
    var showMatchCounts: bool
    var fuzzySearchAuto: bool
    /** Whether an index searcher is open (the cached indexSearcher is not null). */
    var searcherOpen: bool
    /** The fields of the searcher's visitors. */
    var visitors: VisitorState

    /** A searcher with the two preferences as configured and no index searcher open yet. */
    constructor (showMatchCounts: bool, fuzzySearchAuto: bool)
      ensures this.showMatchCounts == showMatchCounts && this.fuzzySearchAuto == fuzzySearchAuto
      ensures !searcherOpen && visitors == InitialVisitors
    {
      this.showMatchCounts := showMatchCounts;
      this.fuzzySearchAuto := fuzzySearchAuto;
      searcherOpen := false;
      visitors := InitialVisitors;
    }

    /** preferenceChange: the changed preference is read again; any other key changes nothing. */
    method PreferenceChange(key: Preference, value: bool)
      modifies this
      ensures showMatchCounts == (if key == ShowMatchCount then value else old(showMatchCounts))
      ensures fuzzySearchAuto == (if key == FuzzySearchAuto then value else old(fuzzySearchAuto))
      ensures searcherOpen == old(searcherOpen) && visitors == old(visitors)
    {
      if key == ShowMatchCount {
        showMatchCounts := value;
      } else if key == FuzzySearchAuto {
        fuzzySearchAuto := value;
      }
    }

    /** resetSearcher: the index searcher, if open, is closed and dropped. */
    method ResetSearcher()
      modifies this
      ensures !searcherOpen
      ensures showMatchCounts == old(showMatchCounts) && fuzzySearchAuto == old(fuzzySearchAuto)
      ensures visitors == old(visitors)
    {
      if searcherOpen {
        searcherOpen := false;
      }
    }

    /** onIndexReset: the next search opens the index afresh. */
    method OnIndexReset()
      modifies this
      ensures !searcherOpen
      ensures showMatchCounts == old(showMatchCounts) && fuzzySearchAuto == old(fuzzySearchAuto)
      ensures visitors == old(visitors)
    {
      ResetSearcher();
    }

    /**
     * onIndexUpdate: the searcher is reset and warmed up with a search for
     * WarmupString, which opens it again; an exception of the warmup is
     * only logged.
     */
    method OnIndexUpdate(ix: Index)
      requires ValidIndex(ix)
      modifies this
      ensures searcherOpen
      ensures showMatchCounts == old(showMatchCounts) && fuzzySearchAuto == old(fuzzySearchAuto)
      ensures visitors == SearchSpec(old(visitors), QueryState(Some(WarmupString), 1, true, false, false, None, None),
                                     fuzzySearchAuto, ix).visitors
    {
      ResetSearcher();
      var warmup := new SearchQuery(Some(WarmupString), 1);
      var _ := Search(warmup, ix);
    }

    /** createExactQuery, with the searcher's visitors. */
    method CreateExactQuery(sq: SearchQuery, ix: Index) returns (r: Parsed)
      requires sq.searchString.Some?
      modifies this
      ensures (r, visitors) == ExactQuerySpec(old(visitors), sq.searchString.value, ix)
      ensures showMatchCounts == old(showMatchCounts) && fuzzySearchAuto == old(fuzzySearchAuto)
      ensures searcherOpen == old(searcherOpen)
    {
      var text := sq.searchString.value;
      var parsed: Option<Query>;
      if ' ' in text {
        parsed := ix.parse(text, StandardAnalyzer);
        if parsed.Some? {
          parsed := ConvertToPhraseQuery(parsed.value, ix);
          if parsed.None? {
            return IllegalArgument;
          }
        }
      } else {
        parsed := ix.parse(text, KeywordAnalyzer);
      }
      if parsed.None? {
        return ParseError;
      }
      var vq := new VisitableQuery(parsed.value);
      var st := vq.Accept(UppercaseNameExpander, visitors);
      st := vq.Accept(FileNameSearcher, st);
      visitors := st;
      r := Parsed(vq.query);
    }

    /**
     * rewriteQuery, with the searcher's visitors. The FilterSetter is given
     * the query's own filter map, so the query keeps what the visitor left
     * of it.
     */
    method RewriteQuery(sq: SearchQuery, prefix: bool, q: Query, ix: Index) returns (r: Query)
      modifies this, sq
      ensures (r, visitors) == RewriteSpec(old(visitors), old(sq.State()), prefix, q, ix)
      ensures sq.State() == old(sq.State()).(filter := FilterAfter(old(sq.State()), visitors))
      ensures showMatchCounts == old(showMatchCounts) && fuzzySearchAuto == old(fuzzySearchAuto)
      ensures searcherOpen == old(searcherOpen)
    {
      var s := sq.State();
      var st;
      r, st := Rewrite(s, prefix, q, visitors, ix);
      if s.filter.Some? {
        sq.SetFilter(Some(st.filter));
      }
      visitors := st;
    }

    /** parseSearchQuery. */
    method ParseSearchQuery(sq: SearchQuery, exact: bool, prefix: bool, ix: Index) returns (p: Parsed)
      requires sq.searchString.Some?
      modifies this, sq
      ensures (p, visitors, sq.State()) == ParseSpec(old(visitors), old(sq.State()), exact, prefix, ix)
      ensures showMatchCounts == old(showMatchCounts) && fuzzySearchAuto == old(fuzzySearchAuto)
      ensures searcherOpen == old(searcherOpen)
    {
      var text := sq.searchString.value;
      var exactQuery := CreateExactQuery(sq, ix);
      if !exactQuery.Parsed? {
        return exactQuery;
      }
      var top := exactQuery.query;
      if !exact {
        var query := ix.parse(text, QueryAnalyzer);
        if query.None? {
          return ParseError;
        }
        top := CombineQueries(query.value, WithBoost(exactQuery.query, query.value.boost * 2.0));
      }
      assert (Parsed(top), visitors) == TopQuerySpec(old(visitors), text, exact, ix);
      var rewritten := RewriteQuery(sq, prefix, top, ix);
      var expanded := ix.expand(rewritten, MaxClauseCount);
      if expanded.None? {
        return TooManyClauses;
      }
      p := Parsed(expanded.value);
    }

    /** collectSearchResults: one result document per hit, its match count computed when enabled. */
    method CollectSearchResults(sq: SearchQuery, q: Query, ix: Index) returns (a: Answer)
      requires ValidIndex(ix)
      ensures Represents(a, CollectSpec(sq.State(), q, ix), sq, ix, showMatchCounts)
      ensures a.Returned? ==> forall d :: d in a.result.resultDocs ==> fresh(d)
    {
      var searchTerms, keys := ExtractTerms(q, ix);
      var size := if sq.maxResults != UnlimitedResults then sq.maxResults else ix.numDocs;
      if size < -1 {
        return Threw;
      }
      if sq.canceled {
        return ReturnedNull;
      }
      var ids := ix.matching(q);
      if ids == [] {
        return ReturnedNull;
      }
      var hits := ids[..HitCount(sq.State(), |ids|, ix)];
      var docs: seq<SearchResultDoc> := [];
      var i := 0;
      while i < |hits| && !sq.canceled
        invariant 0 <= i <= |hits| && |docs| == i
        invariant forall j :: 0 <= j < i ==> DocFor(docs[j], hits[j], keys, ix, showMatchCounts)
        invariant forall d :: d in docs ==> fresh(d)
      {
        var d := new SearchResultDoc(ix.document(hits[i]), hits[i]);
        if showMatchCounts {
          d.ComputeMatchCount(ix.vector(hits[i]), keys);
        }
        docs := docs + [d];
        i := i + 1;
      }
      a := Returned(SearchResult(sq, docs, searchTerms));
    }

    /**
     * The fallback of searchIndex for a ParseException: the special
     * characters of the search string are blanked out in the query, and it
     * is parsed again.
     */
    method RetryCleaned(sq: SearchQuery, exact: bool, ix: Index) returns (p: Prepared)
      requires sq.searchString.Some?
      modifies this, sq
      ensures var cleaned := old(sq.State()).(searchString := Some(Cleaned(old(sq.searchString.value))));
        (p, visitors, sq.State()) == PrepareFrom(AfterParseError, exact, old(visitors), cleaned, ix)
      ensures showMatchCounts == old(showMatchCounts) && fuzzySearchAuto == old(fuzzySearchAuto)
      ensures searcherOpen == old(searcherOpen)
    {
      var newSearchString := Cleaned(sq.searchString.value);
      sq.SetSearchString(Some(newSearchString));
      var parsed := ParseSearchQuery(sq, exact, true, ix);
      match parsed
      case Parsed(q) => p := Ready(q);
      case ParseError => p := Gave(Null);
      case TooManyClauses => p := Gave(Thrown);
      case IllegalArgument => p := Gave(Thrown);
    }

    /**
     * The parses of searchIndex, with their fallbacks: the query to collect
     * results for, or the answer searchIndex gives without collecting.
     */
    method PrepareQuery(sq: SearchQuery, ix: Index) returns (p: Prepared)
      requires sq.searchString.Some?
      modifies this, sq
      ensures (p, visitors, sq.State()) == PrepareFrom(FirstTry, old(sq.exact), old(visitors), old(sq.State()), ix)
      ensures showMatchCounts == old(showMatchCounts) && fuzzySearchAuto == old(fuzzySearchAuto)
      ensures searcherOpen == old(searcherOpen)
    {
      var exact := sq.exact;
      var parsed := ParseSearchQuery(sq, exact, true, ix);
      match parsed
      case Parsed(q) =>
        p := Ready(q);
      case TooManyClauses =>
        parsed := ParseSearchQuery(sq, exact, false, ix);
        p := if parsed.Parsed? then Ready(parsed.query) else Gave(Thrown);
      case ParseError =>
        p := RetryCleaned(sq, exact, ix);
      case IllegalArgument =>
        p := Gave(Thrown);
    }

    /** searchIndex: the index searcher is opened, the query prepared, then the results collected. */
    method SearchIndex(sq: SearchQuery, ix: Index) returns (a: Answer)
      requires sq.searchString.Some? && ValidIndex(ix)
      modifies this, sq
      ensures var (o, st, s) := SearchIndexSpec(old(visitors), old(sq.State()), ix);
        visitors == st && sq.State() == s && Represents(a, o, sq, ix, showMatchCounts)
      ensures searcherOpen
      ensures showMatchCounts == old(showMatchCounts) && fuzzySearchAuto == old(fuzzySearchAuto)
    {
      searcherOpen := true;
      var p := PrepareQuery(sq, ix);
      match p
      case Gave(o) =>
        a := if o.Null? then ReturnedNull else Threw;
      case Ready(q) =>
        a := CollectSearchResults(sq, q, ix);
    }

    /** searchIndex as one rung of the ladder `l`, the query's flags already set for mode `m`. */
    method SearchRung(sq: SearchQuery, m: Mode, ghost l: Ladder, ix: Index) returns (a: Answer, ghost l': Ladder)
      requires ValidIndex(ix) && l.query.searchString.Some?
      requires visitors == l.visitors && sq.State() == l.query.(exact := m == ExactMode, fuzzy := m == FuzzyMode)
      modifies this, sq
      ensures l' == Rung(l, m, ix)
      ensures visitors == l'.visitors && sq.State() == l'.query && Represents(a, l'.outcome, sq, ix, showMatchCounts)
      ensures searcherOpen
      ensures showMatchCounts == old(showMatchCounts) && fuzzySearchAuto == old(fuzzySearchAuto)
    {
      a := SearchIndex(sq, ix);
      l' := Rung(l, m, ix);
    }

    /** search: the ladder of modes, on the query object itself. */
    method Search(sq: SearchQuery, ix: Index) returns (a: Answer)
      requires ValidIndex(ix)
      modifies this, sq
      ensures var l := SearchSpec(old(visitors), old(sq.State()), fuzzySearchAuto, ix);
        visitors == l.visitors && sq.State() == l.query && Represents(a, l.outcome, sq, ix, showMatchCounts)
        && searcherOpen == (old(searcherOpen) || l.attempts != [])
      ensures showMatchCounts == old(showMatchCounts) && fuzzySearchAuto == old(fuzzySearchAuto)
    {
      ghost var s0 := sq.State();
      ghost var l := Ladder(Null, visitors, s0, []);
      a := ReturnedNull;
      var searchString := sq.searchString;
      if searchString.None? || |searchString.value| < MinQueryLength {
        return;
      }
      if sq.fuzzy {
        sq.SetExact(false);
        a, l := SearchRung(sq, FuzzyMode, l, ix);
        return;
      }
      if sq.exact {
        a, l := SearchRung(sq, ExactMode, l, ix);
      }
      NullOrEmptyIsUnanswered(a, l.outcome, sq, ix, showMatchCounts);
      if IsNullOrEmpty(a) && !sq.canceled {
        sq.SetExact(false);
        a, l := SearchRung(sq, SplitMode, l, ix);
      }
      NullOrEmptyIsUnanswered(a, l.outcome, sq, ix, showMatchCounts);
      if IsNullOrEmpty(a) && fuzzySearchAuto && !sq.canceled {
        sq.SetFuzzy(true);
        sq.SetExact(false);
        a, l := SearchRung(sq, FuzzyMode, l, ix);
      }
    }
  }

  /** result == null || result.isEmpty(). */
  predicate IsNullOrEmpty(a: Answer)
  {
    a.ReturnedNull? || (a.Returned? && a.result.IsEmpty())
  }

  /** An answer is null or empty exactly when the outcome it represents is unanswered. */
  lemma NullOrEmptyIsUnanswered(a: Answer, o: Outcome, sq: SearchQuery, ix: Index, counted: bool)
    requires Represents(a, o, sq, ix, counted)
    ensures IsNullOrEmpty(a) <==> Unanswered(o)
  {
  }
}
