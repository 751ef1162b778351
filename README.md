# InstaSearch search core in Dafny

This project models the core of InstaSearch, an Eclipse plug-in that indexes the workspace's text files with Lucene and searches them while the user types. The model covers the following parts and proves properties of each:

- **Fields.** The `Field` enumeration, with its titles and its case-insensitive lookup by name.
- **Query tree and visitors.** The Lucene query tree, written as a datatype, and the visitor framework that rewrites it in place (`VisitableQuery`, `QueryVisitor`). Every query visitor is modelled:
  - comma lists are expanded;
  - working sets become project lists;
  - camel-case names are expanded;
  - field aliases are resolved;
  - "modified" durations become time ranges;
  - terms are lower-cased;
  - folders are searched;
  - file names are searched;
  - "." becomes the current project;
  - terms are made fuzzy;
  - the last term is turned into a prefix;
  - the filter map becomes a required conjunction;
  - plain terms become phrases.
- **Searcher.** The search ladder: an exact search first, then a search split into tokens, then a fuzzy one. Each rung parses the query, rewrites it with the visitors and collects the hits. A rung retries when Lucene reports too many clauses or a parse error. The searcher's life cycle and preferences are modelled too.
- **Queries and results.** `SearchQuery` with its equality, `SearchResult`, and the match counting and jar detection of `SearchResultDoc`.
- **Token filters.** The token-splitting filters (word, dot and camel case) and the analyzer chains built from them.
- **Storage indexer.** The fields a stored document holds, and the bounded retry loop with its exception handler.
- **Workspace indexer.** The extension filter of `WorkspaceIndexer` and its wildcard-to-regex translation.

Lucene itself is not modelled. Its query parser, its `rewrite`, its term extraction and its index are fields of an `Index` value that the searcher takes as a parameter. The clock and the preference store are parameters as well. Classes whose fields the source updates in place are Dafny classes: `SearchQuery`, `Searcher`, `VisitableQuery`, the token filter, `IndexWriter`, `SearchResultDoc` and `WorkspaceIndexer`. Each of their methods is proved against a specification function over values. The properties are proved about those functions; most of the searcher's properties are in `searcher_properties.dfy`.

## Model

| member | source | states |
|---|---|---|
| Fields.Title | instasearch/src/it/unibz/instasearch/indexing/Field.java:27-32 | getTitle: the title a constant was declared with, else its name; never empty |
| Fields.TitleDiffersFromName | instasearch/src/it/unibz/instasearch/indexing/Field.java:12-32 | the title differs from the name exactly for EXT, PROJ, WS and MODIFIED, the constants declared with a title |
| Fields.AllFieldsListed | instasearch/src/it/unibz/instasearch/indexing/Field.java:12-13 | every constant is among the declared ones that valueOf searches |
| Fields.NamesDiffer | instasearch/src/it/unibz/instasearch/indexing/Field.java:12-13 | two constants with the same name are the same constant |
| Fields.FindFieldFinds | instasearch/src/it/unibz/instasearch/indexing/Field.java:56 | valueOf finds a listed constant whose name is exactly the string, and finds none exactly when no constant has that name |
| Fields.GetByNameFindsName | instasearch/src/it/unibz/instasearch/indexing/Field.java:53-60 | getByName gives the constant named by the upper-cased string, and null exactly when there is none, never an exception |
| Fields.GetByNameOfName | instasearch/src/it/unibz/instasearch/indexing/Field.java:53-60 | a string whose upper case is a constant's name finds that constant |
| Fields.GetByNameIgnoresCase | instasearch/src/it/unibz/instasearch/indexing/Field.java:53-60 | strings equal up to case find the same field |
| Fields.ToStringIsLowerName | instasearch/src/it/unibz/instasearch/indexing/Field.java:62-64 | toString is the lower-cased constant name |
| Fields.GetByNameToString | instasearch/src/it/unibz/instasearch/indexing/Field.java:53-64 | round trip: getByName(f.toString()) is f for every field |
| Fields.CreateTerm | instasearch/src/it/unibz/instasearch/indexing/Field.java:39-41 | the term's field is the lower-cased name, its text the text unchanged, and that field name looks the constant up again |
| Fields.FromCreatedTerm | instasearch/src/it/unibz/instasearch/indexing/Field.java:39-46 | fromTerm of a term created for a field is that field |
| Visiting.VisitLeaf | instasearch/src/it/unibz/instasearch/indexing/querying/VisitableQuery.java:60-67 | a term, prefix or wildcard node's replacement takes the node's boost, and the node itself is left as it was |
| Visiting.Traverse | instasearch/src/it/unibz/instasearch/indexing/querying/VisitableQuery.java:56-124 | the recursive accept; a visitor whose callbacks change none of its fields ends with its state as it began |
| Visiting.TraverseClauses | instasearch/src/it/unibz/instasearch/indexing/querying/VisitableQuery.java:73-77 | one clause per clause of the boolean, each keeping its occur; a clause the visitor declines keeps its query untouched; stateless visitors keep their state |
| Visiting.VisitableQuery.constructor | instasearch/src/it/unibz/instasearch/indexing/querying/VisitableQuery.java:35-37 | the object holds the given query |
| Visiting.VisitableQuery.Accept | instasearch/src/it/unibz/instasearch/indexing/querying/VisitableQuery.java:43-47 | init on the untransformed root, the traversal, then endVisit on its result: the new query and visitor state are those of Run |
| Visiting.VisitableQuery.AcceptNode | instasearch/src/it/unibz/instasearch/indexing/querying/VisitableQuery.java:56-124 | the recursive accept, node kind by node kind, computes exactly Traverse |
| Visiting.VisitableQuery.AcceptBoolean | instasearch/src/it/unibz/instasearch/indexing/querying/VisitableQuery.java:69-83 | the boolean is offered to the visitor first, then each accepted clause's query is rewritten in place; boost and minimum-should-match are copied; the result is Traverse |
| VisitingProperties.IdentityTraverse | instasearch/src/it/unibz/instasearch/indexing/querying/QueryVisitor.java:30-85 | with the default callbacks every node of every kind comes back unchanged and no state changes |
| VisitingProperties.IdentityClauses | instasearch/src/it/unibz/instasearch/indexing/querying/QueryVisitor.java:57-59 | the default clause visit descends every clause, and each comes back unchanged |
| VisitingProperties.IdentityRun | instasearch/src/it/unibz/instasearch/indexing/querying/QueryVisitor.java:91-101 | the default init, traversal and endVisit leave the query and the state as they were |
| VisitingProperties.TermLikeKeepsBoost | instasearch/src/it/unibz/instasearch/indexing/querying/VisitableQuery.java:60-117 | whatever a visitor returns for a term, prefix or wildcard node carries the original boost |
| VisitingProperties.BoolKeepsBoost | instasearch/src/it/unibz/instasearch/indexing/querying/VisitableQuery.java:69-82 | a rewritten boolean keeps its boost, minimum-should-match, number of clauses and every clause's occur |
| VisitingProperties.PhraseBesideBoolean | instasearch/src/it/unibz/instasearch/indexing/querying/PhraseSearcher.java:51-61 | a boolean of required terms becomes OR(phrase at the original boost, the boolean at half of it); the copy of the inner boost onto the wrapper leaves the wrapper at half the original boost |
| VisitingProperties.ProhibitedClausesSkipped | instasearch/src/it/unibz/instasearch/indexing/querying/QueryFuzzifier.java:78-84 | the fuzzifier and the prefixer do not descend MUST_NOT clauses, which come back unchanged |
| VisitingProperties.PrefixerUnchanged | instasearch/src/it/unibz/instasearch/indexing/querying/LastTermQueryPrefixer.java:37-73 | while the clause counter is positive no term is expanded and the traversal leaves the counter as it found it |
| VisitingProperties.PrefixerPrefixesLast | instasearch/src/it/unibz/instasearch/indexing/querying/LastTermQueryPrefixer.java:37-73 | from a zero counter exactly the last term is expanded (PrefixLast), and after the traversal the counter is back at zero |
| VisitingProperties.PrefixerRun | instasearch/src/it/unibz/instasearch/indexing/querying/LastTermQueryPrefixer.java:32-73 | a whole accept from a zero counter gives PrefixLast of the query and leaves the counter at zero |
| VisitingProperties.FileNameUnchanged | instasearch/src/it/unibz/instasearch/indexing/querying/FileNameSearcher.java:34-52 | when the root is not a term query no node changes |
| VisitingProperties.FileNameOnlyAtRoot | instasearch/src/it/unibz/instasearch/indexing/querying/FileNameSearcher.java:29-52 | only a root CONTENTS term query becomes OR(NAME term at twice its boost, the term); every other query, nested terms included, is unchanged |
| VisitingProperties.LowercaseIdempotent | instasearch/src/it/unibz/instasearch/indexing/querying/LowercaseConverter.java:33-86 | traversing the lowercased query again changes nothing |
| VisitingProperties.LowercaseRunIdempotent | instasearch/src/it/unibz/instasearch/indexing/querying/LowercaseConverter.java:33-86 | accepting the converter twice gives what accepting it once gives |
| VisitingProperties.FilterOnlyShrinks | instasearch/src/it/unibz/instasearch/indexing/querying/FilterSetter.java:67-76 | a FilterSetter traversal only removes entries from its filter map, unchanged otherwise, and touches no other visitor state |
| Lowercasing.LowerTerms | instasearch/src/it/unibz/instasearch/indexing/querying/LowercaseConverter.java:72-80 | one CONTENTS term per phrase term, in order, with the text lower-cased |
| Lowercasing.LowerPhrase | instasearch/src/it/unibz/instasearch/indexing/querying/LowercaseConverter.java:67-86 | the loop of visit(PhraseQuery) computes VisitPhrase: the phrase itself as soon as a term is not CONTENTS |
| Lowercasing.PhraseKeepsOrderSlopAndBoost | instasearch/src/it/unibz/instasearch/indexing/querying/LowercaseConverter.java:72-84 | a CONTENTS phrase keeps its slop, boost, length and term order, each term lower-cased in CONTENTS |
| Lowercasing.TermLikeLowered | instasearch/src/it/unibz/instasearch/indexing/querying/LowercaseConverter.java:33-65 | CONTENTS term, prefix and wildcard nodes keep their kind and get lower-cased text; nodes of other fields are unchanged |
| Lowercasing.TermLikeIdempotent | instasearch/src/it/unibz/instasearch/indexing/querying/LowercaseConverter.java:33-65 | visiting a lowered term, prefix or wildcard again changes nothing |
| Lowercasing.PhraseIdempotent | instasearch/src/it/unibz/instasearch/indexing/querying/LowercaseConverter.java:67-86 | visiting a lowered phrase again changes nothing |
| Fuzzifier.FuzzyTerms | instasearch/src/it/unibz/instasearch/indexing/querying/QueryFuzzifier.java:66-73 | one fuzzy query per phrase term, in order, at the default boost |
| Fuzzifier.FuzzifyPhrase | instasearch/src/it/unibz/instasearch/indexing/querying/QueryFuzzifier.java:62-76 | the loop of visit(PhraseQuery) computes VisitPhrase: the phrase itself as soon as a term is not CONTENTS |
| Fuzzifier.TermWidened | instasearch/src/it/unibz/instasearch/indexing/querying/QueryFuzzifier.java:33-60 | a CONTENTS term becomes OR(prefix at its boost, "*t*" wildcard at 3/4, fuzzy at 1/2) carrying the term's boost; other terms are unchanged |
| Fuzzifier.PhraseFuzzified | instasearch/src/it/unibz/instasearch/indexing/querying/QueryFuzzifier.java:62-76 | an all-CONTENTS phrase becomes an OR of fuzzy terms in order; a phrase with another field's term is unchanged |
| FileNames.RootContentsTermExpanded | instasearch/src/it/unibz/instasearch/indexing/querying/FileNameSearcher.java:34-52 | only the root CONTENTS term becomes OR(NAME term with its text at twice its boost, the term); any other term is unchanged |
| Filters.ValueClauses | instasearch/src/it/unibz/instasearch/indexing/querying/FilterSetter.java:61-62 | one SHOULD term clause of the field per filter value, in order |
| Filters.BuildFilterQuery | instasearch/src/it/unibz/instasearch/indexing/querying/FilterSetter.java:51-65 | the loop of getFilterQuery builds FilterQuery: the original first, at its boost, then one clause per value |
| Filters.AddFiltersConsumes | instasearch/src/it/unibz/instasearch/indexing/querying/FilterSetter.java:67-76 | a node of a field in the filter becomes OR(node at its boost, one term per value) and that field's entry is removed, the rest of the map untouched; any other node is unchanged |
| Filters.BuildConjunction | instasearch/src/it/unibz/instasearch/indexing/querying/FilterSetter.java:78-104 | the loops of endVisit compute EndVisit of the query and the remaining map |
| Filters.BuildFieldConjunct | instasearch/src/it/unibz/instasearch/indexing/querying/FilterSetter.java:90-100 | one field's conjunct, built as the loop does, is FieldConjunct |
| Filters.ConjunctsMembers | instasearch/src/it/unibz/instasearch/indexing/querying/FilterSetter.java:88-101 | the conjuncts are exactly one MUST clause per remaining field |
| Filters.EndVisitConjunction | instasearch/src/it/unibz/instasearch/indexing/querying/FilterSetter.java:78-104 | an empty filter leaves the query unchanged; otherwise the result is MUST(query) followed by exactly one MUST conjunct per remaining field |
| Filters.ConjunctMatchesAValue | instasearch/src/it/unibz/instasearch/indexing/querying/FilterSetter.java:92-100 | a field with one value gives that term; with several, an OR of one term per value |
| PhraseSearching.CollectPhraseTerms | instasearch/src/it/unibz/instasearch/indexing/querying/PhraseSearcher.java:37-49 | the loop over the clauses computes PhraseTerms: it gives up at the first clause that is not a required term query, throws as soon as a CONTENTS term's field name differs from the first added term's, and otherwise yields the CONTENTS terms in clause order |
| PhraseSearching.ContentsTermsMembers | instasearch/src/it/unibz/instasearch/indexing/querying/PhraseSearcher.java:42-48 | a term is added to the phrase exactly when some clause is a required term query holding it whose field name looks up to CONTENTS |
| PhraseSearching.DifferentFieldIffClash | instasearch/src/it/unibz/instasearch/indexing/querying/PhraseSearcher.java:48 | some added term's field name differs from the first added term's exactly when two CONTENTS clauses carry different field names |
| PhraseSearching.PhraseTermsSucceed | instasearch/src/it/unibz/instasearch/indexing/querying/PhraseSearcher.java:37-48 | the loop throws exactly when two CONTENTS clauses before the first clause that is not a required term differ in field name; it gives up exactly when such a clause exists and nothing clashed before it; it yields terms exactly when every clause is a required term and no two CONTENTS clauses clash |
| PhraseSearching.PhraseTermsAreContents | instasearch/src/it/unibz/instasearch/indexing/querying/PhraseSearcher.java:42-48 | the phrase holds only CONTENTS terms, all under one field name, and every CONTENTS term of the clauses |
| PhraseSearching.OnlyRequiredTermsBecomePhrases | instasearch/src/it/unibz/instasearch/indexing/querying/PhraseSearcher.java:32-62 | visit throws an IllegalArgumentException exactly on a field-name clash among the CONTENTS clauses met before the first clause that is not a required term; it keeps the boolean exactly when such a clause exists and nothing clashed before it; otherwise the phrase of the CONTENTS terms, with slop 10 and the boolean's boost, goes beside it |
| PhraseSearching.MixedCaseContentsThrows | instasearch/src/it/unibz/instasearch/indexing/querying/PhraseSearcher.java:44-48 | +Contents:foo +contents:bar throws: both are CONTENTS terms, under two field names |
| CsvExpansion.ValueTerm | instasearch/src/it/unibz/instasearch/indexing/querying/CSVExpander.java:42 | the term of one listed value: the value as text, in the recognised field, or, in the corrected model, in the raw field name when the field is not recognised |
| CsvExpansion.ValueQueries | instasearch/src/it/unibz/instasearch/indexing/querying/CSVExpander.java:40-44 | one term query per value, in order |
| CsvExpansion.Expand | instasearch/src/it/unibz/instasearch/indexing/querying/CSVExpander.java:28-50 | the loop over the split values computes Visit |
| CsvExpansion.KeepsUnlistedTerms | instasearch/src/it/unibz/instasearch/indexing/querying/CSVExpander.java:33-49 | a CONTENTS term, or one without a comma, is unchanged |
| CsvExpansion.OnlyCommasKept | instasearch/src/it/unibz/instasearch/indexing/querying/CSVExpander.java:36-38 | every non-empty text of commas only splits into no values, and the term is kept, by the stage as written too |
| CsvExpansion.ListExpanded | instasearch/src/it/unibz/instasearch/indexing/querying/CSVExpander.java:33-46 | a non-CONTENTS term with commas becomes an OR of one term of its field per non-empty value, in order, none containing a comma |
| CsvExpansion.AgreesWhereSourceSucceeds | instasearch/src/it/unibz/instasearch/indexing/querying/CSVExpander.java:28-50 | wherever the code as written returns a query, the corrected Visit returns the same query |
| CsvExpansion.TypeIsNoField | instasearch/src/it/unibz/instasearch/indexing/querying/FieldAliasConverter.java:34 | the alias "type" names no field, so the expander meets it with a null field |
| CsvExpansion.TwoValues | instasearch/src/it/unibz/instasearch/indexing/querying/CSVExpander.java:36-41 | "a,b" splits into the two non-empty values a and b |
| CsvExpansion.AliasListFails | instasearch/src/it/unibz/instasearch/indexing/querying/CSVExpander.java:42 | as written, a comma list in an alias field (such as type:java,xml) dereferences the null field: NullPointerException |
| CsvExpansion.AliasListExpanded | instasearch/src/it/unibz/instasearch/indexing/querying/CSVExpander.java:33-46 | corrected, the same list becomes an OR of terms in the raw field name, which FieldAliasConverter then maps |
| FieldAliases.AliasKeys | instasearch/src/it/unibz/instasearch/indexing/querying/FieldAliasConverter.java:31-38 | exactly project, filetype, type, workingset, age and folder are aliases |
| FieldAliases.AliasRewrite | instasearch/src/it/unibz/instasearch/indexing/querying/FieldAliasConverter.java:46-89 | only a node whose field is unrecognised and whose raw field name is an alias is rewritten: same kind, same text, the aliased field |
| FieldAliases.TypeAlias | instasearch/src/it/unibz/instasearch/indexing/querying/FieldAliasConverter.java:31-59 | type:java becomes ext:java |
| FieldAliases.AgeAlias | instasearch/src/it/unibz/instasearch/indexing/querying/FieldAliasConverter.java:36-71 | an age prefix becomes a modified prefix, at the default boost the new node is built with |
| FieldAliases.AliasIsCaseSensitive | instasearch/src/it/unibz/instasearch/indexing/querying/FieldAliasConverter.java:51 | the alias lookup is case-sensitive: Type:java is unchanged |
| Folders.DirBecomesFile | instasearch/src/it/unibz/instasearch/indexing/querying/FolderSearcher.java:27-91 | non-DIR nodes are unchanged; an absolute DIR term or prefix becomes a FILE prefix and an absolute wildcard a FILE wildcard with the same text; relative ones become FILE wildcards "/*/"+t+"/*", "/*/"+t+"*/*" and "/*/"+t |
| WorkingSets.ProjectTerms | instasearch/src/it/unibz/instasearch/indexing/querying/WorkingSetExpander.java:41-45 | one PROJ term query per project name, in order |
| WorkingSets.Expand | instasearch/src/it/unibz/instasearch/indexing/querying/WorkingSetExpander.java:28-51 | the loop over the working set's projects computes Visit |
| WorkingSets.WorkingSetToProjects | instasearch/src/it/unibz/instasearch/indexing/querying/WorkingSetExpander.java:28-51 | non-WS terms and working sets without projects are unchanged; otherwise an OR of PROJ terms holding exactly the non-empty project names |
| WorkingSets.ProjectClauses | instasearch/src/it/unibz/instasearch/indexing/querying/WorkingSetExpander.java:41-45 | a project has a clause exactly when it is one of the names kept |
| CurrentProject.DotIsCurrentProject | instasearch/src/it/unibz/instasearch/indexing/querying/CurrentProjectSetter.java:42-54 | the text "." in PROJ or CONTENTS becomes a PROJ term of the current project; everything else is unchanged |
| UppercaseNames.HumpEnd | instasearch/src/it/unibz/instasearch/indexing/querying/UppercaseNameExpander.java:44 | the end of one [a-z0-9_]* run: every character before it continues the hump, the one at it does not |
| UppercaseNames.StarHumpsOnlyAddsStars | instasearch/src/it/unibz/instasearch/indexing/querying/UppercaseNameExpander.java:44 | the wildcard text is the name with one "*" added per capital and nothing else changed |
| UppercaseNames.StarHumpsExamples | instasearch/src/it/unibz/instasearch/indexing/querying/UppercaseNameExpander.java:44 | ABC gives A*B*C* and AbsBC gives Abs*B*C* |
| UppercaseNames.HumpExamples | instasearch/src/it/unibz/instasearch/indexing/querying/UppercaseNameExpander.java:39 | Foo has one hump and is not expanded; ABC and FooBar are |
| UppercaseNames.VisitKeepsOtherTerms | instasearch/src/it/unibz/instasearch/indexing/querying/UppercaseNameExpander.java:33-54 | a non-NAME term, or a name not matching [A-Z][a-z0-9_]*[A-Z].*, is unchanged |
| UppercaseNames.StarHumpsMarksHumpEnds | instasearch/src/it/unibz/instasearch/indexing/querying/UppercaseNameExpander.java:44 | the pattern puts a "*" after exactly the characters that end a hump (a capital, or a hump-tail character in a hump, that no [a-z0-9_] character follows) and nowhere else |
| UppercaseNames.VisitExpandsHumpedNames | instasearch/src/it/unibz/instasearch/indexing/querying/UppercaseNameExpander.java:39-51 | a name with several humps becomes OR(term, NAME wildcard at half its boost) whose text is the name with a "*" after the last character of every hump, one star per capital, nothing else changed |
| ModifiedTime.IntervalByName | instasearch/src/it/unibz/instasearch/indexing/querying/ModifiedTimeConverter.java:124-133 | an interval exactly when the upper-cased name is its enum name, and none when no interval has that name |
| ModifiedTime.CountOf | instasearch/src/it/unibz/instasearch/indexing/querying/ModifiedTimeConverter.java:81-87 | the count is 1 unless the text starts with digits, and always within 0..Integer.MAX_VALUE |
| ModifiedTime.VisitRange | instasearch/src/it/unibz/instasearch/indexing/querying/ModifiedTimeConverter.java:73-122 | non-MODIFIED terms and texts naming no interval are unchanged; otherwise a long range over the lower-case field "modified": [start of today, now] for today, [start of yesterday, start of today] for yesterday, [now - count x interval length, now] otherwise, never empty for a consistent clock |
| ModifiedTime.RangeWidths | instasearch/src/it/unibz/instasearch/indexing/querying/ModifiedTimeConverter.java:46-115 | a range of n hours, days, weeks or months ends now and spans n times 3600000, 86400000, 7 x 86400000 or 30 x 86400000 milliseconds |
| ModifiedTime.RangeFitsInLong | instasearch/src/it/unibz/instasearch/indexing/querying/ModifiedTimeConverter.java:99-116 | both range ends fit in a Java long: count times interval length cannot overflow |
| ModifiedTime.IntervalByLowerName | instasearch/src/it/unibz/instasearch/indexing/querying/ModifiedTimeConverter.java:124-128 | every lower-case duration name maps back to its interval |
| ModifiedTime.CountOfText | instasearch/src/it/unibz/instasearch/indexing/querying/ModifiedTimeConverter.java:83-86 | the count written before a duration name is read back |
| ModifiedTime.NameOfText | instasearch/src/it/unibz/instasearch/indexing/querying/ModifiedTimeConverter.java:88-92 | the interval name written after a count, with a plural "s", is read back |
| ModifiedTime.ParseDurationText | instasearch/src/it/unibz/instasearch/indexing/querying/ModifiedTimeConverter.java:79-97 | a text "<n> <name>s" parses back to count n and that interval |
| ModifiedTime.ParseBareName | instasearch/src/it/unibz/instasearch/indexing/querying/ModifiedTimeConverter.java:81-94 | a bare interval name parses with count 1 |
| ModifiedTime.ExampleIsThreeDays | instasearch/src/it/unibz/instasearch/indexing/querying/ModifiedTimeConverter.java:39 | the listed example "3 days" is the text of three days |
| SearchQueries.Equal | instasearch/src/it/unibz/instasearch/indexing/SearchQuery.java:125-135 | a NullPointerException exactly when modes and limit agree and this query's search string is null |
| SearchQueries.SearchQuery.constructor | instasearch/src/it/unibz/instasearch/indexing/SearchQuery.java:26-42 | a new query is exact, not fuzzy, not canceled, with no project and no filter |
| SearchQueries.SearchQuery.Copy | instasearch/src/it/unibz/instasearch/indexing/SearchQuery.java:48-53 | the copy keeps search string, limit and modes and resets the rest |
| SearchQueries.SearchQuery.Equals | instasearch/src/it/unibz/instasearch/indexing/SearchQuery.java:117-136 | the same object is equal, null is not, any other query is compared by Equal |
| SearchQueries.SearchQuery.SetMaxResults | instasearch/src/it/unibz/instasearch/indexing/SearchQuery.java:79-82 | only the limit changes |
| SearchQueries.SearchQuery.SetExact | instasearch/src/it/unibz/instasearch/indexing/SearchQuery.java:96-99 | only the exact flag changes |
| SearchQueries.SearchQuery.SetFuzzy | instasearch/src/it/unibz/instasearch/indexing/SearchQuery.java:113-115 | only the fuzzy flag changes |
| SearchQueries.SearchQuery.SetCanceled | instasearch/src/it/unibz/instasearch/indexing/SearchQuery.java:142-144 | only the canceled flag changes |
| SearchQueries.SearchQuery.SetSearchString | instasearch/src/it/unibz/instasearch/indexing/SearchQuery.java:149-151 | only the search string changes |
| SearchQueries.SearchQuery.SetCurrentProject | instasearch/src/it/unibz/instasearch/indexing/SearchQuery.java:172-174 | only the current project changes |
| SearchQueries.SearchQuery.SetFilter | instasearch/src/it/unibz/instasearch/indexing/SearchQuery.java:179-181 | only the filter changes |
| SearchQueries.EqualIgnoresCanceledAndProject | instasearch/src/it/unibz/instasearch/indexing/SearchQuery.java:125-135 | equals does not depend on the canceled flag or the current project, on either side |
| SearchQueries.EqualReflexive | instasearch/src/it/unibz/instasearch/indexing/SearchQuery.java:125-135 | a query with a search string equals itself; one without throws |
| SearchQueries.EqualSymmetric | instasearch/src/it/unibz/instasearch/indexing/SearchQuery.java:125-135 | between queries with search strings, equals is symmetric |
| SearchQueries.EqualTransitive | instasearch/src/it/unibz/instasearch/indexing/SearchQuery.java:125-135 | equals is transitive |
| SearchQueries.CopyEqualsSource | instasearch/src/it/unibz/instasearch/indexing/SearchQuery.java:48-53 | a copy equals its source, both ways, exactly when the source has no filter |
| SearchResults.FullOnlyAtTheLimit | instasearch/src/it/unibz/instasearch/indexing/SearchResult.java:56-58 | a full result belongs to a limited query, more documents than the limit is never full, and an empty result is full only for a limit of 0 |
| ResultDocs.SearchResultDoc.constructor | instasearch/src/it/unibz/instasearch/indexing/SearchResultDoc.java:42-49 | a new document has no frequency vector yet and a match count of 0 |
| ResultDocs.SearchResultDoc.FieldValue | instasearch/src/it/unibz/instasearch/indexing/SearchResultDoc.java:51-53 | the stored value of the field's name, none when the document lacks it |
| ResultDocs.SearchResultDoc.JarName | instasearch/src/it/unibz/instasearch/indexing/SearchResultDoc.java:82-88 | the JAR value exactly when the document is in a jar |
| ResultDocs.SearchResultDoc.ComputeMatchCount | instasearch/src/it/unibz/instasearch/indexing/SearchResultDoc.java:253-271 | the frequency vector is fetched once; without one the count is kept, with one it is the sum of the frequencies of the query terms found in it |
| ResultDocs.MatchSumNonNegative | instasearch/src/it/unibz/instasearch/indexing/SearchResultDoc.java:262-270 | the match count is never negative |
| ResultDocs.MatchSumOfPresentTerms | instasearch/src/it/unibz/instasearch/indexing/SearchResultDoc.java:264-268 | query terms absent from the document add nothing |
| ResultDocs.MatchSumOfAllTerms | instasearch/src/it/unibz/instasearch/indexing/SearchResultDoc.java:261-268 | asking for all the document's terms sums all their frequencies |
| ResultDocs.JarSuffixInAnyCase | instasearch/src/it/unibz/instasearch/indexing/SearchResultDoc.java:76-77 | a JAR value ending in ".jar" in any letter case is in a jar |
| ResultDocs.NotInJar | instasearch/src/it/unibz/instasearch/indexing/SearchResultDoc.java:67-74 | a missing JAR field or the NO_VALUE placeholder is not in a jar and has no jar name |
| ResultDocs.IndexedJarRoundTrip | instasearch/src/it/unibz/instasearch/indexing/SearchResultDoc.java:67-88 | for a document the indexer stored, isInJar holds exactly when it was indexed from a ".jar" archive, and getJarName gives that archive |
| ResultDocs.TermIndex | instasearch/src/it/unibz/instasearch/indexing/SearchResultDoc.java:265-266 | indexOf: the position of the term in the vector, -1 exactly when absent |
| Searching.Distinct | instasearch/src/it/unibz/instasearch/indexing/Searcher.java:420-431 | the LinkedHashSet of extracted terms: the same members, each once |
| Searching.TermNames | instasearch/src/it/unibz/instasearch/indexing/Searcher.java:511-521 | the keys of the term-weight map, each once |
| Searching.ExtractTerms | instasearch/src/it/unibz/instasearch/indexing/Searcher.java:511-521 | the loop puts each weighted term into the map: the result is TermWeights of the extracted terms, with its key list |
| Searching.ConvertToPhraseQuery | instasearch/src/it/unibz/instasearch/indexing/Searcher.java:416-442 | the method computes ConvertToPhrase on the terms the query yields |
| Searching.ParseSpec | instasearch/src/it/unibz/instasearch/indexing/Searcher.java:358-384 | a parse error exactly when the exact query or, when not exact, the token query fails to parse; an IllegalArgumentException exactly when the terms of the exact phrase are under two field names; only the filter of the query state can change |
| Searching.PrepareFrom | instasearch/src/it/unibz/instasearch/indexing/Searcher.java:122-150 | the search string keeps its length, nothing but it and the filter changes, and giving up yields no result or an exception, never documents |
| Searching.SearchIndexSpec | instasearch/src/it/unibz/instasearch/indexing/Searcher.java:122-155 | the visitors and query state after a search are those of preparing the query; a canceled query never finds documents |
| Searching.Rung | instasearch/src/it/unibz/instasearch/indexing/Searcher.java:214-238 | one step of the ladder sets exact and fuzzy for its mode, keeps canceled and the search string's length, and appends one attempt with its outcome |
| Searching.AcceptTermVisitors | instasearch/src/it/unibz/instasearch/indexing/Searcher.java:446-458 | the first visitors applied in place compute the first seven stages of RewriteSpec |
| Searching.Rewrite | instasearch/src/it/unibz/instasearch/indexing/Searcher.java:446-477 | the visitor pipeline applied in place computes RewriteSpec |
| Searching.Searcher.constructor | instasearch/src/it/unibz/instasearch/indexing/Searcher.java:113-116 | the preferences are read once, no index searcher is open, and the visitors are in their initial state |
| Searching.Searcher.PreferenceChange | instasearch/src/it/unibz/instasearch/indexing/Searcher.java:529-537 | only the preference named by the event is re-read; nothing else changes |
| Searching.Searcher.ResetSearcher | instasearch/src/it/unibz/instasearch/indexing/Searcher.java:320-331 | the index searcher is closed; preferences and visitors are kept |
| Searching.Searcher.OnIndexReset | instasearch/src/it/unibz/instasearch/indexing/Searcher.java:316-318 | the index searcher is closed; preferences and visitors are kept |
| Searching.Searcher.OnIndexUpdate | instasearch/src/it/unibz/instasearch/indexing/Searcher.java:347-356 | after closing the searcher, the warm-up search of "<warmup search>" with limit 1 runs and reopens it |
| Searching.Searcher.CreateExactQuery | instasearch/src/it/unibz/instasearch/indexing/Searcher.java:391-414 | the exact query and the visitor state are those of ExactQuerySpec |
| Searching.Searcher.RewriteQuery | instasearch/src/it/unibz/instasearch/indexing/Searcher.java:444-478 | the query and visitor state are those of RewriteSpec, and the query keeps every field but the filter, which is what the filter setter left |
| Searching.Searcher.ParseSearchQuery | instasearch/src/it/unibz/instasearch/indexing/Searcher.java:358-384 | result, visitor state and new query state are those of ParseSpec |
| Searching.Searcher.CollectSearchResults | instasearch/src/it/unibz/instasearch/indexing/Searcher.java:157-201 | the answer represents CollectSpec: an exception for a collector size below -1, null when canceled or nothing matched, else fresh result documents for the best hits, counted when match counts are shown |
| Searching.Searcher.RetryCleaned | instasearch/src/it/unibz/instasearch/indexing/Searcher.java:136-149 | the search string is replaced by its cleaned form and parsed once more, as PrepareFrom prescribes after a parse error |
| Searching.Searcher.PrepareQuery | instasearch/src/it/unibz/instasearch/indexing/Searcher.java:126-150 | the query is prepared as PrepareFrom prescribes, retrying without prefix on too many clauses and with a cleaned string on a parse error |
| Searching.Searcher.SearchIndex | instasearch/src/it/unibz/instasearch/indexing/Searcher.java:122-155 | visitor state, query state and answer are those of SearchIndexSpec, and the index searcher is open |
| Searching.Searcher.SearchRung | instasearch/src/it/unibz/instasearch/indexing/Searcher.java:222-237 | one rung of the ladder changes state and answers as Rung prescribes |
| Searching.Searcher.Search | instasearch/src/it/unibz/instasearch/indexing/Searcher.java:205-242 | visitor state, query state and answer are those of SearchSpec; the index searcher is open afterwards exactly when it was or a search was attempted |
| Searching.NullOrEmptyIsUnanswered | instasearch/src/it/unibz/instasearch/indexing/Searcher.java:226-233 | an answer is null or empty exactly when its outcome is unanswered, the condition for the next rung |
| SearchingProperties.StageChoice | instasearch/src/it/unibz/instasearch/indexing/Searcher.java:444-478 | the fuzzifier runs iff the query is fuzzy, the prefixer iff prefix is wanted and the query is not fuzzy, the filter setter iff there is a filter, the project setter iff there is a current project and only last |
| SearchingProperties.FuzzyNeverPrefixes | instasearch/src/it/unibz/instasearch/indexing/Searcher.java:452-461 | for a fuzzy query the prefix flag makes no difference to the rewrite |
| SearchingProperties.FilterWithinTransitive | instasearch/src/it/unibz/instasearch/indexing/Searcher.java:463-467 | using up a filter in steps uses up a part of the original filter |
| SearchingProperties.FilterOnlyUsedUp | instasearch/src/it/unibz/instasearch/indexing/Searcher.java:463-467 | after the rewrite the filter setter's map holds only fields and values of the query's filter |
| SearchingProperties.ParseUsesUpFilter | instasearch/src/it/unibz/instasearch/indexing/Searcher.java:378 | parsing leaves a filter that is null exactly when it was, and within the original |
| SearchingProperties.PrepareUsesUpFilter | instasearch/src/it/unibz/instasearch/indexing/Searcher.java:130-150 | every retry in preparing a query keeps the filter within the original |
| SearchingProperties.RungUsesUpFilter | instasearch/src/it/unibz/instasearch/indexing/Searcher.java:222-237 | a rung keeps the filter within the original |
| SearchingProperties.SearchUsesUpFilter | instasearch/src/it/unibz/instasearch/indexing/Searcher.java:205-242 | a whole search keeps the filter within the original, null exactly when it was |
| SearchingProperties.CleanedBlanksOnlySpecialChars | instasearch/src/it/unibz/instasearch/indexing/Searcher.java:139 | cleaning keeps the length, keeps every character that is not one of ()"[]'{}, leaves none of them, and is idempotent |
| SearchingProperties.ParseErrorRetriesCleaned | instasearch/src/it/unibz/instasearch/indexing/Searcher.java:136-149 | the search string is replaced by its cleaned form exactly when the first parse fails, and nothing is returned exactly when both parses fail |
| SearchingProperties.TooManyClausesRetriesWithoutPrefix | instasearch/src/it/unibz/instasearch/indexing/Searcher.java:133-134 | after too many clauses the query is parsed again, keeps its search string, gives an answer, and no prefixer runs |
| SearchingProperties.ModesOf | instasearch/src/it/unibz/instasearch/indexing/Searcher.java:214-238 | the modes of the attempts, in order |
| SearchingProperties.ShortQueryFindsNothing | instasearch/src/it/unibz/instasearch/indexing/Searcher.java:207-210 | a null search string or one shorter than 2 characters gives null with no search and no change |
| SearchingProperties.RungClimbs | instasearch/src/it/unibz/instasearch/indexing/Searcher.java:222-237 | a rung taken after unanswered rungs of the plan extends the plan's prefix |
| SearchingProperties.LadderFollowsPlan | instasearch/src/it/unibz/instasearch/indexing/Searcher.java:205-242 | an uncanceled search tries a prefix of exact (when set), split, fuzzy (when automatic), each only after the previous was null or empty, and stops early only on an answer |
| SearchingProperties.PresetFuzzySearchesOnce | instasearch/src/it/unibz/instasearch/indexing/Searcher.java:214-218 | a fuzzy query is searched once, fuzzy and not exact |
| SearchingProperties.CanceledSearchesAtMostOnce | instasearch/src/it/unibz/instasearch/indexing/Searcher.java:222-238 | a canceled search tries at most one rung, never finds documents, and tries none only for a short string or a query neither fuzzy nor exact |
| SearchingProperties.WarmupSearchesExactFirst | instasearch/src/it/unibz/instasearch/indexing/Searcher.java:338-340 | the warm-up search starts with an exact attempt |
| SearchingProperties.ExactModeUsesExactQuery | instasearch/src/it/unibz/instasearch/indexing/Searcher.java:364-370 | in exact mode the top query is the exact query; parsing fails exactly when ParseFails says, and throws an IllegalArgumentException exactly when making the phrase does |
| SearchingProperties.NonExactCombines | instasearch/src/it/unibz/instasearch/indexing/Searcher.java:372-376 | otherwise the top query is OR(exact query at twice the parsed query's boost, parsed query) |
| SearchingProperties.PhraseOnlyOfContents | instasearch/src/it/unibz/instasearch/indexing/Searcher.java:416-442 | a query that becomes something else becomes a phrase of slop 0 holding each extracted term once, and only when all terms are CONTENTS terms |
| SearchingProperties.UnlistedTermsKept | instasearch/src/it/unibz/instasearch/indexing/Searcher.java:391-439 | a search string with a space whose standard parse cannot list its terms neither throws nor becomes a phrase: the exact query, which exact mode searches for, is that parse after the uppercase-name and file-name stages |
| SearchingProperties.ContentsPhraseThrowsOnClash | instasearch/src/it/unibz/instasearch/indexing/Searcher.java:426-434 | with CONTENTS terms only, making the phrase throws exactly when two terms are under different field names |
| SearchingProperties.OtherFieldKeepsQuery | instasearch/src/it/unibz/instasearch/indexing/Searcher.java:426-434 | a term of another field keeps the query, unless a field-name clash before it throws; with one field name throughout the query is kept |
| SearchingProperties.FieldNamesClash | instasearch/src/it/unibz/instasearch/indexing/Searcher.java:426-434 | the terms Contents:foo and contents:bar, both CONTENTS terms, make the phrase throw |
| SearchingProperties.LastWeightWins | instasearch/src/it/unibz/instasearch/indexing/Searcher.java:517-518 | a term's weight in the map is that of its last occurrence |
| SearchingProperties.TermWeightsKeys | instasearch/src/it/unibz/instasearch/indexing/Searcher.java:513-518 | the map's keys are exactly the extracted terms |
| SearchingProperties.HitCountBounds | instasearch/src/it/unibz/instasearch/indexing/Searcher.java:161-166 | the collector keeps at most the limit, or every indexed document when unlimited, and never more than matched |
| SearchingProperties.CollectKeepsBestHits | instasearch/src/it/unibz/instasearch/indexing/Searcher.java:157-201 | an exception exactly for a limit below -1; otherwise documents are found exactly when not canceled and something matches; they are matches of the query, within the limit, with the query's term weights |
| StorageIndexing.StoredExtension | instasearch/src/it/unibz/instasearch/indexing/StorageIndexer.java:210-219 | the stored extension is the file extension in lower case, or "<none>" when the file has none |
| StorageIndexing.StoredFields | instasearch/src/it/unibz/instasearch/indexing/StorageIndexer.java:213-221 | a document stores exactly FILE, PROJ, NAME, EXT, MODIFIED and JAR (CONTENTS is indexed, not stored), with JAR "<none>" when not in a jar |
| StorageIndexing.Rethrown | instasearch/src/it/unibz/instasearch/indexing/StorageIndexer.java:253-259 | the last failure is rethrown, wrapped in an Exception exactly when it is an Error |
| StorageIndexing.Handle | instasearch/src/it/unibz/instasearch/indexing/StorageIndexer.java:284-299 | an OutOfMemoryError lowers a larger max field length to the default and retries, and gives up when it is already at most the default; every other failure keeps retrying with the length unchanged |
| StorageIndexing.IndexWriter.constructor | instasearch/src/it/unibz/instasearch/indexing/StorageIndexer.java:90-103 | a writer starts with a max field length of 200000 terms |
| StorageIndexing.HandleException | instasearch/src/it/unibz/instasearch/indexing/StorageIndexer.java:284-299 | the handler decides and updates the writer's max field length as Handle says, and resets the searcher exactly on an IOException |
| StorageIndexing.RunRetrying | instasearch/src/it/unibz/instasearch/indexing/StorageIndexer.java:226-260 | the retry loop's outcome, attempts, delays, searcher resets and final max field length are those of Retry |
| StorageIndexing.RetryShape | instasearch/src/it/unibz/instasearch/indexing/StorageIndexer.java:230-259 | between 1 and 10 attempts, delays i*1000 ms in order, every attempt before the last failed, success exactly when the last attempt ran cleanly, and a throw rethrows the last failure |
| StorageIndexing.GivingUpStopsAtOnce | instasearch/src/it/unibz/instasearch/indexing/StorageIndexer.java:238-243 | an OutOfMemoryError at the default field length ends the loop at that attempt with no delay |
| StorageIndexing.SecondOutOfMemoryGivesUp | instasearch/src/it/unibz/instasearch/indexing/StorageIndexer.java:286-291 | two OutOfMemoryErrors in a row: the length is lowered once, and the second gives up after 2 attempts and one 1000 ms delay |
| StorageIndexing.PersistentIOFailure | instasearch/src/it/unibz/instasearch/indexing/StorageIndexer.java:230-259 | an IOException on every attempt runs all 10 attempts, resets the searcher each time, and rethrows the IOException |
| Tokenizers.TermSplitFilter.constructor | instasearch/src/it/unibz/instasearch/indexing/tokenizers/TermSplitTokenizer.java:35-45 | a new filter over an input stream with no queued sub-tokens |
| Tokenizers.TermSplitFilter.IncrementToken | instasearch/src/it/unibz/instasearch/indexing/tokenizers/TermSplitTokenizer.java:48-70 | a queued sub-token first; else the next input token, split, replaced by its first part unless the original is returned; false only when both are used up; the token emitted is the head of what was pending |
| Tokenizers.TermSplitFilter.SplitIntoTokens | instasearch/src/it/unibz/instasearch/indexing/tokenizers/TermSplitTokenizer.java:72-93 | the loop queues exactly the sub-tokens of the current term |
| Tokenizers.TermSplitFilter.Drain | instasearch/src/it/unibz/instasearch/indexing/StorageIndexer.java:355 | pulling tokens until incrementToken returns false yields exactly the pending output, in order |
| Tokenizers.SubTokensShape | instasearch/src/it/unibz/instasearch/indexing/tokenizers/TermSplitTokenizer.java:77-91 | sub-tokens only for several parts: one per part, in order, at position increment 0, starting at the parent's offset plus indexOf of the part, as long as the part |
| Tokenizers.SubTokensFramed | instasearch/src/it/unibz/instasearch/indexing/tokenizers/TermSplitTokenizer.java:84-87 | for word and dot splits, each sub-token's offsets lie within its parent and frame its own text there |
| Tokenizers.EmittedOrder | instasearch/src/it/unibz/instasearch/indexing/tokenizers/TermSplitTokenizer.java:50-62 | a term without parts is emitted alone; with parts, the original then its parts when the original is returned, else only the parts |
| Tokenizers.OutputAppend | instasearch/src/it/unibz/instasearch/indexing/tokenizers/TermSplitTokenizer.java:48-70 | the output of two token runs one after the other is the two outputs one after the other |
| Tokenizers.DotlessTermPassesThrough | instasearch/src/it/unibz/instasearch/indexing/tokenizers/DotSplitTokenizer.java:30-32 | a non-empty term without a dot is a single part and passes through alone |
| Tokenizers.DottedNameParts | instasearch/src/it/unibz/instasearch/indexing/tokenizers/DotSplitTokenizer.java:30-32 | a.b.c splits into a, b and c |
| Tokenizers.WordCharsStayTogether | instasearch/src/it/unibz/instasearch/indexing/tokenizers/WordSplitTokenizer.java:30-32 | a term of word characters only is one part and passes through alone |
| Tokenizers.CamelCaseParts | instasearch/src/it/unibz/instasearch/indexing/tokenizers/CamelCaseTokenizer.java:27-32 | the two replacements only insert underscores, and the parts are the marked text split at underscores, none containing one |
| Tokenizers.LeadingHumpGivesEmptyPart | instasearch/src/it/unibz/instasearch/indexing/tokenizers/CamelCaseTokenizer.java:29-32 | a term starting with a capital and a small letter yields an empty first part, emitted as an empty sub-token at the term's start |
| Tokenizers.LengthFilterBounds | instasearch/src/it/unibz/instasearch/indexing/FileAnalyzer.java:50 | the length filter keeps only input tokens within the bounds |
| Tokenizers.AnalyzedTokens | instasearch/src/it/unibz/instasearch/indexing/FileAnalyzer.java:40-53 | every token the analyzer chain keeps has between the minimum word length and 128 characters, and none has a capital when lower-cased |
| WorkspaceIndexing.DotsAsAnyChar | instasearch/src/it/unibz/instasearch/indexing/WorkspaceIndexer.java:495 | the pattern with every "." read as "?" and nothing else changed |
| WorkspaceIndexing.RegexChainIsTranslate | instasearch/src/it/unibz/instasearch/indexing/WorkspaceIndexer.java:494-498 | the five replaceAll steps, for a pattern without "<", translate the pattern character by character |
| WorkspaceIndexing.TranslateDotsAsAnyChar | instasearch/src/it/unibz/instasearch/indexing/WorkspaceIndexer.java:495 | translating with the unescaped dot is translating the pattern whose dots are "?" |
| WorkspaceIndexing.TranslateMatchesGlob | instasearch/src/it/unibz/instasearch/indexing/WorkspaceIndexer.java:494-498 | the translated regex matches a path exactly when the glob does: "*" any run without "/", "**" any run, "?" one character, "." only a dot |
| WorkspaceIndexing.WildcardToRegexMeaning | instasearch/src/it/unibz/instasearch/indexing/WorkspaceIndexer.java:490-502 | the corrected wildcardToRegex matches exactly the paths the wildcard pattern names |
| WorkspaceIndexing.WildcardToRegexAsWrittenMeaning | instasearch/src/it/unibz/instasearch/indexing/WorkspaceIndexer.java:495 | as written, the regex matches exactly the paths of the pattern with each "." taken as "?" |
| WorkspaceIndexing.DotPatternExamples | instasearch/src/it/unibz/instasearch/indexing/WorkspaceIndexer.java:484-489 | the wildcard a.b does not name axb, while a?b does |
| WorkspaceIndexing.DotMatchesAnyCharacter | instasearch/src/it/unibz/instasearch/indexing/WorkspaceIndexer.java:495 | as written, the regex of a.b matches axb, a path the pattern does not name |
| WorkspaceIndexing.EscapedDotMatchesOnlyDot | instasearch/src/it/unibz/instasearch/indexing/WorkspaceIndexer.java:495 | corrected, the regex of a.b does not match axb |
| WorkspaceIndexing.MapAll | instasearch/src/it/unibz/instasearch/indexing/WorkspaceIndexer.java:194-199 | each entry replaced by its image, in place and in order |
| WorkspaceIndexing.SortStringsCorrect | instasearch/src/it/unibz/instasearch/indexing/WorkspaceIndexer.java:201 | sorting yields a sorted permutation of the entries |
| WorkspaceIndexing.MapInPlace | instasearch/src/it/unibz/instasearch/indexing/WorkspaceIndexer.java:194-199 | the loop over the array normalises every entry in place |
| WorkspaceIndexing.IndexableFileExtensions | instasearch/src/it/unibz/instasearch/indexing/WorkspaceIndexer.java:184-204 | null for a null, empty or "*" list, or one of separators only; otherwise the lower-cased, trimmed entries without a leading "*" and ".", sorted |
| WorkspaceIndexing.BinarySearch | instasearch/src/it/unibz/instasearch/indexing/WorkspaceIndexer.java:230 | on a sorted array, a non-negative index only at the key, negative only when the key is absent |
| WorkspaceIndexing.WorkspaceIndexer.constructor | instasearch/src/it/unibz/instasearch/indexing/WorkspaceIndexer.java:65-67 | the extension list is parsed from the preference and the empty-extension flag read |
| WorkspaceIndexing.WorkspaceIndexer.ExtensionListChanged | instasearch/src/it/unibz/instasearch/indexing/WorkspaceIndexer.java:474-475 | a change of the extension list re-parses it and keeps the empty-extension flag |
| WorkspaceIndexing.WorkspaceIndexer.IndexEmptyExtensionChanged | instasearch/src/it/unibz/instasearch/indexing/WorkspaceIndexer.java:478-479 | a change of the empty-extension preference keeps the extension list |
| WorkspaceIndexing.WorkspaceIndexer.IsIndexableExtension | instasearch/src/it/unibz/instasearch/indexing/WorkspaceIndexer.java:222-234 | every extension is indexable without a list; a missing or empty one as the preference says; otherwise exactly the listed ones, in any case |
| WorkspaceIndexing.ListedExtensionIsIndexable | instasearch/src/it/unibz/instasearch/indexing/WorkspaceIndexer.java:184-234 | an extension named in the preference list is indexable, in any letter case |
| WorkspaceIndexing.UnlistedExtensionIsNotIndexable | instasearch/src/it/unibz/instasearch/indexing/WorkspaceIndexer.java:184-234 | an extension the preference list does not name is not indexable |
| WorkspaceIndexing.AbsentIsNotIndexable | instasearch/src/it/unibz/instasearch/indexing/WorkspaceIndexer.java:224-233 | with a non-empty list, a non-empty extension not in it is not indexable |
| WorkspaceIndexing.NormalizeBare | instasearch/src/it/unibz/instasearch/indexing/WorkspaceIndexer.java:195 | an entry without a leading "*" or "." is just lower-cased |
| WorkspaceIndexing.NormalizeDotted | instasearch/src/it/unibz/instasearch/indexing/WorkspaceIndexer.java:195-197 | ".ext" normalises to ext in lower case |
| WorkspaceIndexing.NormalizeStarDotted | instasearch/src/it/unibz/instasearch/indexing/WorkspaceIndexer.java:195-197 | "*.ext" normalises to ext in lower case |
| WorkspaceIndexing.SeparatorsOnlyMeansNoList | instasearch/src/it/unibz/instasearch/indexing/WorkspaceIndexer.java:189-192 | a list of separators only splits into nothing, so every extension is indexable |
| SearchingProperties.TooManyClausesRetryParses | instasearch/src/it/unibz/instasearch/indexing/Searcher.java:133-134 | the retry without prefix parses the same search string without a parse error or an IllegalArgumentException |
| StorageIndexing.IOFailuresKeepRetrying | instasearch/src/it/unibz/instasearch/indexing/StorageIndexer.java:230-251 | IOExceptions from some attempt on keep the loop going to the tenth attempt, one searcher reset and one delay each, the field length unchanged |

## Left out

- The user interface, the indexing and update jobs, plug-in start-up and the update check are not part of this model. They are GUI, scheduling and network code.
- Lucene is not modelled. Its query parser, `Query.extractTerms`, `Query.rewrite`, the top-documents collector, stored fields, term vectors and `QueryTermExtractor` are functions in the `Index` parameter.
- The standard tokenizer in front of the token filters is not modelled either. The filters start from the tokens it delivers.
- Floating point is not modelled: boosts and term weights are exact reals. Float rounding, tf-idf scores, `LengthNormSimilarity` and the term score vectors of `SearchResultDoc` are left out.
- Strings are sequences of Unicode characters. Java's `String.length`, `substring` and the token offsets count UTF-16 code units, so lengths and offsets differ for characters outside the Basic Multilingual Plane, for instance in the minimum length `LastTermQueryPrefixer` tests and in the tokenizers' offsets.
- Case mapping covers ASCII letters only. Java's Unicode upper and lower casing for other letters is not modelled.
- The clock, the working-set lookup and the preference store are inputs. `ModifiedTime.Clock` gives the current time and the starts of today and yesterday. The preference values are passed as arguments.
- The calendar arithmetic behind those day starts is left out.
- Cancellation is a flag read at the same points as the source. A concurrent writer setting it from another thread is not modelled.
- The filter map is walked in field declaration order. The source's `HashMap` order is unspecified. Its value sets are sequences of distinct values.
- Failures to open the index are not modelled: the `IOException` from opening the index searcher in `getIndexSearcher`, and the directory lookups of `getIndexDir`.
- `getProposals` and `getIndexProjects` are left out. They enumerate the index's term dictionary.
- The excluded-directory patterns of `WorkspaceIndexer` are left out: their preference parsing and `isExcluded`. So are `ResourceCollector` and the Eclipse content-type test in `isTextFile`. `wildcardToRegex` itself is modelled as a translation with its matching meaning. `Pattern.compile` errors are not modelled.
- Index maintenance in `StorageIndexer` is left out: creating, deleting and optimising the index and the lock check. The retry loop and the stored document fields are modelled.
- `Thread.sleep` is modelled as the list of delays requested. An interrupted sleep is an input that ends the loop, as in the source.
- ResultDocs.SearchResultDoc.ComputeMatchCount: Java `int` overflow of `freqSum` over very large term frequencies is not modelled (the sum is unbounded).
- Tokenizers.AnalyzedTokens: `FileAnalyzer` and `QueryAnalyzer` are modelled only as the composition of the three splitters, the length filter and, for files, lower-casing. `QueryAnalyzer`'s keyword branch for non-CONTENTS fields is a Lucene tokenizer, so it is left out.
- Getters that only return a field are left out: `getSearchString`, `getResultDocs`, `getScore` and the like. Each model class exposes its fields directly.
- Searching.RewriteSpec: the pipeline runs the corrected CSV stage, `CsvExpansion.Visit` (see Findings). For a comma list in an alias field, such as `type:java,xml`, the source throws a NullPointerException in `CSVExpander`. `searchIndex` and `search` catch only TooManyClauses and ParseException, so that exception escapes `search`. The model expands the list under the raw field name instead. The source's behaviour is modelled separately, by `CsvExpansion.VisitAsWritten` and `CsvExpansion.AliasListFails`.
- Searching.AcceptTermVisitors: runs the corrected CSV stage, as described for `Searching.RewriteSpec`. It does not report the source's NullPointerException for a comma list in an alias field.
- Searching.Rewrite: runs the corrected CSV stage, as described for `Searching.RewriteSpec`.
- Searching.Searcher.RewriteQuery: runs the corrected CSV stage, as described for `Searching.RewriteSpec`.
- Searching.Searcher.Search: runs the corrected CSV stage, as described for `Searching.RewriteSpec`. So a search such as `type:java,xml` answers where the source throws.
- Queries.PhraseQuery: a phrase holds its terms, slop and boost, but not the position of each term, and there is no `MultiPhraseQuery`. So two things are not modelled. First, the position gaps that the standard analyzer's parse leaves where it removed stop words. Second, the phrase with several terms at one position that a quoted camel-case or dotted phrase parses to under `QueryAnalyzer`, whose `TermSplitTokenizer` gives sub-tokens position increment 0. `Index.parse` returns only queries of this clause tree.
- Lowercasing.LowerPhrase: the source rebuilds the phrase with `PhraseQuery.add(term)`, which places the terms at consecutive positions, so any position gaps of the original phrase are lost. The model, having no positions, does not state that reset.
- Fuzzifier.FuzzifyPhrase: the phrase becomes a boolean of fuzzy terms, so its term positions and slop are dropped. The model has no positions to state that loss for.
- Visiting.Traverse: the traversal has no exception channel. When PhraseSearcher's visit of a boolean throws (`PhraseSearching.VisitBool` is `Thrown`), the traversal goes on as if the boolean were kept, with no phrase beside it. The IllegalArgumentException is stated by `PhraseSearching.VisitBool` and `PhraseSearching.OnlyRequiredTermsBecomePhrases` alone; no source file runs PhraseSearcher.
- Some source methods are split into parts so that each part can be specified on its own. `RetryCleaned` and `PrepareQuery` split `searchIndex`. `SearchRung` splits `search`. `AcceptTermVisitors` and `Rewrite` split `rewriteQuery`. Their composition is the source method.

## Findings

| source | as written | input that shows it | evidently intended | confidence | as-written member | corrected member |
|---|---|---|---|---|---|---|
| instasearch/src/it/unibz/instasearch/indexing/querying/CSVExpander.java:42 | `field.createTerm(val)` is called with the field the visitor framework resolved. For a field name the enum does not know, such as the alias `type`, that field is null, because `FieldAliasConverter` resolves aliases only in a later stage. | the search `type:java,xml` | a comma list in an alias field expands like any other, under the raw field name, for the alias stage to map | not executed | CsvExpansion.AliasListFails | CsvExpansion.AliasListExpanded |
| instasearch/src/it/unibz/instasearch/indexing/WorkspaceIndexer.java:495 | `replaceAll("\\.", "\\.")` replaces every dot with a dot. A regex replacement of `\.` is a literal `.`, so dots stay regex wildcards. | the pattern `a.b` matches the path `axb` | a dot in an excluded-directory pattern matches only a dot | not executed | WorkspaceIndexing.DotMatchesAnyCharacter | WorkspaceIndexing.EscapedDotMatchesOnlyDot |
