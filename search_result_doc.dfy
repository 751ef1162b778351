/**
 * SearchResultDoc: one document found by a search, with its stored fields,
 * the term frequency vector of its contents (loaded from the index when
 * first needed) and the number of query-term occurrences in it.
 */
module ResultDocs {
  import opened Strings
  import opened Fields
  import StorageIndexing

  /**
   * A term frequency vector: the document's distinct terms in sorted order
   * and how often each occurs.
   */
  datatype TermVector = TermVector(terms: seq<string>, freqs: seq<int>)

  /** What the index guarantees of a vector: a frequency per term, none below one, no term twice. */
  predicate ValidVector(v: TermVector)
  {
    |v.terms| == |v.freqs|
    && (forall i :: 0 <= i < |v.freqs| ==> v.freqs[i] >= 1)
    && (forall i, j :: 0 <= i < j < |v.terms| ==> v.terms[i] != v.terms[j])
  }

  /** TermFreqVector.indexOf: the position of the term, or -1. */
  function TermIndex(v: TermVector, t: string): (r: int)
    ensures -1 <= r < |v.terms|
    ensures r >= 0 ==> v.terms[r] == t
    ensures r == -1 <==> t !in v.terms
  {
    IndexFromPosition(v.terms, t, 0)
  }

  function IndexFromPosition(terms: seq<string>, t: string, from: nat): (r: int)
    requires from <= |terms|
    ensures -1 <= r < |terms|
    ensures r >= 0 ==> from <= r && terms[r] == t
    ensures r == -1 <==> t !in terms[from..]
    decreases |terms| - from
  {
    if from == |terms| then -1
    else if terms[from] == t then from
    else IndexFromPosition(terms, t, from + 1)
  }

  /** How often the term occurs in the document: its frequency, or 0 when the vector lacks it. */
  function TermFreq(v: TermVector, t: string): int
    requires |v.terms| == |v.freqs|
  {
    var idx := TermIndex(v, t);
    if idx == -1 then 0 else v.freqs[idx]
  }

  /** The sum, over the query terms in order, of their frequencies in the document. */
  function MatchSum(v: TermVector, queryTerms: seq<string>): int
    requires |v.terms| == |v.freqs|
  {
    if queryTerms == [] then 0
    else MatchSum(v, queryTerms[..|queryTerms| - 1]) + TermFreq(v, queryTerms[|queryTerms| - 1])
  }

  class SearchResultDoc {
    /** The stored fields of the document, by field name. */
    const doc: map<string, string>
    const docId: nat
    var termFreqVector: Option<TermVector>
    var matchCount: int

    predicate Valid()
      reads this
    {
      termFreqVector.Some? ==> ValidVector(termFreqVector.value)
    }

    /** A result document starts with no vector loaded and a match count of 0. */
    constructor (doc: map<string, string>, docId: nat)
      ensures this.doc == doc && this.docId == docId
      ensures termFreqVector == None && matchCount == 0
      ensures Valid()
    {
      this.doc := doc;
      this.docId := docId;
      termFreqVector := None;
      matchCount := 0;
    }

    /** getFieldValue: the stored value of the field, if the document has one. */
    function FieldValue(f: Field): (r: Option<string>)
      ensures r.Some? <==> ToString(f) in doc
      ensures r.Some? ==> r.value == doc[ToString(f)]
    {
      if ToString(f) in doc then Some(doc[ToString(f)]) else None
    }

    /**
     * isInJar: the document has a JAR value that is not the placeholder for
     * a missing value and that, lower-cased, ends in ".jar".
     */
    predicate IsInJar()
    {
      match FieldValue(JAR)
      case None => false
      case Some(jar) => jar != StorageIndexing.NoValue && EndsWith(Lower(jar), ".jar")
    }

    /** getJarName: the JAR value of a document in a jar, and null for any other. */
    function JarName(): (r: Option<string>)
      ensures r.Some? <==> IsInJar()
      ensures r.Some? ==> r == FieldValue(JAR)
    {
      if IsInJar() then FieldValue(JAR) else None
    }

    /**
     * computeMatchCount: loads the vector from the index if it is not loaded
     * yet; without a vector nothing changes, otherwise the match count
     * becomes the frequency sum of the query terms.
     */
    method ComputeMatchCount(stored: Option<TermVector>, queryTerms: seq<string>)
      requires Valid() && (stored.Some? ==> ValidVector(stored.value))
      modifies this
      ensures Valid()
      ensures termFreqVector == if old(termFreqVector).Some? then old(termFreqVector) else stored
      ensures termFreqVector.None? ==> matchCount == old(matchCount)
      ensures termFreqVector.Some? ==> matchCount == MatchSum(termFreqVector.value, queryTerms)
    {
      if termFreqVector.None? {
        termFreqVector := stored;
      }
      if termFreqVector.None? {
        return;
      }
      var v := termFreqVector.value;
      var freqSum := 0;
      for i := 0 to |queryTerms|
        invariant freqSum == MatchSum(v, queryTerms[..i])
      {
        var idx := TermIndex(v, queryTerms[i]);
        assert queryTerms[..i + 1][..i] == queryTerms[..i];
        if idx != -1 {
          freqSum := freqSum + v.freqs[idx];
        }
      }
      assert queryTerms[..|queryTerms|] == queryTerms;
      matchCount := freqSum;
    }
  }

  // ---------------------------------------------------------------- properties

  /** The match count is never negative: frequencies are at least one and absent terms add 0. */
  lemma {:induction false} MatchSumNonNegative(v: TermVector, queryTerms: seq<string>)
    requires ValidVector(v)
    ensures MatchSum(v, queryTerms) >= 0
    decreases |queryTerms|
  {
    if queryTerms != [] {
      MatchSumNonNegative(v, queryTerms[..|queryTerms| - 1]);
    }
  }

  /** A query term the document lacks adds nothing; one it has adds its frequency. */
  lemma MatchSumStep(v: TermVector, queryTerms: seq<string>, t: string)
    requires ValidVector(v)
    ensures MatchSum(v, queryTerms + [t]) == MatchSum(v, queryTerms) + TermFreq(v, t)
    ensures t !in v.terms ==> TermFreq(v, t) == 0
    ensures forall i :: 0 <= i < |v.terms| && v.terms[i] == t ==> TermFreq(v, t) == v.freqs[i] >= 1
  {
    assert (queryTerms + [t])[..|queryTerms|] == queryTerms;
    forall i | 0 <= i < |v.terms| && v.terms[i] == t ensures TermFreq(v, t) == v.freqs[i] {
      TermIndexOfDistinct(v, i);
    }
  }

  /** Only the query terms the document has count: the sum over the terms it has is the same. */
  lemma {:induction false} MatchSumOfPresentTerms(v: TermVector, queryTerms: seq<string>)
    requires ValidVector(v)
    ensures MatchSum(v, queryTerms) == MatchSum(v, Present(v, queryTerms))
    decreases |queryTerms|
  {
    if queryTerms != [] {
      var init := queryTerms[..|queryTerms| - 1];
      var t := queryTerms[|queryTerms| - 1];
      MatchSumOfPresentTerms(v, init);
      assert queryTerms == init + [t];
      MatchSumStep(v, init, t);
      if t in v.terms {
        MatchSumStep(v, Present(v, init), t);
      } else {
        assert Present(v, queryTerms) == Present(v, init) + [];
        assert Present(v, init) + [] == Present(v, init);
      }
    }
  }

  /** The query terms the document has, in order. */
  function Present(v: TermVector, queryTerms: seq<string>): seq<string>
  {
    if queryTerms == [] then []
    else
      var t := queryTerms[|queryTerms| - 1];
      Present(v, queryTerms[..|queryTerms| - 1]) + (if t in v.terms then [t] else [])
  }

  /** The sum of the frequencies, first to last. */
  function Sum(xs: seq<int>): int
  {
    if xs == [] then 0 else Sum(xs[..|xs| - 1]) + xs[|xs| - 1]
  }

  /** A term's index in a vector of distinct terms is its position. */
  lemma TermIndexOfDistinct(v: TermVector, i: nat)
    requires ValidVector(v) && i < |v.terms|
    ensures TermIndex(v, v.terms[i]) == i
  {
    var r := TermIndex(v, v.terms[i]);
    assert r >= 0 && v.terms[r] == v.terms[i];
  }

  /** Querying with every term of the document counts every occurrence of every term. */
  lemma {:induction false} MatchSumOfAllTerms(v: TermVector, k: nat)
    requires ValidVector(v) && k <= |v.terms|
    ensures MatchSum(v, v.terms[..k]) == Sum(v.freqs[..k])
    decreases k
  {
    if k > 0 {
      MatchSumOfAllTerms(v, k - 1);
      TermIndexOfDistinct(v, k - 1);
      assert v.terms[..k][..k - 1] == v.terms[..k - 1];
      assert v.freqs[..k][..k - 1] == v.freqs[..k - 1];
    }
  }

  /** A JAR value ending in ".jar" in any letter case marks a document in a jar. */
  lemma JarSuffixInAnyCase(d: SearchResultDoc, name: string, suffix: string)
    requires Lower(suffix) == ".jar"
    requires d.FieldValue(JAR) == Some(name + suffix)
    ensures d.IsInJar()
  {
    var v := name + suffix;
    assert v != StorageIndexing.NoValue by {
      assert |suffix| == 4 && v[|v| - 4..] == suffix;
      assert Lower(suffix)[3] == LowerChar(suffix[3]);
    }
    assert Lower(v)[|v| - 4..] == Lower(suffix);
  }

  /** A document without a JAR value, or with the placeholder, is not in a jar and has no jar name. */
  lemma NotInJar(d: SearchResultDoc)
    requires d.FieldValue(JAR).None? || d.FieldValue(JAR) == Some(StorageIndexing.NoValue)
    ensures !d.IsInJar() && d.JarName().None?
  {
  }

  /**
   * A document indexStorage wrote is in a jar exactly when it was given a
   * jar path, other than the placeholder, ending in ".jar" in any case;
   * its jar name is then that path.
   */
  lemma IndexedJarRoundTrip(d: SearchResultDoc, path: StorageIndexing.StoragePath, project: string,
                            stamp: int, jar: Option<string>)
    requires d.doc == StorageIndexing.StoredFields(path, project, stamp, jar)
    ensures d.IsInJar() <==> jar.Some? && jar.value != StorageIndexing.NoValue && EndsWith(Lower(jar.value), ".jar")
    ensures d.IsInJar() ==> d.JarName() == jar
  {
  }
}
