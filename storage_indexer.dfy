/**
 * StorageIndexer: the stored fields of an indexed document, and the loop
 * that retries indexing a document while the index files are locked or
 * memory runs out.
 */
module StorageIndexing {
  import opened Strings
  import opened Fields

  /** The value stored for a field the resource does not have. */
  const NoValue: string := "<none>"

  /** At most this many terms of a document are indexed. */
  const MaxTermsPerDoc: int := 200000

  /** Lucene's default limit on the terms indexed per field. */
  const DefaultMaxFieldLength: int := 10000

  /** The number of times a document is tried before giving up. */
  const MaxRetryAttempts: nat := 10

  // ------------------------------------------------------------ stored fields

  /** What indexStorage reads off the storage's full path. */
  datatype StoragePath = StoragePath(text: string, lastSegment: string, extension: Option<string>)

  /** The EXT value: the lowercased extension, or NoValue when there is none. */
  function StoredExtension(extension: Option<string>): (r: string)
    ensures extension.Some? ==> r == Lower(extension.value)
    ensures extension.None? ==> r == NoValue
    ensures forall i :: 0 <= i < |r| ==> !IsUpperLetter(r[i])
  {
    if extension.None? then NoValue else Lower(extension.value)
  }

  /**
   * The stored fields of the document indexStorage adds, keyed by the
   * lowercase field names; the contents are indexed but not stored.
   */
  function StoredFields(path: StoragePath, projectName: string, modificationStamp: int, jar: Option<string>): (r: map<string, string>)
    ensures r.Keys == {ToString(FILE), ToString(PROJ), ToString(NAME), ToString(EXT), ToString(MODIFIED), ToString(JAR)}
    ensures ToString(CONTENTS) !in r
    ensures r[ToString(JAR)] == (if jar.None? then NoValue else jar.value)
  {
    map[ToString(FILE) := path.text,
        ToString(PROJ) := projectName,
        ToString(NAME) := path.lastSegment,
        ToString(EXT) := StoredExtension(path.extension),
        ToString(MODIFIED) := IntToString(modificationStamp),
        ToString(JAR) := if jar.None? then NoValue else jar.value]
  }

  // ------------------------------------------------------------- retry loop

  /** What an attempt to index a document can throw. */
  datatype Failure = OutOfMemory | IOFailure | OtherException | OtherError

  /** Whether a failure is an Exception (rethrown as it is) rather than an Error (wrapped). */
  predicate IsException(e: Failure)
  {
    e == IOFailure || e == OtherException
  }

  datatype Outcome = Succeeded | Thrown(cause: Failure, wrapped: bool)

  /** The exception runRetryingRunnable throws for the last failure. */
  function Rethrown(e: Failure): (r: Outcome)
    ensures r.Thrown? && r.cause == e
    ensures r.wrapped <==> e == OutOfMemory || e == OtherError
  {
    Thrown(e, !IsException(e))
  }

  /**
   * The writer's answer to a failure: whether to keep retrying and its new
   * field-length limit. Out of memory lowers a limit above Lucene's default
   * to the default and keeps retrying, and gives up once it is there; any
   * other failure keeps retrying.
   */
  function Handle(e: Failure, maxFieldLength: int): (r: (bool, int))
    ensures e != OutOfMemory ==> r == (true, maxFieldLength)
    ensures e == OutOfMemory && maxFieldLength > DefaultMaxFieldLength ==> r == (true, DefaultMaxFieldLength)
    ensures e == OutOfMemory && maxFieldLength <= DefaultMaxFieldLength ==> r == (false, maxFieldLength)
  {
    if e == OutOfMemory then
      if maxFieldLength > DefaultMaxFieldLength then (true, DefaultMaxFieldLength) else (false, maxFieldLength)
    else (true, maxFieldLength)
  }

  /** What a run of the retry loop did: its outcome, attempts, delays, searcher resets and the writer's final limit. */
  datatype RetryRun = RetryRun(outcome: Outcome, attempts: nat, delays: seq<nat>, resets: nat, maxFieldLength: int)

  /**
   * The retry loop from attempt `i` on: `run(i)` is the failure of attempt
   * `i` (None when it succeeds) and `interrupted(i)` whether the sleep after
   * it is interrupted; `delays` and `resets` are what earlier attempts did.
   */
  function RetryFrom(i: nat, maxFieldLength: int, delays: seq<nat>, resets: nat,
                     run: nat -> Option<Failure>, interrupted: nat -> bool): RetryRun
    requires 1 <= i <= MaxRetryAttempts
    decreases MaxRetryAttempts - i
  {
    match run(i)
    case None => RetryRun(Succeeded, i, delays, resets, maxFieldLength)
    case Some(e) =>
      var (keep, length) := Handle(e, maxFieldLength);
      var resets' := if e == IOFailure then resets + 1 else resets;
      if !keep then RetryRun(Rethrown(e), i, delays, resets', length)
      else if interrupted(i) || i == MaxRetryAttempts then RetryRun(Rethrown(e), i, delays + [i * 1000], resets', length)
      else RetryFrom(i + 1, length, delays + [i * 1000], resets', run, interrupted)
  }

  /** The whole retry loop for a writer whose limit is `maxFieldLength`. */
  function Retry(maxFieldLength: int, run: nat -> Option<Failure>, interrupted: nat -> bool): RetryRun
  {
    RetryFrom(1, maxFieldLength, [], 0, run, interrupted)
  }

  /** The part of Lucene's IndexWriter the retry handler changes. */
  class IndexWriter {
    var maxFieldLength: int

    /** createIndexWriter: a writer that indexes up to MaxTermsPerDoc terms per document. */
    constructor ()
      ensures maxFieldLength == MaxTermsPerDoc
    {
      maxFieldLength := MaxTermsPerDoc;
    }
  }

  /**
   * handleException of indexStorageWithRetry: lowers the writer's limit
   * on the first out-of-memory failure, and asks for the searcher to be
   * reset (onIndexReset) on an I/O failure.
   */
  method HandleException(writer: IndexWriter, e: Failure) returns (keepRetrying: bool, resetSearcher: bool)
    modifies writer
    ensures (keepRetrying, writer.maxFieldLength) == Handle(e, old(writer.maxFieldLength))
    ensures resetSearcher <==> e == IOFailure
  {
    resetSearcher := false;
    keepRetrying := true;
    if e == OutOfMemory {
      if writer.maxFieldLength > DefaultMaxFieldLength {
        writer.maxFieldLength := DefaultMaxFieldLength;
      } else {
        keepRetrying := false;
      }
    } else if e == IOFailure {
      resetSearcher := true;
    }
  }

  /**
   * runRetryingRunnable with indexStorageWithRetry's handler: tries up to
   * MaxRetryAttempts times, sleeping i * 1000 ms after failed attempt i,
   * and throws the last failure unless an attempt succeeded.
   */
  method RunRetrying(writer: IndexWriter, run: nat -> Option<Failure>, interrupted: nat -> bool)
    returns (outcome: Outcome, attempts: nat, delays: seq<nat>, resets: nat)
    modifies writer
    ensures RetryRun(outcome, attempts, delays, resets, writer.maxFieldLength) == Retry(old(writer.maxFieldLength), run, interrupted)
  {
    ghost var spec := Retry(writer.maxFieldLength, run, interrupted);
    var lastException: Option<Failure> := None;
    attempts, delays, resets := 0, [], 0;
    var i := 1;
    while i <= MaxRetryAttempts
      invariant 1 <= i <= MaxRetryAttempts + 1
      invariant i <= MaxRetryAttempts ==> spec == RetryFrom(i, writer.maxFieldLength, delays, resets, run, interrupted)
      invariant i > MaxRetryAttempts ==>
        (lastException.Some? &&
         spec == RetryRun(Rethrown(lastException.value), attempts, delays, resets, writer.maxFieldLength))
      decreases MaxRetryAttempts + 1 - i
    {
      attempts := i;
      var failure := run(i);
      if failure.None? {
        lastException := None;
        break;
      }
      lastException := failure;
      var keepRetrying, resetSearcher := HandleException(writer, failure.value);
      if resetSearcher {
        resets := resets + 1;
      }
      if !keepRetrying {
        break;
      }
      delays := delays + [i * 1000];
      if interrupted(i) {
        break;
      }
      i := i + 1;
    }
    outcome := if lastException.None? then Succeeded else Rethrown(lastException.value);
  }

  // --------------------------------------------------------------- properties

  /** The delays i * 1000 for i = 1, 2, ...: they grow linearly. */
  predicate LinearDelays(delays: seq<nat>)
  {
    forall k :: 0 <= k < |delays| ==> delays[k] == (k + 1) * 1000
  }

  /**
   * From attempt i on: at most MaxRetryAttempts attempts in all, a delay
   * after every failed attempt that did not give up, linear delays, and the
   * outcome is success exactly when the last attempt succeeded, after
   * failures only, and otherwise the last failure rethrown.
   */
  lemma {:induction false} RetryFromShape(i: nat, maxFieldLength: int, delays: seq<nat>, resets: nat,
                                          run: nat -> Option<Failure>, interrupted: nat -> bool)
    requires 1 <= i <= MaxRetryAttempts
    requires |delays| == i - 1 && LinearDelays(delays)
    requires forall k :: 1 <= k < i ==> run(k).Some?
    ensures var r := RetryFrom(i, maxFieldLength, delays, resets, run, interrupted);
      i <= r.attempts <= MaxRetryAttempts &&
      LinearDelays(r.delays) && r.attempts - 1 <= |r.delays| <= r.attempts &&
      (forall k :: 1 <= k < r.attempts ==> run(k).Some?) &&
      (r.outcome == Succeeded <==> run(r.attempts).None?) &&
      (r.outcome.Thrown? ==> r.outcome == Rethrown(run(r.attempts).value))
    decreases MaxRetryAttempts - i
  {
    match run(i)
    case None =>
    case Some(e) =>
      var (keep, length) := Handle(e, maxFieldLength);
      var resets' := if e == IOFailure then resets + 1 else resets;
      if keep && !interrupted(i) && i < MaxRetryAttempts {
        RetryFromShape(i + 1, length, delays + [i * 1000], resets', run, interrupted);
      }
  }

  /**
   * runRetryingRunnable makes between one and MaxRetryAttempts attempts,
   * sleeps i * 1000 ms after failed attempt i, stops at the first success
   * without throwing, and otherwise throws the last failure.
   */
  lemma RetryShape(maxFieldLength: int, run: nat -> Option<Failure>, interrupted: nat -> bool)
    ensures var r := Retry(maxFieldLength, run, interrupted);
      1 <= r.attempts <= MaxRetryAttempts &&
      LinearDelays(r.delays) && r.attempts - 1 <= |r.delays| <= r.attempts &&
      (forall k :: 1 <= k < r.attempts ==> run(k).Some?) &&
      (r.outcome == Succeeded <==> run(r.attempts).None?) &&
      (r.outcome.Thrown? ==> r.outcome == Rethrown(run(r.attempts).value))
  {
    RetryFromShape(1, maxFieldLength, [], 0, run, interrupted);
  }

  /** A handler that says to stop ends the loop at once with that failure rethrown. */
  lemma GivingUpStopsAtOnce(i: nat, maxFieldLength: int, delays: seq<nat>, resets: nat,
                            run: nat -> Option<Failure>, interrupted: nat -> bool)
    requires 1 <= i <= MaxRetryAttempts
    requires run(i) == Some(OutOfMemory) && maxFieldLength <= DefaultMaxFieldLength
    ensures RetryFrom(i, maxFieldLength, delays, resets, run, interrupted) ==
      RetryRun(Thrown(OutOfMemory, true), i, delays, resets, maxFieldLength)
  {
  }

  /**
   * A fresh writer survives one out-of-memory failure by lowering its
   * limit to the default, and gives up on the second.
   */
  lemma SecondOutOfMemoryGivesUp(run: nat -> Option<Failure>, interrupted: nat -> bool)
    requires run(1) == Some(OutOfMemory) && run(2) == Some(OutOfMemory) && !interrupted(1)
    ensures Retry(MaxTermsPerDoc, run, interrupted) ==
      RetryRun(Thrown(OutOfMemory, true), 2, [1000], 0, DefaultMaxFieldLength)
  {
    GivingUpStopsAtOnce(2, DefaultMaxFieldLength, [1000], 0, run, interrupted);
  }

  /** I/O failures from attempt i on never make the loop give up: each resets the searcher. */
  lemma {:induction false} IOFailuresKeepRetrying(i: nat, maxFieldLength: int, delays: seq<nat>, resets: nat,
                                                  run: nat -> Option<Failure>, interrupted: nat -> bool)
    requires 1 <= i <= MaxRetryAttempts
    requires forall k :: i <= k <= MaxRetryAttempts ==> run(k) == Some(IOFailure) && !interrupted(k)
    ensures var r := RetryFrom(i, maxFieldLength, delays, resets, run, interrupted);
      r.outcome == Thrown(IOFailure, false) && r.attempts == MaxRetryAttempts &&
      r.resets == resets + (MaxRetryAttempts + 1 - i) && |r.delays| == |delays| + (MaxRetryAttempts + 1 - i) &&
      r.maxFieldLength == maxFieldLength
    decreases MaxRetryAttempts - i
  {
    if i < MaxRetryAttempts {
      IOFailuresKeepRetrying(i + 1, maxFieldLength, delays + [i * 1000], resets + 1, run, interrupted);
    }
  }

  /** A document whose every attempt fails on I/O is tried ten times, with ten searcher resets. */
  lemma PersistentIOFailure(maxFieldLength: int, run: nat -> Option<Failure>, interrupted: nat -> bool)
    requires forall k :: 1 <= k <= MaxRetryAttempts ==> run(k) == Some(IOFailure) && !interrupted(k)
    ensures var r := Retry(maxFieldLength, run, interrupted);
      r.outcome == Thrown(IOFailure, false) && r.attempts == MaxRetryAttempts && r.resets == MaxRetryAttempts &&
      |r.delays| == MaxRetryAttempts
  {
    IOFailuresKeepRetrying(1, maxFieldLength, [], 0, run, interrupted);
  }
}
